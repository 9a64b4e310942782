/** Where the rows of a run come from: the report each was created from, and what that says about its dates. */
module Origins {
  import opened Calendar
  import opened Domain
  import opened Export
  import opened Normalize
  import opened Numbering
  import opened Pairing
  import opened Protocol
  import opened Reconciler
  import opened Store
  import opened StoreRefinement

  /** Transaction `k` of the batch of step `j`. */
  predicate IsReport(steps: seq<Step>, j: int, k: int) {
    0 <= j < |steps| && steps[j].Ingest? && 0 <= k < |steps[j].batch|
  }

  /** The row has the identity of the report and the columns that no update writes. */
  ghost predicate CreatedFrom(rt: Runtime, account: AccountId, batch: seq<ProviderTx>, k: nat, row: Row)
    requires k < |batch|
  {
    && row.accountId == account
    && row.rawHash == StableHash(rt, account, batch, k)
    && row.providerTransactionId == batch[k].providerTransactionId
    && row.timestamp == batch[k].timestamp
    && row.amountMinor == batch[k].amountMinor
    && row.currency == batch[k].currency
  }

  /** The row was created from report `k` of step `j`. */
  ghost predicate From(rt: Runtime, steps: seq<Step>, j: int, k: int, row: Row) {
    IsReport(steps, j, k) && CreatedFrom(rt, steps[j].account, steps[j].batch, k, row)
  }

  /** The row was created from a report of one of the first `n` steps. */
  ghost predicate Sourced(rt: Runtime, steps: seq<Step>, n: nat, row: Row) {
    exists j, k :: j < n && From(rt, steps, j, k, row)
  }

  lemma KeptRowIsSourced(rt: Runtime, steps: seq<Step>, m: nat, n: nat, before: Row, after: Row)
    requires m <= n && Keeps(before, after) && Sourced(rt, steps, m, before)
    ensures Sourced(rt, steps, n, after)
  {
    hide StableHash;
    var j, k :| j < m && From(rt, steps, j, k, before);
    assert From(rt, steps, j, k, after);
  }

  /** What one turn of the upsert does to identities, soft deletion, status and booked dates. */
  lemma TurnOfRow(p: Progress, account: AccountId, ntx: NormalizedTx, stamp: int, i: RowId)
    requires !p.failed && ValidTable(p.rows) && WellIdentified(account, ntx)
    requires i < |UpsertOne(p, account, ntx, stamp).rows|
    ensures var q := UpsertOne(p, account, ntx, stamp);
            if i < |p.rows| then
              && Keeps(p.rows[i], q.rows[i])
              && q.rows[i].Live() == p.rows[i].Live()
              && (|| q.rows[i].status == p.rows[i].status
                  || (Holds(p.rows, account, ntx.rawHash, i) && q.rows[i].status == ntx.tx.status))
              && (|| q.rows[i].bookedDate == p.rows[i].bookedDate
                  || (Holds(p.rows, account, ntx.rawHash, i) &&
                      q.rows[i].bookedDate == Some(DayStart(ntx.tx.bookedDate))))
            else q.rows[i] == NewRow(account, ntx, stamp)
  {
    hide HasChanges, ClashesWithAny;
    LookupIsByIdentity(p.rows, account, ntx);
    UpsertOneKeeps(p, account, ntx, stamp);
    if i < |p.rows| {
      FoundRow(p.rows, account, ntx, i);
    }
  }

  // ------------------------------------------------------ every row was reported

  lemma {:induction false} UpsertedRowIsSourced(rt: Runtime, steps: seq<Step>, s: nat, rows: seq<Row>, n: nat, i: RowId)
    requires s < |steps| && steps[s].Ingest? && NoEmptyIds(steps[s].batch) && n <= |steps[s].batch| && ValidTable(rows)
    requires forall x :: 0 <= x < |rows| ==> Sourced(rt, steps, s, rows[x])
    requires var b := Normalized(rt, steps[s].account, steps[s].batch);
             i < |Upsert(rows, steps[s].account, b, steps[s].stamp, n).rows|
    ensures var b := Normalized(rt, steps[s].account, steps[s].batch);
            Sourced(rt, steps, s + 1, Upsert(rows, steps[s].account, b, steps[s].stamp, n).rows[i])
  {
    hide UpsertOne, ValidTable, StableHash, WellIdentifiedBatch, Sourced, Keeps;
    var Ingest(account, batch, stamp, _) := steps[s];
    var b := Normalized(rt, account, batch);
    NormalizedIsIdentified(rt, account, batch);
    if n == 0 {
      SourcedLater(rt, steps, s, rows[i]);
    } else {
      var p := Upsert(rows, account, b, stamp, n - 1);
      UpsertNeverViolates(rows, account, b, stamp, n - 1);
      InBatch(account, b, n - 1);
      TurnOfRow(p, account, b[n - 1], stamp(n - 1), i);
      if i < |p.rows| {
        UpsertedRowIsSourced(rt, steps, s, rows, n - 1, i);
        KeptRowIsSourced(rt, steps, s + 1, s + 1, p.rows[i], UpsertOne(p, account, b[n - 1], stamp(n - 1)).rows[i]);
      } else {
        NewRowIsSourced(rt, steps, s, n - 1, stamp(n - 1));
      }
    }
  }

  lemma SourcedLater(rt: Runtime, steps: seq<Step>, n: nat, row: Row)
    requires Sourced(rt, steps, n, row)
    ensures Sourced(rt, steps, n + 1, row)
  {
    hide From;
  }

  lemma InBatch(account: AccountId, batch: seq<NormalizedTx>, k: nat)
    requires WellIdentifiedBatch(account, batch) && k < |batch|
    ensures WellIdentified(account, batch[k])
  {
  }

  lemma NewRowIsSourced(rt: Runtime, steps: seq<Step>, s: nat, k: nat, stamp: int)
    requires IsReport(steps, s, k)
    ensures Sourced(rt, steps, s + 1,
                    NewRow(steps[s].account, Normalized(rt, steps[s].account, steps[s].batch)[k], stamp))
  {
    hide StableHash;
    var row := NewRow(steps[s].account, Normalized(rt, steps[s].account, steps[s].batch)[k], stamp);
    assert From(rt, steps, s, k, row);
  }

  /** In every run each row was created from a report, and still has its identity, time, amount and currency. */
  lemma {:induction false} EveryRowWasReported(rt: Runtime, states: seq<Sys>, steps: seq<Step>, n: nat, i: RowId)
    requires Run(rt, states, steps) && n <= |steps| && i < |states[n].rows|
    ensures Sourced(rt, steps, n, states[n].rows[i])
  {
    hide Sound, Upsert, Reconciled, ExportAll, Sourced, Normalized, ValidTable, Keeps;
    if n > 0 {
      var s := states[n - 1];
      RunIsSound(rt, states, steps, n - 1);
      SoundIsValid(s);
      StepIsSafe(rt, s, steps[n - 1]);
      if steps[n - 1].Ingest? {
        forall x | 0 <= x < |s.rows| ensures Sourced(rt, steps, n - 1, s.rows[x]) {
          EveryRowWasReported(rt, states, steps, n - 1, x);
        }
        UpsertedRowIsSourced(rt, steps, n - 1, s.rows, steps[n - 1].done, i);
      } else {
        OnlyIngestsTouchKeys(rt, s, steps[n - 1]);
        EveryRowWasReported(rt, states, steps, n - 1, i);
        assert RowStep(s.rows[i], states[n].rows[i]);
        KeptRowIsSourced(rt, steps, n - 1, n, s.rows[i], states[n].rows[i]);
      }
    }
  }

  lemma SoundIsValid(s: Sys)
    requires Sound(s)
    ensures ValidTable(s.rows)
  {
  }

  /** The row that bears a number of a fingerprint carries no provider id and has the amount of every transaction
      with that fingerprint. */
  lemma NumberedRowHasTheAmount(rt: Runtime, states: seq<Sys>, steps: seq<Step>, n: nat, account: AccountId,
                                tx: ProviderTx, o: nat, i: RowId)
    requires Run(rt, states, steps) && n <= |steps|
    requires Holds(states[n].rows, account, FingerprintHash(FingerprintKey(rt, account, tx), o), i)
    ensures !Truthy(states[n].rows[i].providerTransactionId)
    ensures states[n].rows[i].amountMinor == tx.amountMinor
  {
    hide Next, Enabled, StableHash, FingerprintKey, FingerprintHash;
    EveryRowWasReported(rt, states, steps, n, i);
    var j, k :| j < n && From(rt, steps, j, k, states[n].rows[i]);
    var batch := steps[j].batch;
    HashNamesOccurrence(rt, account, batch, k, tx, o);
    InCarriers(rt, account, batch, k, tx);
    FingerprintsAgreeExactlyWhen(rt, account, batch[k], tx);
  }

  lemma InCarriers(rt: Runtime, account: AccountId, batch: seq<ProviderTx>, k: nat, tx: ProviderTx)
    requires k in Carriers(ByFingerprint(rt, account), batch, FingerprintKey(rt, account, tx))
    ensures !HasId(batch[k]) && FingerprintKey(rt, account, batch[k]) == FingerprintKey(rt, account, tx)
  {
    hide FingerprintKey;
  }

  // ------------------------------------------------------------ booked dates

  /** As the provider boundary yields it (see Mapper.BoundaryGuarantees), in the years 0 to 9999. */
  predicate FromBoundary(tx: ProviderTx) {
    tx.bookedDate == DayStart(tx.timestamp) && YEAR_0 <= tx.timestamp < YEAR_10000
  }

  ghost predicate AllFromBoundary(steps: seq<Step>) {
    forall j, k :: IsReport(steps, j, k) ==> FromBoundary(steps[j].batch[k])
  }

  /** Two reports of one provider id of an account. */
  predicate SameId(steps: seq<Step>, j: int, k: int, j': int, k': int) {
    && IsReport(steps, j, k) && IsReport(steps, j', k') && steps[j].account == steps[j'].account
    && HasId(steps[j].batch[k])
    && steps[j].batch[k].providerTransactionId == steps[j'].batch[k'].providerTransactionId
  }

  /** No provider id is reported with two different days. */
  ghost predicate IdsKeepTheirDay(steps: seq<Step>) {
    forall j, k, j', k' :: SameId(steps, j, k, j', k') ==>
      steps[j].batch[k].bookedDate == steps[j'].batch[k'].bookedDate
  }

  /** The booked date is the day of the timestamp. */
  predicate OnItsDay(row: Row) {
    row.bookedDate == Some(DayStart(row.timestamp))
  }

  /** A fingerprint names its day, so only an id could be reported with two days. */
  lemma SameIdentitySameDay(rt: Runtime, steps: seq<Step>, j: int, k: int, j': int, k': int)
    requires AllFromBoundary(steps) && IdsKeepTheirDay(steps)
    requires IsReport(steps, j, k) && IsReport(steps, j', k') && steps[j].account == steps[j'].account
    requires StableHash(rt, steps[j].account, steps[j].batch, k) ==
             StableHash(rt, steps[j'].account, steps[j'].batch, k')
    ensures steps[j].batch[k].bookedDate == steps[j'].batch[k'].bookedDate
  {
    hide StableHash, FingerprintKey, AllFromBoundary, FromBoundary;
    var x, y := steps[j].batch[k], steps[j'].batch[k'];
    SameHashSameKind(rt, steps[j].account, steps[j].batch, k, steps[j'].batch, k');
    if HasId(x) {
      assert SameId(steps, j, k, j', k');
    } else {
      BoundaryReport(steps, j, k);
      BoundaryReport(steps, j', k');
      SameFingerprintSameDay(rt, steps[j].account, x, y);
    }
  }

  lemma BoundaryReport(steps: seq<Step>, j: int, k: int)
    requires AllFromBoundary(steps) && IsReport(steps, j, k)
    ensures FromBoundary(steps[j].batch[k])
  {
  }

  lemma SameFingerprintSameDay(rt: Runtime, account: AccountId, x: ProviderTx, y: ProviderTx)
    requires FromBoundary(x) && FromBoundary(y)
    requires FingerprintKey(rt, account, x) == FingerprintKey(rt, account, y)
    ensures x.bookedDate == y.bookedDate
  {
    hide IsoDay, FingerprintKey;
    FingerprintsAgreeExactlyWhen(rt, account, x, y);
    SameDayPrintedExactlyWhenSameDay(x.bookedDate, y.bookedDate);
    DayStartFixed(x.bookedDate);
    DayStartFixed(y.bookedDate);
  }

  /** A later report under the identity of a row carries the row's own day. */
  lemma ReportKeepsTheDay(rt: Runtime, steps: seq<Step>, n: nat, row: Row, j: int, k: int)
    requires AllFromBoundary(steps) && IdsKeepTheirDay(steps) && Sourced(rt, steps, n, row) && IsReport(steps, j, k)
    requires steps[j].account == row.accountId && StableHash(rt, steps[j].account, steps[j].batch, k) == row.rawHash
    ensures DayStart(steps[j].batch[k].bookedDate) == DayStart(row.timestamp)
  {
    hide StableHash;
    var j', k' :| j' < n && From(rt, steps, j', k', row);
    SameIdentitySameDay(rt, steps, j, k, j', k');
    assert FromBoundary(steps[j'].batch[k']);
    DayStartFixed(DayStart(row.timestamp));
  }

  lemma {:induction false} UpsertedRowIsOnItsDay(rt: Runtime, steps: seq<Step>, s: nat, rows: seq<Row>, n: nat,
                                                 i: RowId)
    requires AllFromBoundary(steps) && IdsKeepTheirDay(steps)
    requires s < |steps| && steps[s].Ingest? && NoEmptyIds(steps[s].batch) && n <= |steps[s].batch| && ValidTable(rows)
    requires forall x :: 0 <= x < |rows| ==> Sourced(rt, steps, s, rows[x]) && OnItsDay(rows[x])
    requires var b := Normalized(rt, steps[s].account, steps[s].batch);
             i < |Upsert(rows, steps[s].account, b, steps[s].stamp, n).rows|
    ensures var b := Normalized(rt, steps[s].account, steps[s].batch);
            OnItsDay(Upsert(rows, steps[s].account, b, steps[s].stamp, n).rows[i])
  {
    hide UpsertOne, ValidTable, StableHash, WellIdentifiedBatch, Sourced, AllFromBoundary, IdsKeepTheirDay;
    var Ingest(account, batch, stamp, _) := steps[s];
    var b := Normalized(rt, account, batch);
    if n > 0 {
      var p := Upsert(rows, account, b, stamp, n - 1);
      NormalizedIsIdentified(rt, account, batch);
      UpsertNeverViolates(rows, account, b, stamp, n - 1);
      InBatch(account, b, n - 1);
      TurnOfRow(p, account, b[n - 1], stamp(n - 1), i);
      if i < |p.rows| {
        UpsertedRowIsOnItsDay(rt, steps, s, rows, n - 1, i);
        UpsertedRowIsSourced(rt, steps, s, rows, n - 1, i);
        if Holds(p.rows, account, b[n - 1].rawHash, i) {
          ReportKeepsTheDay(rt, steps, s + 1, p.rows[i], s, n - 1);
        }
      } else {
        BoundaryReport(steps, s, n - 1);
        DayStartFixed(batch[n - 1].bookedDate);
      }
    }
  }

  /** In every run whose reports come from the boundary and never change the day of a provider id, each row is
      booked on the day of its timestamp. */
  lemma {:induction false} RowsAreOnTheirDay(rt: Runtime, states: seq<Sys>, steps: seq<Step>, n: nat, i: RowId)
    requires Run(rt, states, steps) && n <= |steps| && i < |states[n].rows|
    requires AllFromBoundary(steps) && IdsKeepTheirDay(steps)
    ensures OnItsDay(states[n].rows[i])
  {
    hide Sound, Upsert, Reconciled, ExportAll, Sourced, Normalized, ValidTable, AllFromBoundary, IdsKeepTheirDay;
    if n > 0 {
      var s := states[n - 1];
      RunIsSound(rt, states, steps, n - 1);
      SoundIsValid(s);
      if steps[n - 1].Ingest? {
        forall x | 0 <= x < |s.rows| ensures Sourced(rt, steps, n - 1, s.rows[x]) && OnItsDay(s.rows[x]) {
          EveryRowWasReported(rt, states, steps, n - 1, x);
          RowsAreOnTheirDay(rt, states, steps, n - 1, x);
        }
        UpsertedRowIsOnItsDay(rt, steps, n - 1, s.rows, steps[n - 1].done, i);
      } else {
        OnlyIngestsTouchKeys(rt, s, steps[n - 1]);
        StepIsSafe(rt, s, steps[n - 1]);
        assert RowStep(s.rows[i], states[n].rows[i]);
        RowsAreOnTheirDay(rt, states, steps, n - 1, i);
      }
    }
  }

  /** Hence dates rise with timestamps, and one call of the reconciler merges as many pendings as any valid
      pairing of live rows with comparable names. */
  lemma FirstFitIsOptimalInRuns(rt: Runtime, states: seq<Sys>, steps: seq<Step>, n: nat, account: AccountId,
                                ps: seq<RowId>, ss: seq<RowId>, m: map<RowId, RowId>)
    requires Run(rt, states, steps) && n <= |steps| && AllFromBoundary(steps) && IdsKeepTheirDay(steps)
    requires var rows := states[n].rows;
             && Answer(rows, account, Pending, ps) && Answer(rows, account, Settled, ss)
             && Comparable(rows, account) && IsPairing(rt, rows, m, ps, ss)
    ensures Rising(states[n].rows, account)
    ensures |m| <= |Claims(rt, states[n].rows, ps, ss, |ps|)|
  {
    hide Next, AllFromBoundary, IdsKeepTheirDay, Answer, Comparable, IsPairing, Claims, Rising;
    forall i: RowId | i < |states[n].rows| ensures OnItsDay(states[n].rows[i]) {
      RowsAreOnTheirDay(rt, states, steps, n, i);
    }
    BookedDaysRise(states[n].rows, account);
    FirstFitIsOptimal(rt, states[n].rows, account, ps, ss, m);
  }

  // ------------------------------------ both conditions of optimality are needed

  /** A report as the boundary yields it. */
  function Report(id: string, status: Status, timestamp: int, merchant: Option<string>, description: string):
    ProviderTx
  {
    ProviderTx(Some(id), status, timestamp, DayStart(timestamp), 0, "GBP", description, merchant, None, None, None)
  }

  function IngestAll(batch: seq<ProviderTx>): Step {
    Ingest("a", batch, (k: nat) => 0, |batch|)
  }

  function Created(tx: ProviderTx): Row
    requires HasId(tx)
  {
    NewRow("a", NormalizedTx(tx, PtidHash("a", tx.providerTransactionId.value)), 0)
  }

  /** Reports of distinct identities, ingested into the empty table. */
  lemma FirstIngest(rt: Runtime, batch: seq<ProviderTx>) returns (s: Sys)
    requires NoEmptyIds(batch)
    requires forall i, j :: 0 <= i < j < |batch| ==> StableHash(rt, "a", batch, i) != StableHash(rt, "a", batch, j)
    ensures Enabled(EMPTY, IngestAll(batch)) && s == Next(rt, EMPTY, IngestAll(batch))
    ensures |s.rows| == |batch| && s == EMPTY.(rows := s.rows)
    ensures forall i: nat :: i < |batch| ==>
              s.rows[i] == NewRow("a", NormalizedTx(batch[i], StableHash(rt, "a", batch, i)), 0)
  {
    hide Upsert, StableHash;
    s := Next(rt, EMPTY, IngestAll(batch));
    var b := Normalized(rt, "a", batch);
    NormalizedIsIdentified(rt, "a", batch);
    DistinctAreInserted("a", b, (k: nat) => 0, |batch|);
  }

  /** Reports with ids of their own, ingested into the empty table. */
  lemma IdsReported(rt: Runtime, batch: seq<ProviderTx>) returns (s: Sys)
    requires forall i :: 0 <= i < |batch| ==> HasId(batch[i])
    requires forall i, j :: 0 <= i < j < |batch| ==> batch[i].providerTransactionId != batch[j].providerTransactionId
    ensures Enabled(EMPTY, IngestAll(batch)) && s == Next(rt, EMPTY, IngestAll(batch))
    ensures |s.rows| == |batch| && s == EMPTY.(rows := s.rows)
    ensures forall i: nat :: i < |batch| ==> s.rows[i] == Created(batch[i])
  {
    hide Next, Enabled, NewRow;
    forall i, j | 0 <= i < j < |batch| ensures StableHash(rt, "a", batch, i) != StableHash(rt, "a", batch, j) {
      if StableHash(rt, "a", batch, i) == StableHash(rt, "a", batch, j) {
        PtidHashInjective("a", batch[i].providerTransactionId.value, batch[j].providerTransactionId.value);
      }
    }
    s := FirstIngest(rt, batch);
  }

  /** All days are kept but only some rows name a merchant: one pending is merged where two could be. */
  lemma MixedNamesCanLose(rt: Runtime, d: string, e: string) returns (states: seq<Sys>, steps: seq<Step>)
    requires rt.normalizeDescription(d) != rt.normalizeDescription(e)
    ensures Run(rt, states, steps) && |steps| == 1 && AllFromBoundary(steps) && IdsKeepTheirDay(steps)
    ensures !Comparable(states[1].rows, "a")
    ensures exists ps, ss, m :: LosesOne(rt, states[1].rows, ps, ss, m)
  {
    hide LosesOne, Next, Enabled;
    var batch := [Report("1", Pending, 0, None, d), Report("2", Pending, 1, Some("A"), e),
                  Report("3", Settled, 0, Some("A"), d), Report("4", Settled, 1, None, d)];
    var s := IdsReported(rt, batch);
    states, steps := [EMPTY, s], [IngestAll(batch)];
    FirstTakesTheOnlyTwin(rt, s.rows);
    assert LiveIn(s.rows, "a", 0) && LiveIn(s.rows, "a", 1);
  }

  /** Every row names its merchant, but the bank moves one pending to an earlier day: its row keeps the old
      timestamp, and one pending is merged where two could be. */
  lemma FallingDatesCanLose(rt: Runtime) returns (states: seq<Sys>, steps: seq<Step>)
    ensures Run(rt, states, steps) && |steps| == 2 && AllFromBoundary(steps) && !IdsKeepTheirDay(steps)
    ensures Comparable(states[2].rows, "a") && !Rising(states[2].rows, "a")
    ensures exists ps, ss, m :: LosesOne(rt, states[2].rows, ps, ss, m)
  {
    hide LosesOne, Next, Enabled, Comparable, Rising, Overwritten, HasChanges;
    var w := MATCH_WINDOW_DAYS * DAY_MS;
    var batch := [Report("1", Pending, 0, Some("A"), ""), Report("2", Pending, 1, Some("A"), ""),
                  Report("3", Settled, -w, Some("A"), ""), Report("4", Settled, w, Some("A"), "")];
    var moved := Report("2", Pending, -2 * w, Some("A"), "");
    var s := IdsReported(rt, batch);
    MovedChanges(s.rows[1], batch[1], moved);
    var s' := OneMoved(rt, s, moved, 1);
    states, steps := [EMPTY, s, s'], [IngestAll(batch), IngestAll([moved])];
    assert SameId(steps, 0, 1, 1, 0);
    MovedLoses(rt, s.rows, s'.rows, batch, moved);
  }

  lemma MovedChanges(row: Row, tx: ProviderTx, moved: ProviderTx)
    requires HasId(tx) && row == Created(tx) && DayStart(tx.bookedDate) != moved.bookedDate
    ensures HasChanges(row, moved)
  {
  }

  lemma MovedLoses(rt: Runtime, before: seq<Row>, rows: seq<Row>, batch: seq<ProviderTx>, moved: ProviderTx)
    requires var w := MATCH_WINDOW_DAYS * DAY_MS;
             && batch == [Report("1", Pending, 0, Some("A"), ""), Report("2", Pending, 1, Some("A"), ""),
                          Report("3", Settled, -w, Some("A"), ""), Report("4", Settled, w, Some("A"), "")]
             && moved == Report("2", Pending, -2 * w, Some("A"), "")
    requires |before| == 4 && forall i: nat :: i < 4 ==> before[i] == Created(batch[i])
    requires rows == before[1 := Overwritten(before[1], moved).(updatedAt := 0)]
    ensures Comparable(rows, "a") && !Rising(rows, "a")
    ensures exists ps, ss, m :: LosesOne(rt, rows, ps, ss, m)
  {
    hide LosesOne, Created, Comparable, Rising;
    forall i: nat | i < 4 ensures Copies(before[i], batch[i]) {
      CreatedCopies(batch[i]);
    }
    NamedLaterLoses(rt, rows);
  }

  predicate Copies(row: Row, tx: ProviderTx) {
    && row.accountId == "a" && row.Live() && row.status == tx.status && row.timestamp == tx.timestamp
    && row.bookedDate == Some(DayStart(tx.bookedDate)) && row.merchantName == tx.merchantName
    && row.amountMinor == tx.amountMinor
  }

  lemma CreatedCopies(tx: ProviderTx)
    requires HasId(tx)
    ensures Copies(Created(tx), tx)
  {
  }

  /** All named alike; the second pending booked before the first, and the settled rows between and after. */
  predicate NamedLater(rows: seq<Row>) {
    var w := MATCH_WINDOW_DAYS * DAY_MS;
    && |rows| == 4 && (forall i :: 0 <= i < 4 ==> rows[i].merchantName == Some("A"))
    && rows[0].bookedDate == Some(0) && rows[1].bookedDate == Some(-2 * w)
    && rows[2].bookedDate == Some(-w) && rows[3].bookedDate == Some(w)
  }

  lemma NamedLaterLoses(rt: Runtime, rows: seq<Row>)
    requires FourRows(rows) && NamedLater(rows)
    requires rows[0].amountMinor == rows[1].amountMinor == rows[2].amountMinor == rows[3].amountMinor
    ensures Comparable(rows, "a") && !Rising(rows, "a")
    ensures exists ps, ss, m :: LosesOne(rt, rows, ps, ss, m)
  {
    hide LosesOne;
    FirstTakesTheOnlyTwin(rt, rows);
    assert LiveIn(rows, "a", 0) && LiveIn(rows, "a", 1);
  }

  /** Ingesting a changed report of the live row `i` alone. */
  lemma OneMoved(rt: Runtime, s: Sys, tx: ProviderTx, i: RowId) returns (s': Sys)
    requires HasId(tx) && i < |s.rows| && s.rows[i].Live() && HasChanges(s.rows[i], tx)
    requires forall j :: 0 <= j < |s.rows| ==> (Bears(s.rows[j], "a", ById(tx.providerTransactionId.value)) <==> j == i)
    ensures Enabled(s, IngestAll([tx])) && s' == Next(rt, s, IngestAll([tx]))
    ensures s'.rows == s.rows[i := Overwritten(s.rows[i], tx).(updatedAt := 0)]
  {
    hide HasChanges, Overwritten;
    s' := Next(rt, s, IngestAll([tx]));
    var b := Normalized(rt, "a", [tx]);
    assert b[0].tx == tx;
    var start := Upsert(s.rows, "a", b, (k: nat) => 0, 0);
    assert Upsert(s.rows, "a", b, (k: nat) => 0, 1) == UpsertOne(start, "a", b[0], 0);
  }
}
