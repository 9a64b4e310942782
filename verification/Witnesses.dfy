/** Runs that reach the failures: each starts from the empty system, takes steps the code can take, and ends in a
    table where something has gone wrong. */
module Witnesses {
  import opened Calendar
  import opened Completeness
  import opened Convergence
  import opened Domain
  import opened Export
  import opened Gateway
  import opened Liveness
  import opened MirrorCoherence
  import opened Normalize
  import opened Numbering
  import opened Origins
  import opened Protocol
  import opened Reconciler
  import opened SetFacts
  import opened Store
  import opened StoreRefinement
  import opened SyncWindow

  // ------------------------- a pending that costs the settled transaction

  /** A coffee, with or without a provider id. */
  function Cup(id: Option<string>, status: Status, timestamp: int): ProviderTx {
    ProviderTx(id, status, timestamp, DayStart(timestamp), -300, "GBP", "COFFEE", None, None, None, None)
  }

  function Id(withIds: bool, id: string): Option<string> { if withIds then Some(id) else None }

  /** Yesterday's coffee is settled when today's is still pending. */
  function FirstDay(withIds: bool): seq<ProviderTx> {
    [Cup(Id(withIds, "1"), Settled, 0), Cup(Id(withIds, "2"), Pending, DAY_MS)]
  }

  function SecondDay(withIds: bool): seq<ProviderTx> {
    [Cup(Id(withIds, "1"), Settled, 0), Cup(Id(withIds, "2"), Settled, DAY_MS)]
  }

  function TwoDays(c: Config, withIds: bool): Syncs {
    Syncs("a", c,
          [Attempt(Min(DAY_MS, c.initial), DAY_MS, true, DAY_MS), Attempt(2 * DAY_MS, 2 * DAY_MS, true, 2 * DAY_MS)],
          [0, 2], [BankTx(SecondDay(withIds)[0], 0), BankTx(SecondDay(withIds)[1], 2 * DAY_MS)])
  }

  const MERGE: Options := Options(0, (k: nat) => 0, (k: nat) => 0, 14, {})

  lemma TwoDaysAreGood(c: Config, withIds: bool)
    ensures var y := TwoDays(c, withIds); History(y.h, 0) && GoodBank(y, DAY_MS)
  {
    var y := TwoDays(c, withIds);
    assert LastOk(y.h, 1) == Some(0);
    DayStartFixed(DAY_MS);
    assert forall k :: 0 <= k < 2 ==> FromBoundary(y.bank[k].tx) && Prompt(y.bank[k], DAY_MS);
  }

  lemma TwoDaysAreHeld(c: Config, withIds: bool)
    requires c.overlap >= DAY_MS
    ensures var y := TwoDays(c, withIds);
            && Holding(y.c, y.h, y.bank, 0, FirstDay(withIds), map[0 := 0])
            && Holding(y.c, y.h, y.bank, 1, SecondDay(withIds), map[0 := 0, 1 := 1])
            && Due(y.c, y.h, y.bank, 1, 1)
  {
    var y := TwoDays(c, withIds);
    assert LastOk(y.h, 1) == Some(0);
  }

  /** Two coffees on two days have identities of their own, and status is no part of them. */
  lemma CupsDiffer(rt: Runtime, withIds: bool)
    requires Collates(rt)
    ensures var a, b := FirstDay(withIds), SecondDay(withIds);
            && StableHash(rt, "a", a, 0) != StableHash(rt, "a", a, 1)
            && StableHash(rt, "a", a, 0) == StableHash(rt, "a", b, 0)
            && StableHash(rt, "a", a, 1) == StableHash(rt, "a", b, 1)
            && NoEmptyIds(a) && NoEmptyIds(b)
  {
    hide StableHash, FingerprintKey;
    var a, b := FirstDay(withIds), SecondDay(withIds);
    IdentitiesCollideOnlyOnEqualIds(rt, "a", a, 0, 1);
    forall k: nat | k < 2 ensures StableHash(rt, "a", a, k) == StableHash(rt, "a", b, k) {
      CupKeepsItsHash(rt, withIds, k);
    }
  }

  lemma CupKeepsItsHash(rt: Runtime, withIds: bool, k: nat)
    requires Collates(rt) && k < 2
    ensures StableHash(rt, "a", FirstDay(withIds), k) == StableHash(rt, "a", SecondDay(withIds), k)
  {
    hide FingerprintKey, IsoDay;
    var a, b := FirstDay(withIds), SecondDay(withIds);
    var s := ByFingerprint(rt, "a");
    StatusIsNotInTheKey(rt, a[k], b[k]);
    if !withIds {
      DaysAreToldApart(rt);
      ComparatorIsPreorder(rt, "a");
      OnlyBearer(s, a, FingerprintKey(rt, "a", a[k]), k);
      OnlyBearer(s, b, FingerprintKey(rt, "a", b[k]), k);
    }
  }

  lemma OnlyBearer(s: Scheme<ProviderTx>, items: seq<ProviderTx>, key: string, k: nat)
    requires Preorder(s) && k < |items| && s.key(items[k]) == Some(key)
    requires forall j :: 0 <= j < |items| && s.key(items[j]) == Some(key) ==> j == k
    ensures Occurrence(s, items, k) == 0
  {
    BeforeIsStrictOrder(s, items, k, k, k);
    assert Earlier(s, items, key, k) == {};
  }

  lemma StatusIsNotInTheKey(rt: Runtime, a: ProviderTx, b: ProviderTx)
    requires b == a.(status := b.status)
    ensures FingerprintKey(rt, "a", a) == FingerprintKey(rt, "a", b)
  {
  }

  lemma DaysAreToldApart(rt: Runtime)
    ensures forall s, t :: FingerprintKey(rt, "a", Cup(None, s, 0)) != FingerprintKey(rt, "a", Cup(None, t, DAY_MS))
  {
    hide FingerprintKey;
    forall s, t ensures FingerprintKey(rt, "a", Cup(None, s, 0)) != FingerprintKey(rt, "a", Cup(None, t, DAY_MS)) {
      DayStartFixed(0);
      DayStartFixed(DAY_MS);
      if FingerprintKey(rt, "a", Cup(None, s, 0)) == FingerprintKey(rt, "a", Cup(None, t, DAY_MS)) {
        SameFingerprintSameDay(rt, "a", Cup(None, s, 0), Cup(None, t, DAY_MS));
      }
    }
  }

  /** The table after the first sync has ingested. */
  ghost predicate TwoCups(rt: Runtime, withIds: bool, rows: seq<Row>) {
    |rows| == 2 && forall k: nat :: k < 2 ==>
      rows[k] == NewRow("a", NormalizedTx(FirstDay(withIds)[k], StableHash(rt, "a", FirstDay(withIds), k)), 0)
  }

  /** Today's pending coffee is merged into yesterday's settled one. */
  lemma PendingIsMerged(rt: Runtime, withIds: bool, rows: seq<Row>)
    requires TwoCups(rt, withIds, rows)
    ensures Answer(rows, "a", Pending, [1]) && Answer(rows, "a", Settled, [0])
    ensures Reconciled(rt, rows, [1], [0], MERGE, 1) == rows[1 := SoftDeleted(rows[1], 0, 0)]
  {
    hide StableHash;
    DayStartFixed(DAY_MS);
    assert Matches(rt, rows[1], rows[0]);
    assert Claims(rt, rows, [1], [0], 0).Values == {};
    assert Twin(rt, rows, 1, [0], {}) == Some(0);
  }

  /** When it is settled the next day, its row is dead and stays so. */
  lemma SecondDayIsSkipped(rt: Runtime, withIds: bool, rows: seq<Row>, stamp: nat -> int)
    requires Collates(rt) && TwoCups(rt, withIds, rows) && ValidTable(rows[1 := SoftDeleted(rows[1], 0, 0)])
    ensures var after := rows[1 := SoftDeleted(rows[1], 0, 0)];
            Upsert(after, "a", Normalized(rt, "a", SecondDay(withIds)), stamp, 2).rows == after
  {
    hide StableHash, ValidTable, Upsert, Find, WellIdentifiedBatch;
    var after := rows[1 := SoftDeleted(rows[1], 0, 0)];
    var b := Normalized(rt, "a", SecondDay(withIds));
    CupsDiffer(rt, withIds);
    NormalizedIsIdentified(rt, "a", SecondDay(withIds));
    forall k: nat | k < 2 ensures Quiet(after, "a", b[k]) {
      InBatch("a", b, k);
      LookupIsByIdentity(after, "a", b[k]);
      assert Holds(after, "a", b[k].rawHash, k);
      DayStartFixed(0);
    }
    QuietPass(after, "a", b, stamp, 2);
  }

  /** A settled transaction can be missing from the live ledger although every window was wide enough: its pending
      forerunner was merged into another settled row, and its own row stays soft-deleted. It happens with a provider id
      that the transaction keeps, and without one. */
  lemma PendingCostsTheSettled(rt: Runtime, c: Config, withIds: bool)
    returns (states: seq<Sys>, steps: seq<Step>, y: Syncs)
    requires Collates(rt) && DAY_MS + 0 + DAY_MS <= c.overlap + 2
    ensures y.c == c && Setting(rt, states, steps, y, DAY_MS, 0, 1, 3) && |y.bank| == 2
    ensures Due(c, y.h, y.bank, 1, 1) && (HasId(y.bank[1].tx) <==> withIds) && y.bank[1].tx.status == Settled
    ensures |states[3].rows| == 2 && states[3].rows[0].Live() && !states[3].rows[1].Live()
    ensures states[3].rows[0].timestamp == y.bank[0].tx.timestamp != y.bank[1].tx.timestamp
    ensures states[3].rows[1].timestamp == y.bank[1].tx.timestamp
  {
    hide Next, Enabled, StableHash, GoodBank, History, Holding, NewRow;
    y := TwoDays(c, withIds);
    TwoDaysAreGood(c, withIds);
    TwoDaysAreHeld(c, withIds);
    CupsDiffer(rt, withIds);
    var s1 := FirstIngest(rt, FirstDay(withIds));
    var merge := Reconcile("a", [1], [0], MERGE, 1);
    var s2 := Merged(rt, withIds, s1);
    steps := [IngestAll(FirstDay(withIds)), merge, IngestAll(SecondDay(withIds))];
    TwoStepsAreSound(rt, s1, s2, steps[0], merge);
    var s3 := Skipped(rt, withIds, s1, s2);
    states := [EMPTY, s1, s2, s3];
    assert Delivered(steps, y, 0) && Delivered(steps, y, 1);
    CupRows(rt, withIds, s1.rows);
  }

  lemma Merged(rt: Runtime, withIds: bool, s: Sys) returns (s': Sys)
    requires TwoCups(rt, withIds, s.rows)
    ensures Enabled(s, Reconcile("a", [1], [0], MERGE, 1)) && s' == Next(rt, s, Reconcile("a", [1], [0], MERGE, 1))
    ensures s' == s.(rows := s.rows[1 := SoftDeleted(s.rows[1], 0, 0)])
  {
    hide TwoCups, Reconciled, Answer;
    PendingIsMerged(rt, withIds, s.rows);
    s' := Next(rt, s, Reconcile("a", [1], [0], MERGE, 1));
  }

  lemma TwoStepsAreSound(rt: Runtime, s1: Sys, s2: Sys, a: Step, b: Step)
    requires Enabled(EMPTY, a) && s1 == Next(rt, EMPTY, a) && Enabled(s1, b) && s2 == Next(rt, s1, b)
    ensures ValidTable(s2.rows)
  {
    hide Next, Enabled, ValidTable;
    RunIsSound(rt, [EMPTY, s1, s2], [a, b], 2);
    SoundIsValid(s2);
  }

  lemma Skipped(rt: Runtime, withIds: bool, s1: Sys, s2: Sys) returns (s3: Sys)
    requires Collates(rt) && TwoCups(rt, withIds, s1.rows) && ValidTable(s2.rows)
    requires s2.rows == s1.rows[1 := SoftDeleted(s1.rows[1], 0, 0)]
    ensures Enabled(s2, IngestAll(SecondDay(withIds))) && s3 == Next(rt, s2, IngestAll(SecondDay(withIds)))
    ensures s3.rows == s2.rows
  {
    hide TwoCups, ValidTable, Upsert, Normalized, SoftDeleted;
    CupsDiffer(rt, withIds);
    SecondDayIsSkipped(rt, withIds, s1.rows, (k: nat) => 0);
    s3 := Next(rt, s2, IngestAll(SecondDay(withIds)));
  }

  lemma CupRows(rt: Runtime, withIds: bool, rows: seq<Row>)
    requires TwoCups(rt, withIds, rows)
    ensures rows[0].Live() && rows[0].timestamp == 0 && rows[1].timestamp == DAY_MS
  {
    hide StableHash;
  }

  // ------------------------------------- two pendings merged into one twin

  /** Two pendings are merged into one settled row by two calls. */
  lemma TwinIsUsedTwice(rt: Runtime) returns (states: seq<Sys>, steps: seq<Step>)
    ensures Run(rt, states, steps) && |steps| == 3
    ensures steps[1] == Reconcile("a", [0, 1], [2], MERGE, 2) && steps[2] == Reconcile("a", [1], [2], MERGE, 1)
    ensures Claims(rt, states[1].rows, [0, 1], [2], 2) == map[0 := 2]
    ensures Claims(rt, states[2].rows, [1], [2], 1) == map[1 := 2]
    ensures LiveRows(states[1].rows, "a", Pending) == {0, 1} && LiveRows(states[3].rows, "a", Pending) == {}
  {
    hide Next, Enabled, Created, Claims, Reconciled, Answer;
    var batch := [Report("1", Pending, 0, Some("A"), ""), Report("2", Pending, 1, Some("A"), ""),
                  Report("3", Settled, 2, Some("A"), "")];
    var s1 := IdsReported(rt, batch);
    forall i: nat | i < 3 ensures Copies(s1.rows[i], batch[i]) {
      CreatedCopies(batch[i]);
    }
    CreatedAtZero(batch[1]);
    NextCallReusesTheTwin(rt, s1.rows, MERGE, "a");
    FirstSuitorMerges(rt, s1.rows, MERGE, "a");
    var s2 := ReconcileTo(rt, s1, [0, 1], [2]);
    var s3 := ReconcileTo(rt, s2, [1], [2]);
    OneMerged(rt, s2.rows);
    steps := [IngestAll(batch), Reconcile("a", [0, 1], [2], MERGE, 2), Reconcile("a", [1], [2], MERGE, 1)];
    states := [EMPTY, s1, s2, s3];
  }

  lemma CreatedAtZero(tx: ProviderTx)
    requires HasId(tx)
    ensures !Expires(Created(tx), MERGE, 1)
  {
  }

  lemma ReconcileTo(rt: Runtime, s: Sys, ps: seq<RowId>, ss: seq<RowId>) returns (s': Sys)
    requires Answer(s.rows, "a", Pending, ps) && Answer(s.rows, "a", Settled, ss)
    ensures Enabled(s, Reconcile("a", ps, ss, MERGE, |ps|)) && s' == Next(rt, s, Reconcile("a", ps, ss, MERGE, |ps|))
    ensures s' == s.(rows := Reconciled(rt, s.rows, ps, ss, MERGE, |ps|))
  {
    hide Answer, Reconciled;
    s' := Next(rt, s, Reconcile("a", ps, ss, MERGE, |ps|));
  }

  lemma OneMerged(rt: Runtime, rows: seq<Row>)
    requires Answer(rows, "a", Pending, [1]) && Answer(rows, "a", Settled, [2]) && |rows| == 3
    requires Claims(rt, rows, [1], [2], 1) == map[1 := 2]
    ensures LiveRows(Reconciled(rt, rows, [1], [2], MERGE, 1), "a", Pending) == {}
  {
    hide Claims, Reconciled, Expiries;
    CallConserves(rt, rows, "a", [1], [2], MERGE);
    assert LiveRows(rows, "a", Pending) == {1} by {
      assert forall i: RowId :: i in [1] <==> i == 1;
    }
    assert 1 in Claims(rt, rows, [1], [2], 1).Keys;
  }

  // ----------------------------------------------------- exports gone wrong

  /** Nothing fails, and the clock stands at 1 throughout. */
  const SMOOTH: Fate := Fate(NothingFails, Some("actual"), false, (k: nat) => 1, (k: nat) => 1, 1)

  function ExportStep(ids: seq<RowId>): Step {
    ExportTo(None, ids, [Group("a", ids)], (a: AccountId) => SMOOTH, 1)
  }

  lemma {:induction false} AllOfOneAccount(rows: seq<Row>, ids: seq<RowId>)
    requires InRows(rows, ids) && forall i :: i in ids ==> i < |rows| && rows[i].accountId == "a"
    ensures RowsOf(rows, ids, "a") == ids
  {
    if ids != [] {
      var init := ids[..|ids| - 1];
      assert ids == init + [ids[|ids| - 1]];
      AllOfOneAccount(rows, init);
    }
  }

  lemma OneGroup(rows: seq<Row>, ids: seq<RowId>)
    requires InRows(rows, ids) && |ids| > 0 && forall i :: i in ids ==> i < |rows| && rows[i].accountId == "a"
    ensures Grouped(rows, ids, [Group("a", ids)]) && GroupsInRows(rows, [Group("a", ids)])
  {
    hide RowsOf;
    AllOfOneAccount(rows, ids);
    var groups := [Group("a", ids)];
    assert groups[..|groups| - 1] == [] && Total([]) == 0;
    assert Total(groups) == |ids|;
    forall i | i in ids ensures exists g :: 0 <= g < |groups| && groups[g].accountId == rows[i].accountId {
      assert groups[0].accountId == rows[i].accountId;
    }
  }

  /** An export of one batch in which nothing fails. */
  lemma ExportOf(rt: Runtime, s: Sys, ids: seq<RowId>) returns (s': Sys)
    requires PendingRows(s.rows, None, ids) && |ids| > 0
    requires forall i :: i in ids ==> i < |s.rows| && s.rows[i].accountId == "a"
    ensures Enabled(s, ExportStep(ids)) && s' == Next(rt, s, ExportStep(ids))
    ensures InRows(s.rows, ids) && BatchOf(s.rows, "a", ids) && s' == ExportBatch(s, "a", ids, SMOOTH).0
  {
    hide ExportBatch, RowsOf, Grouped;
    OneGroup(s.rows, ids);
    RowsOfIsBatch(s.rows, None, ids, "a");
    AllOfOneAccount(s.rows, ids);
    s' := Next(rt, s, ExportStep(ids));
    assert ExportAll(s, [Group("a", ids)], (a: AccountId) => SMOOTH, 0).s == s;
  }

  function Lunch(id: string, timestamp: int, description: string): ProviderTx {
    Report(id, Settled, timestamp, None, description)
  }

  /** What the first export makes of a new row. */
  lemma FirstExport(s: Sys)
    requires |s.rows| == 1 && s.links == map[] && s.actual == Actual(map[], 1, []) && InRows(s.rows, [0])
    requires s.rows[0].actualTransactionId == None
    ensures var s' := ExportBatch(s, "a", [0], SMOOTH).0;
            && s'.rows == [s.rows[0].(importStatus := Imported, importedAt := Some(1), updatedAt := 1,
                                      actualTransactionId := Some(ActualTxId(1)))]
            && s'.actual.seen == map[0 := ActualTxId(1)] && s'.actual.nextId == 2 && "a" in s'.links
  {
    hide ActualTxId, ToImport;
    var txs := Payloads(s.rows, "actual", [0]);
    PayloadIds(s.rows, "actual", [0]);
    assert DedupAll(map[], 1, txs, 0) == Dedup(map[], 1, [], []);
    assert DedupAll(map[], 1, txs, 1) == Dedup(map[0 := ActualTxId(1)], 2, [ActualTxId(1)], []);
    assert Marked(s.rows, [0], [ActualTxId(1)], SMOOTH, 0) == s.rows;
  }

  /** One row, ingested and exported. */
  lemma OneExported(rt: Runtime) returns (states: seq<Sys>, steps: seq<Step>)
    ensures Run(rt, states, steps) && |steps| == 2 && |states[2].rows| == 1 && Coherent(states[2])
    ensures states[2].rows[0] ==
            Created(Lunch("1", 0, "LUNCH")).(importStatus := Imported, importedAt := Some(1), updatedAt := 1,
                                              actualTransactionId := Some(ActualTxId(1)))
    ensures states[2].actual.seen == map[0 := ActualTxId(1)] && states[2].actual.nextId == 2
    ensures "a" in states[2].links
  {
    hide Next, Enabled, Created, ActualTxId, ExportBatch, Coherent;
    var lunch := Lunch("1", 0, "LUNCH");
    var s1 := IdsReported(rt, [lunch]);
    CreatedIsNew(lunch);
    assert s1.rows[0] == Created(lunch);
    OneSelected(s1.rows);
    var s2 := ExportOf(rt, s1, [0]);
    steps, states := [IngestAll([lunch]), ExportStep([0])], [EMPTY, s1, s2];
    FirstExport(s1);
    RunIsCoherent(rt, states, steps, 2);
  }

  lemma CreatedIsNew(tx: ProviderTx)
    requires HasId(tx)
    ensures var row := Created(tx);
            && Copies(row, tx) && row.importStatus == NotImported && row.actualTransactionId == None
            && row.providerTransactionId == tx.providerTransactionId && row.description == tx.description
            && row.rawHash == PtidHash("a", tx.providerTransactionId.value)
  {
  }

  lemma OneSelected(rows: seq<Row>)
    requires |rows| == 1 && rows[0].accountId == "a" && Selectable(rows[0])
    ensures PendingRows(rows, None, [0])
  {
  }

  /** The row is corrected by the bank, and the correction is stamped with the very millisecond of its import: the
      export passes the row over although Actual holds the old payload. */
  lemma ChangeIsUnnoticed(rt: Runtime) returns (states: seq<Sys>, steps: seq<Step>)
    ensures Run(rt, states, steps) && |steps| == 3 && |states[3].rows| == 1
    ensures states[3].rows[0].Live() && !Selectable(states[3].rows[0])
    ensures states[3].rows[0].description == "LUNCH, CORRECTED"
    ensures !Coherent(states[3])
  {
    hide Next, Enabled, Created, ActualTxId, HasChanges, Overwritten, ToImport, Mirror, CoherentRow;
    states, steps := OneExported(rt);
    var s, corrected := states[2], Lunch("1", 0, "LUNCH, CORRECTED");
    CreatedIsNew(Lunch("1", 0, "LUNCH"));
    LunchWasCorrected(s.rows[0]);
    var last := Corrected(rt, s, corrected);
    states, steps := states + [last], steps + [Ingest("a", [corrected], (k: nat) => 1, 1)];
    CoherentHere(s, 0);
    assert last.rows == s.rows[0 := Overwritten(s.rows[0], corrected).(updatedAt := 1)];
    UpdateNeedsLaterStamp(s, 0, corrected, 1);
    CoherentHere(last, 0);
  }

  lemma CoherentHere(s: Sys, i: RowId)
    requires i < |s.rows|
    ensures Coherent(s) ==> CoherentRow(s, Mirror(s.actual.batches), i)
  {
    hide CoherentRow, Mirror;
  }

  lemma LunchWasCorrected(row: Row)
    requires row.description == "LUNCH"
    ensures var corrected := Lunch("1", 0, "LUNCH, CORRECTED");
            && HasChanges(row, corrected)
            && Overwritten(row, corrected).description == "LUNCH, CORRECTED"
            && forall link :: ToImport(link, 0, Overwritten(row, corrected)) != ToImport(link, 0, row)
    ensures var after := Overwritten(row, Lunch("1", 0, "LUNCH, CORRECTED"));
            && after.deletedAt == row.deletedAt && after.importStatus == row.importStatus
            && after.importedAt == row.importedAt && after.accountId == row.accountId
            && after.actualTransactionId == row.actualTransactionId && after.timestamp == row.timestamp
  {
    hide IsoDay;
    var corrected := Lunch("1", 0, "LUNCH, CORRECTED");
    assert |corrected.description| != |row.description|;
    forall link ensures ToImport(link, 0, Overwritten(row, corrected)) != ToImport(link, 0, row) {
      assert ToImport(link, 0, Overwritten(row, corrected)).notes != ToImport(link, 0, row).notes;
    }
  }

  lemma Corrected(rt: Runtime, s: Sys, tx: ProviderTx) returns (s': Sys)
    requires HasId(tx) && |s.rows| == 1 && s.rows[0].Live() && HasChanges(s.rows[0], tx)
    requires s.rows[0].accountId == "a" && s.rows[0].providerTransactionId == tx.providerTransactionId
    ensures Enabled(s, Ingest("a", [tx], (k: nat) => 1, 1)) && s' == Next(rt, s, Ingest("a", [tx], (k: nat) => 1, 1))
    ensures s' == s.(rows := [Overwritten(s.rows[0], tx).(updatedAt := 1)])
  {
    hide HasChanges, Overwritten;
    s' := Next(rt, s, Ingest("a", [tx], (k: nat) => 1, 1));
    var b := Normalized(rt, "a", [tx]);
    assert b[0].tx == tx;
    var start := Upsert(s.rows, "a", b, (k: nat) => 1, 0);
    assert Upsert(s.rows, "a", b, (k: nat) => 1, 1) == UpsertOne(start, "a", b[0], 1);
    assert s.rows[0 := Overwritten(s.rows[0], tx).(updatedAt := 1)] == [Overwritten(s.rows[0], tx).(updatedAt := 1)];
  }

  /** A corrected row and a new one are exported together, the corrected one first: it is given the Actual id of the
      new row, and the new row gets none. */
  lemma IdGoesToTheWrongRow(rt: Runtime) returns (states: seq<Sys>, steps: seq<Step>)
    ensures Run(rt, states, steps) && |steps| == 4 && |states[4].rows| == 2
    ensures states[4].actual.seen.Keys == {0, 1} && states[4].actual.seen[0] != states[4].actual.seen[1]
    ensures states[4].rows[0].actualTransactionId == Some(states[4].actual.seen[1])
    ensures states[4].rows[1].actualTransactionId == None
  {
    hide Next, Enabled, Created, ActualTxId, HasChanges, Overwritten, Coherent, ExportBatch;
    states, steps := OneExported(rt);
    var s, batch := states[2], [Lunch("1", 0, "LUNCH, CORRECTED"), Lunch("2", 5, "DINNER")];
    var two := Ingest("a", batch, (k: nat) => 2, 2);
    CreatedIsNew(Lunch("1", 0, "LUNCH"));
    LunchWasCorrected(s.rows[0]);
    RunIsSound(rt, states, steps, 2);
    SoundIsValid(s);
    var s3 := CorrectedAndNew(rt, s, batch);
    CreatedIsNew(batch[1]);
    TwoSelected(s3.rows);
    var s4 := ExportOf(rt, s3, [0, 1]);
    SecondExport(s3);
    states, steps := states + [s3, s4], steps + [two, ExportStep([0, 1])];
    if ActualTxId(1) == ActualTxId(2) {
      ActualTxIdInjective(1, 2);
    }
  }

  lemma TwoSelected(rows: seq<Row>)
    requires |rows| == 2 && rows[0].accountId == rows[1].accountId == "a" && Selectable(rows[0]) && Selectable(rows[1])
    requires rows[0].timestamp <= rows[1].timestamp
    ensures PendingRows(rows, None, [0, 1])
  {
  }

  lemma CorrectedAndNew(rt: Runtime, s: Sys, batch: seq<ProviderTx>) returns (s': Sys)
    requires |batch| == 2 && HasId(batch[0]) && HasId(batch[1]) && batch[1].providerTransactionId != Some("1")
    requires batch[0].providerTransactionId == Some("1") && |s.rows| == 1 && s.rows[0].Live()
    requires s.rows[0].accountId == "a" && s.rows[0].providerTransactionId == Some("1")
    requires HasChanges(s.rows[0], batch[0])
    requires ValidTable(s.rows)
    ensures Enabled(s, Ingest("a", batch, (k: nat) => 2, 2)) && s' == Next(rt, s, Ingest("a", batch, (k: nat) => 2, 2))
    ensures s' == s.(rows := [Overwritten(s.rows[0], batch[0]).(updatedAt := 2),
                              Created(batch[1]).(updatedAt := 2)])
  {
    hide HasChanges, Overwritten, NewRow, ValidTable, WellIdentifiedBatch, ClashesWithAny, FingerprintKey;
    var stamp: nat -> int := (k: nat) => 2;
    var b := Normalized(rt, "a", batch);
    s' := Next(rt, s, Ingest("a", batch, stamp, 2));
    NormalizedIsIdentified(rt, "a", batch);
    UpsertNeverViolates(s.rows, "a", b, stamp, 2);
    var p := Upsert(s.rows, "a", b, stamp, 1);
    assert p == UpsertOne(Upsert(s.rows, "a", b, stamp, 0), "a", b[0], 2);
    assert p.rows == [Overwritten(s.rows[0], batch[0]).(updatedAt := 2)];
    KeepsItsId(s.rows[0], batch[0]);
    assert Upsert(s.rows, "a", b, stamp, 2) == UpsertOne(p, "a", b[1], 2);
    NewAtTwo(b[1]);
  }

  lemma KeepsItsId(row: Row, tx: ProviderTx)
    ensures Overwritten(row, tx).providerTransactionId == row.providerTransactionId
  {
  }

  lemma NewAtTwo(ntx: NormalizedTx)
    ensures HasId(ntx.tx) && ntx.rawHash == PtidHash("a", ntx.tx.providerTransactionId.value) ==>
              NewRow("a", ntx, 2) == Created(ntx.tx).(updatedAt := 2)
  {
  }

  /** The second export deals out the new id from the front of the batch. */
  lemma SecondExport(s: Sys)
    requires |s.rows| == 2 && "a" in s.links && s.actual.seen == map[0 := ActualTxId(1)] && s.actual.nextId == 2
    requires InRows(s.rows, [0, 1]) && s.rows[1].actualTransactionId == None
    ensures var s' := ExportBatch(s, "a", [0, 1], SMOOTH).0;
            && |s'.rows| == 2
            && s'.rows[0].actualTransactionId == Some(ActualTxId(2)) && s'.rows[1].actualTransactionId == None
            && s'.actual.seen == map[0 := ActualTxId(1), 1 := ActualTxId(2)]
  {
    hide ActualTxId, ToImport;
    var link, seen := s.links["a"], map[0 := ActualTxId(1)];
    var txs := Payloads(s.rows, link, [0, 1]);
    PayloadIds(s.rows, link, [0, 1]);
    assert DedupAll(seen, 2, txs, 0) == Dedup(seen, 2, [], []);
    assert DedupAll(seen, 2, txs, 1) == Dedup(seen, 2, [], [ActualTxId(1)]);
    assert DedupAll(seen, 2, txs, 2) ==
           Dedup(seen[1 := ActualTxId(2)], 3, [ActualTxId(2)], [ActualTxId(1)]);
    assert Marked(s.rows, [0, 1], [ActualTxId(2)], SMOOTH, 0) == s.rows;
    assert Marked(s.rows, [0, 1], [ActualTxId(2)], SMOOTH, 1) ==
           s.rows[0 := MarkedRow(s.rows[0], Some(ActualTxId(2)), 1, 1)];
  }
}
