/** Nothing is missed: the fetch windows (services/sync/sync-engine.ts), the identities of a response
    (services/sync/normalize.ts) and the upsert together, over whole runs of the protocol. */
module Completeness {
  import opened Calendar
  import opened Domain
  import opened Export
  import opened Liveness
  import opened Normalize
  import opened Numbering
  import opened Origins
  import opened Protocol
  import opened Reconciler
  import opened SetFacts
  import opened Store
  import opened StoreRefinement
  import opened SyncWindow

  /** A settled transaction at the bank, and when the provider starts to report it. */
  datatype BankTx = BankTx(tx: ProviderTx, visibleAt: int)

  /** The provider owes transaction `k` to attempt `i`: it lies in the window and is visible by its end. */
  ghost predicate Due(c: Config, h: seq<Attempt>, bank: seq<BankTx>, i: nat, k: int) {
    i < |h| && 0 <= k < |bank| && InWindow(c, h, i, bank[k].tx.timestamp) && bank[k].visibleAt <= h[i].to
  }

  /** The batch holds every transaction due, each at a place of its own; what else it holds is open. */
  ghost predicate Holding(c: Config, h: seq<Attempt>, bank: seq<BankTx>, i: nat, batch: seq<ProviderTx>,
                          place: map<nat, nat>) {
    && Injective(place)
    && forall k: nat :: Due(c, h, bank, i, k) ==> k in place && place[k] < |batch| && batch[place[k]] == bank[k].tx
  }

  /** The syncs of one account as part of a run: each successful attempt `i` ingested at step `at[i]`, to the
      end, what an honest provider reported. Everything else in the run is open. */
  datatype Syncs = Syncs(account: AccountId, c: Config, h: seq<Attempt>, at: seq<nat>, bank: seq<BankTx>)

  ghost predicate Delivered(steps: seq<Step>, y: Syncs, i: nat) {
    && i < |y.h| == |y.at| && y.at[i] < |steps| && steps[y.at[i]].Ingest?
    && steps[y.at[i]].account == y.account && steps[y.at[i]].done == |steps[y.at[i]].batch|
    && exists place :: Holding(y.c, y.h, y.bank, i, steps[y.at[i]].batch, place)
  }

  ghost predicate AllDelivered(steps: seq<Step>, y: Syncs) {
    && |y.h| == |y.at|
    && (forall i: nat :: i < |y.h| && y.h[i].ok ==> Delivered(steps, y, i))
    && (forall i, j :: 0 <= i < j < |y.h| && y.h[i].ok && y.h[j].ok ==> y.at[i] < y.at[j])
  }

  /** The transaction shows up at most `latency` after its timestamp. */
  predicate Prompt(b: BankTx, latency: int) {
    b.tx.timestamp <= b.visibleAt <= b.tx.timestamp + latency
  }

  // ------------------------------------------------- with a provider id

  /** The identity of the k-th transaction of a completed ingest is stored from then on. */
  lemma {:induction false} StoredFromThenOn(rt: Runtime, states: seq<Sys>, steps: seq<Step>, s: nat, n: nat, k: nat)
    requires Run(rt, states, steps) && s < n <= |steps| && steps[s].Ingest? && k < |steps[s].batch|
    requires steps[s].done == |steps[s].batch|
    ensures Stored(states[n].rows, steps[s].account, StableHash(rt, steps[s].account, steps[s].batch, k))
  {
    hide Next, Sound, StableHash, Enabled, Stored;
    var account, b := steps[s].account, Normalized(rt, steps[s].account, steps[s].batch);
    var hash := StableHash(rt, account, steps[s].batch, k);
    RunIsSound(rt, states, steps, n - 1);
    StoredAfterStep(rt, states[n - 1], steps[n - 1], account, hash);
    if s + 1 < n {
      StoredFromThenOn(rt, states, steps, s, n - 1, k);
    } else {
      assert b[k].rawHash == hash;
    }
  }

  /** The row that holds the identity of an id is the row of that id. */
  lemma IdRow(rows: seq<Row>, account: AccountId, id: string) returns (r: RowId)
    requires ValidTable(rows) && Stored(rows, account, PtidHash(account, id))
    ensures Holds(rows, account, PtidHash(account, id), r) && rows[r].providerTransactionId == Some(id)
  {
    r :| Holds(rows, account, PtidHash(account, id), r);
    FormsAreDisjoint(account, id);
    if rows[r].providerTransactionId.Some? {
      PtidHashInjective(account, id, rows[r].providerTransactionId.value);
    }
  }

  /** A row keeps its place and its identity. */
  lemma RowStays(rt: Runtime, states: seq<Sys>, steps: seq<Step>, m: nat, n: nat, account: AccountId, h: string,
                 r: RowId)
    requires Run(rt, states, steps) && m <= n <= |steps| && Holds(states[m].rows, account, h, r)
    ensures Holds(states[n].rows, account, h, r)
    ensures states[n].rows[r].providerTransactionId == states[m].rows[r].providerTransactionId
  {
    hide Next, Enabled;
    HistoryIsSafe(rt, states, steps, m, n);
    assert Keeps(states[m].rows[r], states[n].rows[r]);
  }

  /** A transaction with a provider id that is visible at most `latency` after its timestamp has a row from the
      first successful sync on that starts the fetch once it is visible, for good. After that sync, and later as long
      as it was left settled and is not reported as pending, the row is live exactly when the id was not soft-deleted
      before the sync. */
  lemma IdsAreNeverMissed(rt: Runtime, states: seq<Sys>, steps: seq<Step>, y: Syncs, latency: int, delay: int,
                          i: nat, k: nat, n: nat) returns (r: RowId)
    requires latency + delay <= y.c.overlap + 1 && History(y.h, delay)
    requires Run(rt, states, steps) && Delivered(steps, y, i) && y.at[i] < n <= |steps|
    requires k < |y.bank| && Prompt(y.bank[k], latency) && HasId(y.bank[k].tx)
    requires FirstChance(y.h, i, y.bank[k].visibleAt) && RecentEnough(y.c, y.h, i, y.bank[k].tx.timestamp)
    ensures r < |states[n].rows| && states[n].rows[r].accountId == y.account
    ensures states[n].rows[r].providerTransactionId == y.bank[k].tx.providerTransactionId
    ensures states[n].rows[r].Live() || states[n].rows[r].status == Pending
    ensures var h := PtidHash(y.account, y.bank[k].tx.providerTransactionId.value);
            n == y.at[i] + 1 || SettledSince(rt, states, steps, y.at[i] + 1, n, y.account, h) ==>
              (states[n].rows[r].Live() <==> !DeadIdentity(states[y.at[i]].rows, y.account, h))
    ensures var h := PtidHash(y.account, y.bank[k].tx.providerTransactionId.value);
            NoPendingReport(rt, steps, 0, n, y.account, h) ==> states[n].rows[r].Live()
  {
    hide Next, ValidTable, Holding, InWindow, Enabled, Stored, SettledSince, DeadIdentity, PtidHash, NoPendingReport;
    var s := y.at[i];
    var h := PtidHash(y.account, y.bank[k].tx.providerTransactionId.value);
    var place :| Holding(y.c, y.h, y.bank, i, steps[s].batch, place);
    InFirstWindow(y.c, latency, delay, y.h, i, y.bank[k].tx.timestamp, y.bank[k].visibleAt);
    PlaceOf(y, i, steps[s].batch, place, k);
    StoredFromThenOn(rt, states, steps, s, s + 1, place[k]);
    RunIsSound(rt, states, steps, s + 1);
    RunIsSound(rt, states, steps, n);
    r := IdRow(states[s + 1].rows, y.account, y.bank[k].tx.providerTransactionId.value);
    RowStays(rt, states, steps, s + 1, n, y.account, h, r);
    if n == s + 1 || SettledSince(rt, states, steps, s + 1, n, y.account, h) {
      LiveExactlyWhen(rt, states, steps, s, n, y.account, h, r);
    }
    if NoPendingReport(rt, steps, 0, n, y.account, h) {
      NeverPendingNeverDead(rt, states, steps, n, y.account, h);
      DeadExactlyWhenItsRowIs(rt, states, steps, n, y.account, h, r);
    }
  }

  lemma PlaceOf(y: Syncs, i: nat, batch: seq<ProviderTx>, place: map<nat, nat>, k: nat)
    requires Holding(y.c, y.h, y.bank, i, batch, place) && Due(y.c, y.h, y.bank, i, k)
    ensures k in place && place[k] < |batch| && batch[place[k]] == y.bank[k].tx
  {
  }

  // ---------------------------------------------- without a provider id

  predicate LooksLike(rt: Runtime, account: AccountId, bank: seq<BankTx>, key: string, upTo: int, k: int) {
    0 <= k < |bank| && bank[k].visibleAt <= upTo && !HasId(bank[k].tx) && FingerprintKey(rt, account, bank[k].tx) == key
  }

  /** The transactions of one fingerprint visible by an instant. */
  ghost function Lookalikes(rt: Runtime, account: AccountId, bank: seq<BankTx>, key: string, upTo: int): set<nat> {
    set k: nat | k < |bank| && LooksLike(rt, account, bank, key, upTo, k)
  }

  /** The first window reaches back to the start of the transaction's day. */
  ghost predicate DayRecentEnough(y: Syncs, b: BankTx) {
    forall i: nat :: i < |y.h| && LastOk(y.h, i).None? ==> y.h[i].startedAt - y.c.initial <= b.tx.bookedDate
  }

  /** What is asked of the bank: transactions as the boundary yields them, prompt, and not too old. */
  ghost predicate GoodBank(y: Syncs, latency: int) {
    forall k :: 0 <= k < |y.bank| ==>
      FromBoundary(y.bank[k].tx) && Prompt(y.bank[k], latency) && DayRecentEnough(y, y.bank[k])
  }

  /** If all look-alikes visible by the end of an attempt are due, its batch holds that many of them. */
  lemma BatchHoldsAll(rt: Runtime, y: Syncs, i: nat, batch: seq<ProviderTx>, place: map<nat, nat>, key: string,
                      upTo: int)
    requires Holding(y.c, y.h, y.bank, i, batch, place)
    requires forall k :: k in Lookalikes(rt, y.account, y.bank, key, upTo) ==> Due(y.c, y.h, y.bank, i, k)
    ensures |Lookalikes(rt, y.account, y.bank, key, upTo)| <= KeyCount(ByFingerprint(rt, y.account), batch, key)
  {
    hide FingerprintKey, Due, HasId;
    var v := Lookalikes(rt, y.account, y.bank, key, upTo);
    var m := map k | k in v && k in place :: place[k];
    assert m.Keys == v;
    InjectiveOnto(m, Carriers(ByFingerprint(rt, y.account), batch, key));
  }

  /** One look-alike that the last successful sync could not see pulls the whole day into the window. */
  lemma WholeDayIsDue(rt: Runtime, y: Syncs, latency: int, delay: int, i: nat, key: string, news: nat, k: nat)
    requires latency + delay + DAY_MS <= y.c.overlap + 2 && History(y.h, delay) && GoodBank(y, latency)
    requires i < |y.h|
    requires LooksLike(rt, y.account, y.bank, key, y.h[i].to, news)
    requires LooksLike(rt, y.account, y.bank, key, y.h[i].to, k)
    requires LastOk(y.h, i).Some? ==> y.h[LastOk(y.h, i).value].to < y.bank[news].visibleAt
    ensures Due(y.c, y.h, y.bank, i, k)
  {
    hide FingerprintKey, YEAR_0, YEAR_10000;
    SameFingerprintSameDay(rt, y.account, y.bank[news].tx, y.bank[k].tx);
    assert DayRecentEnough(y, y.bank[k]);
    match LastOk(y.h, i) {
      case None =>
      case Some(j) => assert y.h[j].cursor <= y.h[j].to + delay;
    }
  }

  /** Some successful sync so far reported, in one batch, as many look-alikes as are visible by now. */
  lemma {:induction false} SomeBatchHoldsAll(rt: Runtime, steps: seq<Step>, y: Syncs, latency: int, delay: int, i: nat,
                                             key: string) returns (j: nat)
    requires latency + delay + DAY_MS <= y.c.overlap + 2 && History(y.h, delay) && GoodBank(y, latency)
    requires AllDelivered(steps, y) && i < |y.h| && y.h[i].ok
    ensures j <= i && y.h[j].ok
    ensures |Lookalikes(rt, y.account, y.bank, key, y.h[i].to)| <=
            KeyCount(ByFingerprint(rt, y.account), steps[y.at[j]].batch, key)
  {
    hide LooksLike, GoodBank, Due, Holding, KeyCount, History;
    var now := Lookalikes(rt, y.account, y.bank, key, y.h[i].to);
    var last := LastOk(y.h, i);
    if last.Some? && now == Lookalikes(rt, y.account, y.bank, key, y.h[last.value].to) {
      j := SomeBatchHoldsAll(rt, steps, y, latency, delay, last.value, key);
    } else {
      j := i;
      var place :| Holding(y.c, y.h, y.bank, i, steps[y.at[i]].batch, place);
      forall k | k in now ensures Due(y.c, y.h, y.bank, i, k) {
        var news := NewsOf(rt, y, delay, i, key, k);
        WholeDayIsDue(rt, y, latency, delay, i, key, news, k);
      }
      BatchHoldsAll(rt, y, i, steps[y.at[i]].batch, place, key, y.h[i].to);
    }
  }

  /** A look-alike that the last successful sync could not see. */
  lemma NewsOf(rt: Runtime, y: Syncs, delay: int, i: nat, key: string, k: nat) returns (news: nat)
    requires History(y.h, delay) && i < |y.h| && k in Lookalikes(rt, y.account, y.bank, key, y.h[i].to)
    requires LastOk(y.h, i).Some? ==>
               Lookalikes(rt, y.account, y.bank, key, y.h[i].to) !=
               Lookalikes(rt, y.account, y.bank, key, y.h[LastOk(y.h, i).value].to)
    ensures LooksLike(rt, y.account, y.bank, key, y.h[i].to, news)
    ensures LastOk(y.h, i).Some? ==> y.h[LastOk(y.h, i).value].to < y.bank[news].visibleAt
  {
    hide FingerprintKey, HasId;
    match LastOk(y.h, i) {
      case None => news := k;
      case Some(j) =>
        var now := Lookalikes(rt, y.account, y.bank, key, y.h[i].to);
        var before := Lookalikes(rt, y.account, y.bank, key, y.h[j].to);
        assert y.h[j].to <= y.h[i].to;
        assert before <= now;
        news :| news in now && news !in before;
    }
  }

  /** Row `i` bears one of the first `bound` numbers of the fingerprint. */
  ghost predicate Numbered(rows: seq<Row>, account: AccountId, key: string, bound: nat, i: int) {
    exists o: nat :: o < bound && Holds(rows, account, FingerprintHash(key, o), i)
  }

  /** Every one of the transactions has a row of the fingerprint to itself. */
  ghost predicate OwnRows(rows: seq<Row>, account: AccountId, key: string, txs: set<nat>, own: map<nat, RowId>) {
    && own.Keys == txs && Injective(own)
    && forall k :: k in own ==> Numbered(rows, account, key, |txs|, own[k])
  }

  /** Number `o` is borne by the row of `k`. */
  ghost predicate BorneBy(rows: seq<Row>, account: AccountId, key: string, o: nat, own: map<nat, RowId>, k: nat) {
    k in own && Holds(rows, account, FingerprintHash(key, o), own[k])
  }

  /** Each of the first `bound` numbers of the fingerprint is borne by one of the rows. */
  ghost predicate AllBorne(rows: seq<Row>, account: AccountId, key: string, bound: nat, own: map<nat, RowId>) {
    forall o: nat :: o < bound ==> Borne(rows, account, key, o, own)
  }

  ghost predicate Borne(rows: seq<Row>, account: AccountId, key: string, o: nat, own: map<nat, RowId>) {
    exists k :: BorneBy(rows, account, key, o, own, k)
  }

  lemma {:induction false} HandOutRows(rows: seq<Row>, account: AccountId, key: string, txs: set<nat>)
    returns (own: map<nat, RowId>)
    requires forall o: nat :: o < |txs| ==> Stored(rows, account, FingerprintHash(key, o))
    ensures OwnRows(rows, account, key, txs, own) && AllBorne(rows, account, key, |txs|, own)
    decreases |txs|
  {
    hide FingerprintHash, OwnRows, AllBorne, Holds;
    own := map[];
    if x :| x in txs {
      var o := |txs| - 1;
      var rest := HandOutRows(rows, account, key, txs - {x});
      assert |txs - {x}| == o;
      assert Stored(rows, account, FingerprintHash(key, o));
      var r: int :| Holds(rows, account, FingerprintHash(key, o), r);
      HoldsPlace(rows, account, FingerprintHash(key, o), r);
      own := rest[x := r];
      OwnOneMore(rows, account, key, txs, rest, x, r);
      OwnKeys(rows, account, key, txs - {x}, rest);
      AllBorneByOneMore(rows, account, key, o, rest, x, r);
    } else {
      assert txs == {};
      NobodyOwns(rows, account, key);
    }
  }

  lemma HoldsPlace(rows: seq<Row>, account: AccountId, h: string, r: int)
    requires Holds(rows, account, h, r)
    ensures 0 <= r < |rows|
  {
  }

  lemma NobodyOwns(rows: seq<Row>, account: AccountId, key: string)
    ensures OwnRows(rows, account, key, {}, map[]) && AllBorne(rows, account, key, 0, map[])
  {
  }

  lemma OwnKeys(rows: seq<Row>, account: AccountId, key: string, txs: set<nat>, own: map<nat, RowId>)
    requires OwnRows(rows, account, key, txs, own)
    ensures own.Keys == txs
  {
  }

  lemma OwnOneMore(rows: seq<Row>, account: AccountId, key: string, txs: set<nat>, rest: map<nat, RowId>, x: nat,
                   r: RowId)
    requires x in txs && OwnRows(rows, account, key, txs - {x}, rest)
    requires Holds(rows, account, FingerprintHash(key, |txs| - 1), r)
    ensures OwnRows(rows, account, key, txs, rest[x := r])
  {
    hide FingerprintHash, Holds;
    var o, own := |txs| - 1, rest[x := r];
    assert own.Keys == txs;
    forall k | k in own ensures Numbered(rows, account, key, |txs|, own[k]) {
      if k == x {
        assert Holds(rows, account, FingerprintHash(key, o), own[k]);
      }
    }
    forall k | k in rest ensures rest[k] != r {
      var o': nat :| o' < |txs - {x}| && Holds(rows, account, FingerprintHash(key, o'), rest[k]);
      OneHash(rows, account, FingerprintHash(key, o), FingerprintHash(key, o'), r);
      FingerprintHashInjective(key, o, key, o');
    }
  }

  lemma OneHash(rows: seq<Row>, account: AccountId, h: string, h': string, r: int)
    ensures Holds(rows, account, h, r) && Holds(rows, account, h', r) ==> h == h'
  {
  }

  lemma AllBorneByOneMore(rows: seq<Row>, account: AccountId, key: string, bound: nat, own: map<nat, RowId>, x: nat,
                          r: RowId)
    requires AllBorne(rows, account, key, bound, own) && x !in own
    requires Holds(rows, account, FingerprintHash(key, bound), r)
    ensures AllBorne(rows, account, key, bound + 1, own[x := r])
  {
    hide FingerprintHash, Holds;
    var after := own[x := r];
    forall o: nat | o < bound + 1 ensures Borne(rows, account, key, o, after) {
      if o < bound {
        assert Borne(rows, account, key, o, own);
        var k :| BorneBy(rows, account, key, o, own, k);
        assert BorneBy(rows, account, key, o, after, k);
      } else {
        assert BorneBy(rows, account, key, o, after, x);
      }
    }
  }

  ghost predicate AllLive(rows: seq<Row>, own: map<nat, RowId>) {
    forall k :: k in own ==> own[k] < |rows| && rows[own[k]].Live()
  }

  /** None of the first `bound` numbers of the fingerprint belongs to a soft-deleted row. */
  ghost predicate NoneDead(rows: seq<Row>, account: AccountId, key: string, bound: nat) {
    forall o: nat :: o < bound ==> !DeadIdentity(rows, account, FingerprintHash(key, o))
  }

  /** The numbers are settled if live after step `s` and not reported as pending since. */
  ghost predicate NumbersSettledSince(rt: Runtime, states: seq<Sys>, steps: seq<Step>, s: nat, n: nat,
                                      account: AccountId, key: string, bound: nat)
  {
    forall o: nat :: o < bound ==> SettledSince(rt, states, steps, s, n, account, FingerprintHash(key, o))
  }

  /** From the end of a successful sync on, every look-alike visible by then has a row to itself, for good. After that
      sync, and later as long as their numbers were left settled and are not reported as pending, all these rows are
      live exactly when none of their numbers was soft-deleted before the sync. */
  lemma LookalikesAreNeverMissed(rt: Runtime, states: seq<Sys>, steps: seq<Step>, y: Syncs, latency: int, delay: int,
                                 i: nat, tx: ProviderTx, n: nat) returns (own: map<nat, RowId>)
    requires Collates(rt) && latency + delay + DAY_MS <= y.c.overlap + 2 && History(y.h, delay) && GoodBank(y, latency)
    requires Run(rt, states, steps) && AllDelivered(steps, y)
    requires i < |y.h| && y.h[i].ok && y.at[i] < n <= |steps|
    ensures var key := FingerprintKey(rt, y.account, tx);
            OwnRows(states[n].rows, y.account, key, Lookalikes(rt, y.account, y.bank, key, y.h[i].to), own)
    ensures var key := FingerprintKey(rt, y.account, tx);
            var count := |Lookalikes(rt, y.account, y.bank, key, y.h[i].to)|;
            n == y.at[i] + 1 || NumbersSettledSince(rt, states, steps, y.at[i] + 1, n, y.account, key, count) ==>
              (AllLive(states[n].rows, own) <==> NoneDead(states[y.at[i]].rows, y.account, key, count))
  {
    hide Next, Enabled, FingerprintKey, FingerprintHash, GoodBank, HighWater, KeyCount, Lookalikes, Stored, OwnRows,
      History, AllBorne, AllLive, NoneDead, SettledSince, NumbersSettledSince;
    var s, key := y.at[i], FingerprintKey(rt, y.account, tx);
    var txs := Lookalikes(rt, y.account, y.bank, key, y.h[i].to);
    forall o: nat | o < |txs|
      ensures Stored(states[s + 1].rows, y.account, FingerprintHash(key, o))
      ensures Stored(states[n].rows, y.account, FingerprintHash(key, o))
    {
      NumberIsStored(rt, states, steps, y, latency, delay, i, tx, o, s + 1);
      NumberIsStored(rt, states, steps, y, latency, delay, i, tx, o, n);
    }
    own := HandOutRows(states[n].rows, y.account, key, txs);
    if n == s + 1 || NumbersSettledSince(rt, states, steps, s + 1, n, y.account, key, |txs|) {
      OwnRowsLiveExactlyWhen(rt, states, steps, s, n, y.account, key, txs, own);
    }
  }

  lemma NumberIsStored(rt: Runtime, states: seq<Sys>, steps: seq<Step>, y: Syncs, latency: int, delay: int, i: nat,
                       tx: ProviderTx, o: nat, n: nat)
    requires Collates(rt) && latency + delay + DAY_MS <= y.c.overlap + 2 && History(y.h, delay) && GoodBank(y, latency)
    requires Run(rt, states, steps) && AllDelivered(steps, y)
    requires i < |y.h| && y.h[i].ok && y.at[i] < n <= |steps|
    requires var key := FingerprintKey(rt, y.account, tx);
             o < |Lookalikes(rt, y.account, y.bank, key, y.h[i].to)|
    ensures Stored(states[n].rows, y.account, FingerprintHash(FingerprintKey(rt, y.account, tx), o))
  {
    hide Next, Enabled, FingerprintKey, FingerprintHash, GoodBank, HighWater, KeyCount, Lookalikes, Stored, History;
    var key := FingerprintKey(rt, y.account, tx);
    var j := SomeBatchHoldsAll(rt, steps, y, latency, delay, i, key);
    assert Delivered(steps, y, j) && y.at[j] < n;
    assert ReportsTogether(rt, steps, y.at[j], y.account, key, o, true);
    HighWaterExceeds(rt, steps, n, y.account, key, true, o);
    HighWaterMark(rt, states, steps, n, y.account, tx, o);
  }

  lemma OwnRowsLiveExactlyWhen(rt: Runtime, states: seq<Sys>, steps: seq<Step>, s: nat, n: nat, account: AccountId,
                               key: string, txs: set<nat>, own: map<nat, RowId>)
    requires Run(rt, states, steps) && s < n <= |steps| && steps[s].Ingest?
    requires forall o: nat :: o < |txs| ==> Stored(states[s + 1].rows, account, FingerprintHash(key, o))
    requires OwnRows(states[n].rows, account, key, txs, own) && AllBorne(states[n].rows, account, key, |txs|, own)
    requires n == s + 1 || NumbersSettledSince(rt, states, steps, s + 1, n, account, key, |txs|)
    ensures AllLive(states[n].rows, own) <==> NoneDead(states[s].rows, account, key, |txs|)
  {
    hide Next, Enabled, FingerprintHash, SettledSince, DeadIdentity, Holds, Stored;
    forall o: nat, k | o < |txs| && BorneBy(states[n].rows, account, key, o, own, k)
      ensures own[k] < |states[n].rows|
      ensures states[n].rows[own[k]].Live() <==> !DeadIdentity(states[s].rows, account, FingerprintHash(key, o))
    {
      BorneRowIsLive(rt, states, steps, s, n, account, FingerprintHash(key, o), own[k]);
    }
    if NoneDead(states[s].rows, account, key, |txs|) {
      forall k | k in own ensures own[k] < |states[n].rows| && states[n].rows[own[k]].Live() {
        assert Numbered(states[n].rows, account, key, |txs|, own[k]);
        var o: nat :| o < |txs| && Holds(states[n].rows, account, FingerprintHash(key, o), own[k]);
        assert BorneBy(states[n].rows, account, key, o, own, k);
      }
    }
    if AllLive(states[n].rows, own) {
      forall o: nat | o < |txs| ensures !DeadIdentity(states[s].rows, account, FingerprintHash(key, o)) {
        assert Borne(states[n].rows, account, key, o, own);
        var k :| BorneBy(states[n].rows, account, key, o, own, k);
      }
    }
  }

  lemma BorneRowIsLive(rt: Runtime, states: seq<Sys>, steps: seq<Step>, s: nat, n: nat, account: AccountId, h: string,
                       r: RowId)
    requires Run(rt, states, steps) && s < n <= |steps| && steps[s].Ingest?
    requires Stored(states[s + 1].rows, account, h) && Holds(states[n].rows, account, h, r)
    requires n == s + 1 || SettledSince(rt, states, steps, s + 1, n, account, h)
    ensures r < |states[n].rows| && (states[n].rows[r].Live() <==> !DeadIdentity(states[s].rows, account, h))
  {
    hide Next, Enabled, SettledSince, DeadIdentity;
    var r0: RowId :| Holds(states[s + 1].rows, account, h, r0);
    LiveExactlyWhen(rt, states, steps, s, n, account, h, r0);
    StoredOnce(rt, states, steps, n, account, h, r0, r);
  }

  // -------------------------------------------------- the bound is exact

  /** A run with the syncs of one account in it, the `i`-th of which succeeded before state `n`. */
  ghost predicate Setting(rt: Runtime, states: seq<Sys>, steps: seq<Step>, y: Syncs, latency: int, delay: int,
                          i: nat, n: nat) {
    && Run(rt, states, steps) && AllDelivered(steps, y) && History(y.h, delay) && GoodBank(y, latency)
    && i < |y.h| && y.h[i].ok && y.at[i] < n <= |steps|
  }

  /** The look-alikes of `tx` visible at attempt `i` have rows of their own. */
  ghost predicate Covered(rt: Runtime, states: seq<Sys>, y: Syncs, i: nat, tx: ProviderTx, n: nat) {
    var key := FingerprintKey(rt, y.account, tx);
    n < |states| && i < |y.h| &&
    exists own :: OwnRows(states[n].rows, y.account, key, Lookalikes(rt, y.account, y.bank, key, y.h[i].to), own)
  }

  /** ... and these rows are live. */
  ghost predicate LiveCovered(rt: Runtime, states: seq<Sys>, y: Syncs, i: nat, tx: ProviderTx, n: nat) {
    var key := FingerprintKey(rt, y.account, tx);
    n < |states| && i < |y.h| &&
    exists own ::
      && OwnRows(states[n].rows, y.account, key, Lookalikes(rt, y.account, y.bank, key, y.h[i].to), own)
      && AllLive(states[n].rows, own)
  }

  /** Step `j` ingested report `k`, a look-alike of the fingerprint. */
  ghost predicate LookalikeReport(rt: Runtime, steps: seq<Step>, j: int, k: int, account: AccountId, key: string) {
    && IsReport(steps, j, k) && k < steps[j].done && steps[j].account == account
    && !HasId(steps[j].batch[k]) && FingerprintKey(rt, account, steps[j].batch[k]) == key
  }

  /** Among the first `n` steps none reports a pending look-alike. */
  ghost predicate NoPendingLookalike(rt: Runtime, steps: seq<Step>, n: nat, account: AccountId, key: string) {
    n <= |steps| &&
    forall j, k :: j < n && LookalikeReport(rt, steps, j, k, account, key) ==> steps[j].batch[k].status == Settled
  }

  /** In every run, a successful sync leaves a row for each transaction without an id that is visible by then. */
  ghost predicate RowForEach(rt: Runtime, c: Config, latency: int, delay: int) {
    forall states: seq<Sys>, steps, y: Syncs, i: nat, tx, n: nat |
      y.c == c && Setting(rt, states, steps, y, latency, delay, i, n) ::
      Covered(rt, states, y, i, tx, n)
  }

  /** In every run, a successful sync leaves a live row for each transaction without an id that is visible by then,
      unless a pending look-alike was reported. */
  ghost predicate NeverMissed(rt: Runtime, c: Config, latency: int, delay: int) {
    forall states: seq<Sys>, steps, y: Syncs, i: nat, tx, n: nat |
      && y.c == c && Setting(rt, states, steps, y, latency, delay, i, n)
      && NoPendingLookalike(rt, steps, n, y.account, FingerprintKey(rt, y.account, tx)) ::
      LiveCovered(rt, states, y, i, tx, n)
  }

  lemma NoPendingNumber(rt: Runtime, steps: seq<Step>, n: nat, account: AccountId, tx: ProviderTx, o: nat)
    requires NoPendingLookalike(rt, steps, n, account, FingerprintKey(rt, account, tx))
    ensures NoPendingReport(rt, steps, 0, n, account, FingerprintHash(FingerprintKey(rt, account, tx), o))
  {
    hide FingerprintKey, FingerprintHash, StableHash, Occurrence;
    var key := FingerprintKey(rt, account, tx);
    forall j, k: nat |
      0 <= j < n && steps[j].Ingest? && steps[j].account == account && k < steps[j].done && k < |steps[j].batch| &&
      StableHash(rt, account, steps[j].batch, k) == FingerprintHash(key, o)
      ensures steps[j].batch[k].status == Settled
    {
      HashNamesOccurrence(rt, account, steps[j].batch, k, tx, o);
      InCarriers(rt, account, steps[j].batch, k, tx);
      assert LookalikeReport(rt, steps, j, k, account, key);
    }
  }

  function Coffee(timestamp: int): ProviderTx {
    ProviderTx(None, Settled, timestamp, 0, -300, "GBP", "COFFEE", None, None, None, None)
  }

  /** Two equal coffees on one day, the second of which shows up just after a sync took place. */
  function TwoCoffees(c: Config, latency: int, delay: int): Syncs {
    var v := DAY_MS - 1 + latency;
    var t := if delay == 0 then v else v - 1 + delay;
    Syncs("a", c,
          [Attempt(Min(v - 1, c.initial), v - 1, true, v - 1 + delay), Attempt(t, t, true, t)], [0, 1],
          [BankTx(Coffee(0), 0), BankTx(Coffee(DAY_MS - 1), v)])
  }

  lemma TwoCoffeesAreGood(c: Config, latency: int, delay: int)
    requires latency >= 0 && delay >= 0
    ensures var y := TwoCoffees(c, latency, delay); History(y.h, delay) && GoodBank(y, latency)
  {
    var y := TwoCoffees(c, latency, delay);
    assert forall k :: 0 <= k < 2 ==> FromBoundary(y.bank[k].tx) && Prompt(y.bank[k], latency);
    assert LastOk(y.h, 1) == Some(0);
  }

  /** The windows of the two syncs: the second no longer holds the first coffee. */
  lemma TwoCoffeesAreDueOnce(c: Config, latency: int, delay: int, k: nat)
    requires latency >= 0 && delay >= 0 && latency + delay + DAY_MS > c.overlap + 2
    ensures var y := TwoCoffees(c, latency, delay);
            && (Due(y.c, y.h, y.bank, 0, k) <==> k == 0)
            && (Due(y.c, y.h, y.bank, 1, k) ==> k == 1)
  {
    var y := TwoCoffees(c, latency, delay);
    assert LastOk(y.h, 1) == Some(0) && LastOk(y.h, 0) == None;
  }

  lemma OneCoffeeAtATime(rt: Runtime, key: string, batch: seq<ProviderTx>)
    requires |batch| <= 1
    ensures KeyCount(ByFingerprint(rt, "a"), batch, key) <= 1
  {
    SubsetCard(Carriers(ByFingerprint(rt, "a"), batch, key), {0});
  }

  /** Two numbers for two transactions, but only number 0 was ever handed out. */
  lemma NotTwoRows(rt: Runtime, states: seq<Sys>, steps: seq<Step>, n: nat, account: AccountId, tx: ProviderTx,
                   own: map<nat, RowId>)
    requires Collates(rt) && Run(rt, states, steps) && n <= |steps|
    requires forall i :: 0 <= i < |steps| ==> steps[i].Ingest? && |steps[i].batch| <= 1
    requires account == "a"
    ensures !OwnRows(states[n].rows, account, FingerprintKey(rt, account, tx), {0, 1}, own)
  {
    hide Next, Enabled, FingerprintKey, FingerprintHash, Stored, HighWater, KeyCount;
    var rows, key := states[n].rows, FingerprintKey(rt, account, tx);
    if OwnRows(rows, account, key, {0, 1}, own) {
      assert Numbered(rows, account, key, 2, own[0]) && Numbered(rows, account, key, 2, own[1]);
      var o0: nat :| o0 < 2 && Holds(rows, account, FingerprintHash(key, o0), own[0]);
      var o1: nat :| o1 < 2 && Holds(rows, account, FingerprintHash(key, o1), own[1]);
      OnlyNumberZero(rt, states, steps, n, account, tx, o0, own[0]);
      OnlyNumberZero(rt, states, steps, n, account, tx, o1, own[1]);
      StoredOnce(rt, states, steps, n, account, FingerprintHash(key, 0), own[0], own[1]);
    }
  }

  lemma OnlyNumberZero(rt: Runtime, states: seq<Sys>, steps: seq<Step>, n: nat, account: AccountId, tx: ProviderTx,
                       o: nat, i: RowId)
    requires Collates(rt) && Run(rt, states, steps) && n <= |steps| && account == "a"
    requires forall i :: 0 <= i < |steps| ==> steps[i].Ingest? && |steps[i].batch| <= 1
    requires Holds(states[n].rows, account, FingerprintHash(FingerprintKey(rt, account, tx), o), i)
    ensures o == 0
  {
    hide Next, Enabled, FingerprintKey, FingerprintHash, HighWater, KeyCount;
    var key := FingerprintKey(rt, account, tx);
    HighWaterMark(rt, states, steps, n, account, tx, o);
    HighWaterExceeds(rt, steps, n, account, key, false, o);
    var s :| s < n && ReportsTogether(rt, steps, s, account, key, o, false);
    OneCoffeeAtATime(rt, key, steps[s].batch);
  }

  /** The batch of attempt `i` holds nothing else than what was due. */
  ghost predicate OnlyDue(steps: seq<Step>, y: Syncs, i: nat) {
    && i < |y.at| && y.at[i] < |steps| && steps[y.at[i]].Ingest?
    && forall x :: x in steps[y.at[i]].batch ==> exists k: nat :: Due(y.c, y.h, y.bank, i, k) && y.bank[k].tx == x
  }

  /** Beyond the bound the second coffee is lost: the window cuts its day in two, it is reported alone, gets number
      0 again and falls together with the first. */
  lemma SecondCoffeeIsLost(rt: Runtime, c: Config, latency: int, delay: int)
    returns (states: seq<Sys>, steps: seq<Step>, y: Syncs)
    requires Collates(rt) && latency >= 0 && delay >= 0 && latency + delay + DAY_MS > c.overlap + 2
    ensures y.c == c && Setting(rt, states, steps, y, latency, delay, 1, 2)
    ensures forall i: nat :: i < |y.h| ==> OnlyDue(steps, y, i)
    ensures NoPendingLookalike(rt, steps, 2, y.account, FingerprintKey(rt, y.account, Coffee(0)))
    ensures !Covered(rt, states, y, 1, Coffee(0), 2)
  {
    hide Next, FingerprintKey, GoodBank, History, OwnRows;
    y := TwoCoffees(c, latency, delay);
    TwoCoffeesAreGood(c, latency, delay);
    forall k: nat { TwoCoffeesAreDueOnce(c, latency, delay, k); }
    var second := if Due(y.c, y.h, y.bank, 1, 1) then [Coffee(DAY_MS - 1)] else [];
    steps := [IngestAll([Coffee(0)]), IngestAll(second)];
    var s1 := Next(rt, EMPTY, steps[0]);
    states := [EMPTY, s1, Next(rt, s1, steps[1])];
    assert Holding(y.c, y.h, y.bank, 0, [Coffee(0)], map[0 := 0]);
    assert Holding(y.c, y.h, y.bank, 1, second, map[1 := 0]);
    assert Delivered(steps, y, 0) && Delivered(steps, y, 1);
    var key := FingerprintKey(rt, "a", Coffee(0));
    CoffeesLookAlike(rt, c, latency, delay);
    forall own ensures !OwnRows(states[2].rows, "a", key, {0, 1}, own) {
      NotTwoRows(rt, states, steps, 2, "a", Coffee(0), own);
    }
  }

  lemma CoffeesLookAlike(rt: Runtime, c: Config, latency: int, delay: int)
    requires latency >= 0 && delay >= 0
    ensures var y := TwoCoffees(c, latency, delay);
            Lookalikes(rt, "a", y.bank, FingerprintKey(rt, "a", Coffee(0)), y.h[1].to) == {0, 1}
  {
    hide FingerprintKey, Coffee;
    var y := TwoCoffees(c, latency, delay);
    var key := FingerprintKey(rt, "a", Coffee(0));
    TimeIsNotInTheKey(rt, "a", 0, DAY_MS - 1);
    forall k: nat ensures LooksLike(rt, "a", y.bank, key, y.h[1].to, k) <==> k < 2 {
    }
  }

  lemma TimeIsNotInTheKey(rt: Runtime, account: AccountId, s: int, t: int)
    ensures FingerprintKey(rt, account, Coffee(s)) == FingerprintKey(rt, account, Coffee(t))
    ensures !HasId(Coffee(s)) && !HasId(Coffee(t))
  {
  }

  /** Exactly when every transaction without an id gets a row, and exactly when it gets a live one unless a pending
      look-alike is reported: the overlap must reach back over visibility latency, the delay from sampling `to` to
      writing the cursor, and one whole day. */
  lemma NeverMissedExactlyWhen(rt: Runtime, c: Config, latency: int, delay: int)
    requires Collates(rt) && latency >= 0 && delay >= 0
    ensures RowForEach(rt, c, latency, delay) <==> latency + delay + DAY_MS <= c.overlap + 2
    ensures NeverMissed(rt, c, latency, delay) <==> latency + delay + DAY_MS <= c.overlap + 2
  {
    hide Setting, Covered, LiveCovered, NoPendingLookalike, FingerprintKey;
    if latency + delay + DAY_MS <= c.overlap + 2 {
      forall states: seq<Sys>, steps, y: Syncs, i: nat, tx, n: nat |
        y.c == c && Setting(rt, states, steps, y, latency, delay, i, n)
        ensures Covered(rt, states, y, i, tx, n)
        ensures NoPendingLookalike(rt, steps, n, y.account, FingerprintKey(rt, y.account, tx)) ==>
                  LiveCovered(rt, states, y, i, tx, n)
      {
        SettingIsCovered(rt, states, steps, y, latency, delay, i, tx, n);
      }
    } else {
      var states, steps, y := SecondCoffeeIsLost(rt, c, latency, delay);
      LiveIsCovered(rt, states, y, 1, Coffee(0), 2);
    }
  }

  lemma LiveIsCovered(rt: Runtime, states: seq<Sys>, y: Syncs, i: nat, tx: ProviderTx, n: nat)
    ensures LiveCovered(rt, states, y, i, tx, n) ==> Covered(rt, states, y, i, tx, n)
  {
    hide FingerprintKey, OwnRows, Lookalikes, AllLive;
  }

  lemma SettingIsCovered(rt: Runtime, states: seq<Sys>, steps: seq<Step>, y: Syncs, latency: int, delay: int, i: nat,
                         tx: ProviderTx, n: nat)
    requires Collates(rt) && latency + delay + DAY_MS <= y.c.overlap + 2
    requires Setting(rt, states, steps, y, latency, delay, i, n)
    ensures Covered(rt, states, y, i, tx, n)
    ensures NoPendingLookalike(rt, steps, n, y.account, FingerprintKey(rt, y.account, tx)) ==>
              LiveCovered(rt, states, y, i, tx, n)
  {
    hide Next, Enabled, FingerprintKey, OwnRows, Lookalikes, GoodBank, History, AllDelivered, NoPendingLookalike,
      NoneDead, NumbersSettledSince;
    var own := LookalikesAreNeverMissed(rt, states, steps, y, latency, delay, i, tx, n);
    var key := FingerprintKey(rt, y.account, tx);
    var txs := Lookalikes(rt, y.account, y.bank, key, y.h[i].to);
    if NoPendingLookalike(rt, steps, n, y.account, key) {
      OwnRowsAreLive(rt, states, steps, n, y.account, tx, txs, own);
    }
  }

  /** Rows of a fingerprint never reported as pending are live. */
  lemma OwnRowsAreLive(rt: Runtime, states: seq<Sys>, steps: seq<Step>, n: nat, account: AccountId, tx: ProviderTx,
                       txs: set<nat>, own: map<nat, RowId>)
    requires Run(rt, states, steps) && n <= |steps|
    requires NoPendingLookalike(rt, steps, n, account, FingerprintKey(rt, account, tx))
    requires OwnRows(states[n].rows, account, FingerprintKey(rt, account, tx), txs, own)
    ensures AllLive(states[n].rows, own)
  {
    hide Next, Enabled, FingerprintKey, FingerprintHash, NoPendingLookalike, NoPendingReport, DeadIdentity;
    var key := FingerprintKey(rt, account, tx);
    forall k | k in own ensures own[k] < |states[n].rows| && states[n].rows[own[k]].Live() {
      assert Numbered(states[n].rows, account, key, |txs|, own[k]);
      var o: nat :| o < |txs| && Holds(states[n].rows, account, FingerprintHash(key, o), own[k]);
      NoPendingNumber(rt, steps, n, account, tx, o);
      NeverPendingNeverDead(rt, states, steps, n, account, FingerprintHash(key, o));
      DeadExactlyWhenItsRowIs(rt, states, steps, n, account, FingerprintHash(key, o), own[k]);
    }
  }
}
