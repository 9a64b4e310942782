/** One synchronisation run of a connection (services/sync/sync-engine.ts). */
module SyncEngine {
  import opened Convergence
  import opened Domain
  import opened Export
  import opened Gateway
  import opened Normalize
  import opened Pairing
  import opened Reconciler
  import opened Store
  import opened StoreRefinement
  import opened SyncWindow

  // ----------------------------------------------------------------- errors

  datatype ErrorType = AuthorizationExpired | RateLimit | ProviderUnavailable | InvalidResponse | NetworkError | Unknown

  /** What a call can throw; a database failure is one of the other errors. */
  datatype Thrown = ReauthRequired | RequestFailed(httpStatus: int) | TypeErrorThrown | OtherError

  function ClassifyError(e: Thrown): ErrorType {
    match e
    case ReauthRequired => AuthorizationExpired
    case RequestFailed(status) =>
      if status == 429 then RateLimit else if status >= 500 then ProviderUnavailable else InvalidResponse
    case TypeErrorThrown => NetworkError
    case OtherError => Unknown
  }

  datatype AccountResult = Synced(counts: Counts) | Raised(error: Thrown)

  // ------------------------------------------------------------ one account

  /** What fetching a token and the balance comes to. */
  datatype BalanceReply = BalanceIs(reading: BalanceReading) | BalanceThrows(balanceError: Thrown)

  /** What the two transaction calls of one account come to. */
  datatype Reply = Reply(settled: seq<ProviderTx>, pending: seq<ProviderTx>) | ProviderThrows(error: Thrown)

  /** The clock readings of one attempt; `stamp` gives those of the upsert's writes. */
  datatype Readings = Readings(observedAt: int, startedAt: int, to: int, stamp: nat -> int, cursor: int)

  /** The database failures of one attempt: the write of the balance, the upsert after some transactions, the
      reconciliation after some pendings, the write of the cursor. */
  datatype Breaks = Breaks(atBalance: bool, upsertAt: Option<nat>, reconcileAt: Option<nat>, atCursor: bool)

  /** The choices of the outside world for one attempt. `provider(from, to)` sees the window it is asked for. */
  datatype Outside = Outside(balance: BalanceReply, provider: (int, int) -> Reply, t: Readings, o: Options,
                             breaks: Breaks)

  function SeenPendingIds(pending: seq<ProviderTx>): set<string> {
    set i: nat | i < |pending| && pending[i].providerTransactionId.Some? :: pending[i].providerTransactionId.value
  }

  /** The tables a sync writes. */
  datatype Tables = Tables(rows: seq<Row>, balances: seq<BalanceRow>, cursors: map<AccountId, int>)

  function TablesOf(db: Database): Tables
    reads db
  {
    Tables(db.transactions, db.balances, db.cursors)
  }

  /** One account, from the tables `a` to the tables `b`: the balance is appended, the window of the cursor asked
      for, the response ingested and the pendings reconciled; the cursor moves only at the end of all that, and
      what was written before an exception stays. */
  ghost predicate AccountSync(rt: Runtime, account: AccountId, c: Config, cursor: Option<int>, w: Outside,
                              a: Tables, b: Tables, result: AccountResult)
  {
    match w.balance
    case BalanceThrows(e) => b == a && result == Raised(e)
    case BalanceIs(reading) =>
      if w.breaks.atBalance then b == a && result == Raised(OtherError)
      else
        && b.balances == a.balances + [BalanceRow(account, reading, w.t.observedAt)]
        && match w.provider(WindowStart(c, cursor, w.t.startedAt), w.t.to)
           case ProviderThrows(e) => b.rows == a.rows && b.cursors == a.cursors && result == Raised(e)
           case Reply(settled, pending) => Ingested(rt, account, w, settled, pending, a, b, result)
  }

  ghost predicate Ingested(rt: Runtime, account: AccountId, w: Outside, settled: seq<ProviderTx>,
                           pending: seq<ProviderTx>, a: Tables, b: Tables, result: AccountResult)
  {
    var batch := Normalized(rt, account, settled + pending);
    var p := Upsert(a.rows, account, batch, w.t.stamp, Reached(w.breaks.upsertAt, |batch|));
    var o := w.o.(seenPendingIds := SeenPendingIds(pending));
    if p.failed || w.breaks.upsertAt.Some? then
      b.rows == p.rows && b.cursors == a.cursors && result == Raised(OtherError)
    else
      && (exists ps, ss :: IsCallUpTo(rt, account, o, w.breaks.reconcileAt, p.rows, b.rows, ps, ss))
      && if w.breaks.reconcileAt.Some? || w.breaks.atCursor
         then b.cursors == a.cursors && result == Raised(OtherError)
         else b.cursors == a.cursors[account := w.t.cursor] && result == Synced(p.counts)
  }

  /** A reconciliation, cut short after `breaksAt` pendings. */
  ghost predicate IsCallUpTo(rt: Runtime, account: AccountId, o: Options, breaksAt: Option<nat>, before: seq<Row>,
                             after: seq<Row>, ps: seq<RowId>, ss: seq<RowId>)
  {
    && Answer(before, account, Pending, ps) && Answer(before, account, Settled, ss)
    && after == Reconciled(rt, before, ps, ss, o, Reached(breaksAt, |ps|))
  }

  /** `cursor` is the one read with the list of accounts, at the start of the run. */
  method SyncOneAccount(rt: Runtime, db: Database, account: AccountId, c: Config, cursor: Option<int>, w: Outside)
    returns (result: AccountResult)
    requires Collates(rt)
    modifies db`transactions, db`balances, db`cursors
    ensures AccountSync(rt, account, c, cursor, w, old(TablesOf(db)), TablesOf(db), result)
  {
    hide Upsert, Normalized, Reconciled, Answer, Collates;
    match w.balance {
      case BalanceThrows(e) => return Raised(e);
      case BalanceIs(reading) =>
        if w.breaks.atBalance {
          return Raised(OtherError);
        }
        db.balances := db.balances + [BalanceRow(account, reading, w.t.observedAt)];
    }
    match w.provider(WindowStart(c, cursor, w.t.startedAt), w.t.to) {
      case ProviderThrows(e) => return Raised(e);
      case Reply(settled, pending) =>
        var batch := NormalizeBatch(rt, account, settled + pending);
        var counts := UpsertTransactions(db, account, batch, w.t.stamp, w.breaks.upsertAt);
        if counts == None {
          return Raised(OtherError);
        }
        var o := w.o.(seenPendingIds := SeenPendingIds(pending));
        var before := db.transactions;
        var merges, ps, ss := ReconcilePending(rt, db, account, o, w.breaks.reconcileAt);
        assert IsCallUpTo(rt, account, o, w.breaks.reconcileAt, before, db.transactions, ps, ss);
        if merges == None || w.breaks.atCursor {
          return Raised(OtherError);
        }
        db.cursors := db.cursors[account := w.t.cursor];
        return Synced(counts.value);
    }
  }

  /** A pending that the provider still reports, and that nothing settled matches, survives the sync, however old it
      is: the reconciliation leaves it as the ingest did. */
  lemma ReportedPendingSurvives(rt: Runtime, account: AccountId, c: Config, cursor: Option<int>, w: Outside, a: Tables,
                                b: Tables, result: AccountResult, settled: seq<ProviderTx>, pending: seq<ProviderTx>,
                                p: RowId, j: nat)
    requires AccountSync(rt, account, c, cursor, w, a, b, result)
    requires w.balance.BalanceIs? && !w.breaks.atBalance
    requires w.provider(WindowStart(c, cursor, w.t.startedAt), w.t.to) == Reply(settled, pending)
    requires var batch := Normalized(rt, account, settled + pending);
             var stored := Upsert(a.rows, account, batch, w.t.stamp, Reached(w.breaks.upsertAt, |batch|)).rows;
             && p < |stored| && stored[p].accountId == account
             && stored[p].status == Pending && stored[p].deletedAt == None
             && j < |pending| && pending[j].providerTransactionId.Some?
             && stored[p].providerTransactionId == pending[j].providerTransactionId
             && NothingMatches(rt, stored, account, p)
    ensures var batch := Normalized(rt, account, settled + pending);
            var stored := Upsert(a.rows, account, batch, w.t.stamp, Reached(w.breaks.upsertAt, |batch|)).rows;
            p < |b.rows| && b.rows[p] == stored[p] && b.rows[p].deletedAt == None
  {
    hide Upsert, Normalized, Reconciled, ByTimestamp, NothingMatches, Removed, Claims, Expiries;
    var batch := Normalized(rt, account, settled + pending);
    var q := Upsert(a.rows, account, batch, w.t.stamp, Reached(w.breaks.upsertAt, |batch|));
    if !q.failed && w.breaks.upsertAt.None? {
      var o := w.o.(seenPendingIds := SeenPendingIds(pending));
      var ps, ss :| IsCallUpTo(rt, account, o, w.breaks.reconcileAt, q.rows, b.rows, ps, ss);
      ReportedIsKept(rt, q.rows, account, ps, ss, o, Reached(w.breaks.reconcileAt, |ps|), p);
    }
  }

  lemma ReportedIsKept(rt: Runtime, rows: seq<Row>, account: AccountId, ps: seq<RowId>, ss: seq<RowId>, o: Options,
                       n: nat, p: RowId)
    requires Answer(rows, account, Pending, ps) && Answer(rows, account, Settled, ss) && n <= |ps| && p < |rows|
    requires rows[p].providerTransactionId.Some? && rows[p].providerTransactionId.value in o.seenPendingIds
    requires NothingMatches(rt, rows, account, p)
    ensures Reconciled(rt, rows, ps, ss, o, n)[p] == rows[p]
  {
    hide Claims, Expiries, Reconciled, ByTimestamp, Matches, NothingMatches;
    RowsAfter(rt, rows, ps, ss, o, n, p);
    UnmatchedIsNotClaimed(rt, rows, account, ps, ss, n, p);
    if p in ps[..n] {
      var k :| 0 <= k < n && ps[..n][k] == p;
      WhoExpires(rt, rows, ps, ss, o, n, k);
    }
  }

  /** The cursor moves exactly when nothing failed on the way: the balance and the response came, and the four writes
      went through. Otherwise it stays, so that the next sync asks for the same window again. */
  lemma CursorMovesExactlyWhenNothingFails(rt: Runtime, account: AccountId, c: Config, cursor: Option<int>, w: Outside,
                                           a: Tables, b: Tables, result: AccountResult)
    requires AccountSync(rt, account, c, cursor, w, a, b, result) && ValidTable(a.rows)
    requires var reply := w.provider(WindowStart(c, cursor, w.t.startedAt), w.t.to);
             reply.Reply? ==> NoEmptyIds(reply.settled + reply.pending)
    ensures result.Synced? <==>
            && w.balance.BalanceIs? && w.provider(WindowStart(c, cursor, w.t.startedAt), w.t.to).Reply?
            && w.breaks == Breaks(false, None, None, false)
    ensures b.cursors == if result.Synced? then a.cursors[account := w.t.cursor] else a.cursors
    ensures b.rows != a.rows ==> |b.balances| == |a.balances| + 1
  {
    hide Upsert, Normalized, Reconciled, ByTimestamp, ValidTable;
    if w.balance.BalanceIs? && !w.breaks.atBalance {
      match w.provider(WindowStart(c, cursor, w.t.startedAt), w.t.to) {
        case ProviderThrows(_) =>
        case Reply(settled, pending) =>
          var batch := Normalized(rt, account, settled + pending);
          NormalizedIsIdentified(rt, account, settled + pending);
          UpsertNeverViolates(a.rows, account, batch, w.t.stamp, Reached(w.breaks.upsertAt, |batch|));
      }
    }
  }

  // --------------------------------------------------------- repeating a sync

  /** The same settings at the same moment. */
  predicate SameMoment(a: Options, b: Options) {
    && a.now(0) == b.now(0) && a.pendingExpiryDays == b.pendingExpiryDays && a.seenPendingIds == b.seenPendingIds
  }

  lemma DeletionKeepsQuiet(before: seq<Row>, after: seq<Row>, account: AccountId, ntx: NormalizedTx)
    requires ValidTable(before) && ValidTable(after) && |after| == |before| && WellIdentified(account, ntx)
    requires forall i :: 0 <= i < |before| ==>
               after[i].accountId == before[i].accountId && after[i].rawHash == before[i].rawHash
    requires forall i :: 0 <= i < |before| ==> after[i] == before[i] || !after[i].Live()
    requires Quiet(before, account, ntx)
    ensures Quiet(after, account, ntx)
  {
    hide HasChanges, Find, ValidTable;
    LookupIsByIdentity(before, account, ntx);
    LookupIsByIdentity(after, account, ntx);
    var i :| Holds(before, account, ntx.rawHash, i);
    assert Holds(after, account, ntx.rawHash, i);
  }

  lemma CallDeletesOnly(rt: Runtime, account: AccountId, o: Options, before: seq<Row>, after: seq<Row>)
    requires IsCall(rt, account, o, before, after) && ValidTable(before)
    ensures ValidTable(after) && |after| == |before|
    ensures forall i :: 0 <= i < |before| ==>
              after[i].accountId == before[i].accountId && after[i].rawHash == before[i].rawHash
    ensures forall i :: 0 <= i < |before| ==> after[i] == before[i] || !after[i].Live()
  {
    hide Reconciled, Removed, ByTimestamp, ValidTable;
    var ps, ss :| IsCallWith(rt, account, o, before, after, ps, ss);
    ReconcileStep(rt, before, account, ps, ss, o, |ps|);
    SameKeysSameValidity(before, after);
    forall i: RowId | i < |before| ensures after[i] == before[i] || !after[i].Live() {
      RowsAfter(rt, before, ps, ss, o, |ps|, i);
    }
  }

  /** A sync and its repetition: the response is ingested into `rows`, reconciled, ingested again, reconciled again. */
  ghost predicate IsRepeatedSync(rt: Runtime, account: AccountId, rows: seq<Row>, response: seq<ProviderTx>,
                                 s1: nat -> int, s2: nat -> int, o1: Options, o2: Options,
                                 once: seq<Row>, twice: seq<Row>, ps: seq<RowId>, ss: seq<RowId>)
  {
    var b := Normalized(rt, account, response);
    && IsCallWith(rt, account, o1, Upsert(rows, account, b, s1, |b|).rows, once, ps, ss)
    && IsCall(rt, account, o2, Upsert(once, account, b, s2, |b|).rows, twice)
  }

  /** What the second of two syncs with one response at the same moment does: it reports nothing inserted or updated
      and ingests nothing, and it changes nothing exactly when the first call left no doomed pending. */
  lemma RepeatIngestsNothing(rt: Runtime, account: AccountId, rows: seq<Row>, response: seq<ProviderTx>,
                             s1: nat -> int, s2: nat -> int, o1: Options, o2: Options,
                             once: seq<Row>, twice: seq<Row>, ps: seq<RowId>, ss: seq<RowId>)
    requires ValidTable(rows) && NoEmptyIds(response)
    requires Midnights(Normalized(rt, account, response))
    requires Consistent(rows, account, Normalized(rt, account, response))
    requires FixedClock(o1) && FixedClock(o2) && SameMoment(o1, o2)
    requires IsRepeatedSync(rt, account, rows, response, s1, s2, o1, o2, once, twice, ps, ss)
    ensures var b := Normalized(rt, account, response);
            var again := Upsert(once, account, b, s2, |b|);
            !again.failed && again.counts.inserted == 0 && again.counts.updated == 0 && again.rows == once
    ensures twice == once <==> Doomed(rt, once, account, o1) == {}
  {
    hide Upsert, Normalized, ValidTable, Consistent, Midnights, IsCall, FixedClock, Doomed, IsCallWith;
    var b := Normalized(rt, account, response);
    var stored := Upsert(rows, account, b, s1, |b|).rows;
    NormalizedIsIdentified(rt, account, response);
    UpsertNeverViolates(rows, account, b, s1, |b|);
    RepeatWritesNothing(rows, account, b, s1, s2);
    UpsertNeverViolates(stored, account, b, s2, |b|);
    QuietPass(stored, account, b, s2, |b|);
    AnsweredIsCall(rt, account, o1, stored, once, ps, ss);
    CallDeletesOnly(rt, account, o1, stored, once);
    forall k | 0 <= k < |b| ensures Quiet(once, account, b[k]) {
      DeletionKeepsQuiet(stored, once, account, b[k]);
    }
    QuietPass(once, account, b, s2, |b|);
    SameMomentSameFate(rt, once, account, o1, o2);
    QuietExactlyWhenNothingIsDoomed(rt, account, o2, once, twice);
  }

  lemma AnsweredIsCall(rt: Runtime, account: AccountId, o: Options, before: seq<Row>, after: seq<Row>,
                       ps: seq<RowId>, ss: seq<RowId>)
    requires IsCallWith(rt, account, o, before, after, ps, ss)
    ensures IsCall(rt, account, o, before, after)
  {
    hide IsCallWith;
  }

  /** Repeating a sync with an unchanged response at the same moment changes nothing exactly when, in the table
      after the first ingest, every pending that has a twin and is not expirable adds to what can be merged; the
      response must not contradict itself on a live identity, names be comparable and dates rise. */
  lemma RepeatedSyncIsNoOp(rt: Runtime, account: AccountId, rows: seq<Row>, response: seq<ProviderTx>,
                           s1: nat -> int, s2: nat -> int, o1: Options, o2: Options,
                           once: seq<Row>, twice: seq<Row>, ps: seq<RowId>, ss: seq<RowId>)
    requires ValidTable(rows) && NoEmptyIds(response)
    requires Midnights(Normalized(rt, account, response))
    requires Consistent(rows, account, Normalized(rt, account, response))
    requires FixedClock(o1) && FixedClock(o2) && SameMoment(o1, o2)
    requires IsRepeatedSync(rt, account, rows, response, s1, s2, o1, o2, once, twice, ps, ss)
    requires var b := Normalized(rt, account, response);
             var stored := Upsert(rows, account, b, s1, |b|).rows;
             Comparable(stored, account) && Rising(stored, account)
    ensures var b := Normalized(rt, account, response);
            var stored := Upsert(rows, account, b, s1, |b|).rows;
            twice == once <==> AllCanGo(rt, stored, ps, ss, account, o1)
  {
    hide Upsert, Normalized, ValidTable, Consistent, Midnights, IsCall, FixedClock, Doomed, IsCallWith, Comparable,
      Rising, AllCanGo;
    var b := Normalized(rt, account, response);
    RepeatIngestsNothing(rt, account, rows, response, s1, s2, o1, o2, once, twice, ps, ss);
    OneCallSettlesExactlyWhen(rt, account, o1, Upsert(rows, account, b, s1, |b|).rows, once, ps, ss);
  }

  /** For arbitrary names and dates: nothing changes when each live settled row has at most one suitor among the
      live pendings. */
  lemma RepeatedSyncWithoutRivalsIsNoOp(rt: Runtime, account: AccountId, rows: seq<Row>, response: seq<ProviderTx>,
                                        s1: nat -> int, s2: nat -> int, o1: Options, o2: Options,
                                        once: seq<Row>, twice: seq<Row>, ps: seq<RowId>, ss: seq<RowId>)
    requires ValidTable(rows) && NoEmptyIds(response)
    requires Midnights(Normalized(rt, account, response))
    requires Consistent(rows, account, Normalized(rt, account, response))
    requires FixedClock(o1) && FixedClock(o2) && SameMoment(o1, o2)
    requires IsRepeatedSync(rt, account, rows, response, s1, s2, o1, o2, once, twice, ps, ss)
    requires var b := Normalized(rt, account, response);
             OneSuitor(rt, Upsert(rows, account, b, s1, |b|).rows, account)
    ensures twice == once
  {
    hide Upsert, Normalized, ValidTable, Consistent, Midnights, IsCall, OneSuitor, FixedClock, Doomed, IsCallWith;
    var b := Normalized(rt, account, response);
    var stored := Upsert(rows, account, b, s1, |b|).rows;
    RepeatIngestsNothing(rt, account, rows, response, s1, s2, o1, o2, once, twice, ps, ss);
    AnsweredIsCall(rt, account, o1, stored, once, ps, ss);
    OneCallIsEnough(rt, account, o1, stored, once);
  }

  lemma SameMomentSameFate(rt: Runtime, rows: seq<Row>, account: AccountId, a: Options, b: Options)
    requires SameMoment(a, b)
    ensures Doomed(rt, rows, account, a) == Doomed(rt, rows, account, b)
  {
    hide HasTwin;
  }

  /** Distinct provider ids are enough for the response not to contradict itself. */
  lemma DistinctProviderIdsAreConsistent(rt: Runtime, account: AccountId, rows: seq<Row>, response: seq<ProviderTx>)
    requires Collates(rt)
    requires forall i, j :: 0 <= i < j < |response| && HasId(response[i]) ==>
               response[i].providerTransactionId != response[j].providerTransactionId
    ensures Consistent(rows, account, Normalized(rt, account, response))
  {
    hide StableHash;
    var b := Normalized(rt, account, response);
    forall i, j | 0 <= i < j < |b| ensures b[i].rawHash != b[j].rawHash {
      IdentitiesCollideOnlyOnEqualIds(rt, account, response, i, j);
    }
    DistinctIdsAreConsistent(rows, account, b);
  }

  /** A provider id reported in both lists ends up pending: the pending list is ingested last, so a settled
      row can fall back. */
  lemma PendingReportWins(rt: Runtime, account: AccountId, rows: seq<Row>, settled: seq<ProviderTx>,
                          pending: seq<ProviderTx>, stamp: nat -> int, j: nat, k: nat) returns (i: RowId)
    requires ValidTable(rows) && NoEmptyIds(settled + pending)
    requires forall n :: 0 <= n < |pending| ==> pending[n].status == Pending
    requires j < |settled| && k < |pending| && HasId(settled[j])
    requires settled[j].providerTransactionId == pending[k].providerTransactionId
    requires !DeadIdentity(rows, account, PtidHash(account, settled[j].providerTransactionId.value))
    ensures var batch := settled + pending;
            var after := Upsert(rows, account, Normalized(rt, account, batch), stamp, |batch|).rows;
            && i < |after| && after[i].accountId == account && after[i].Live() && after[i].status == Pending
            && after[i].providerTransactionId == settled[j].providerTransactionId
  {
    hide Upsert, ValidTable, Normalized, StableHash, EntryOf, ContentOf, WellIdentifiedBatch, DeadIdentity, Identified;
    var batch := settled + pending;
    var b := Normalized(rt, account, batch);
    var h := PtidHash(account, settled[j].providerTransactionId.value);
    NormalizedIsIdentified(rt, account, batch);
    HashOfId(rt, account, batch, j);
    HashOfId(rt, account, batch, |settled| + k);
    i := AfterPass(rows, account, b, stamp, j);
    LastIsAtLeast(b, |b|, h, |settled| + k);
    var last := Last(b, |b|, h).value;
    SameContentSameStatus(Upsert(rows, account, b, stamp, |b|).rows[i], b[last].tx);
    assert b[last].tx == pending[last - |settled|] by { HashOfId(rt, account, batch, last); }
    SameHashSameId(account, Upsert(rows, account, b, stamp, |b|).rows, b, i, j);
  }

  lemma HashOfId(rt: Runtime, account: AccountId, batch: seq<ProviderTx>, k: nat)
    requires k < |batch|
    ensures Normalized(rt, account, batch)[k].tx == batch[k]
    ensures HasId(batch[k]) ==>
              Normalized(rt, account, batch)[k].rawHash == PtidHash(account, batch[k].providerTransactionId.value)
  {
  }

  lemma SameContentSameStatus(row: Row, tx: ProviderTx)
    requires EntryOf(row).content == ContentOf(tx)
    ensures row.status == tx.status
  {
  }

  lemma SameHashSameId(account: AccountId, rows: seq<Row>, b: seq<NormalizedTx>, i: RowId, j: nat)
    requires ValidTable(rows) && WellIdentifiedBatch(account, b) && j < |b| && Holds(rows, account, b[j].rawHash, i)
    ensures rows[i].providerTransactionId == b[j].tx.providerTransactionId
  {
    hide Identified;
    IdentityIsTheHash(account, rows[i], b[j]);
  }

  lemma {:induction false} LastIsAtLeast(batch: seq<NormalizedTx>, n: nat, h: string, k: nat)
    requires k < n <= |batch| && batch[k].rawHash == h
    ensures Last(batch, n, h).Some? && Last(batch, n, h).value >= k
  {
    if k < n - 1 {
      LastIsAtLeast(batch, n - 1, h, k);
    }
  }

  // ---------------------------------------------------------------- one run

  datatype RunStatus = Success | Partial | RunFailed

  /** The exporter to Actual, if one is configured, with the choices of the outside world for its export. */
  datatype Exporter = NoExporter | Exporter(fate: AccountId -> Fate, openFails: bool, closeFails: bool)

  datatype RunRecord = RunRecord(status: RunStatus, accountsProcessed: nat, totals: Counts,
                                 errors: seq<(nat, ErrorType)>, reauthRequired: bool, actualError: bool)

  predicate EndsRun(r: AccountResult) { r.Raised? && ClassifyError(r.error) == AuthorizationExpired }

  function Add(a: Counts, b: Counts): Counts {
    Counts(a.received + b.received, a.inserted + b.inserted, a.updated + b.updated, a.skipped + b.skipped)
  }

  function Totals(results: seq<AccountResult>, n: nat): Counts
    requires n <= |results|
  {
    if n == 0 then Counts(0, 0, 0, 0)
    else match results[n - 1]
         case Synced(counts) => Add(Totals(results, n - 1), counts)
         case Raised(_) => Totals(results, n - 1)
  }

  function Successes(results: seq<AccountResult>, n: nat): nat
    requires n <= |results|
  {
    if n == 0 then 0 else Successes(results, n - 1) + if results[n - 1].Synced? then 1 else 0
  }

  function Errors(results: seq<AccountResult>, n: nat): (e: seq<(nat, ErrorType)>)
    requires n <= |results|
    ensures |e| + Successes(results, n) == n
  {
    if n == 0 then []
    else match results[n - 1]
         case Synced(_) => Errors(results, n - 1)
         case Raised(x) => Errors(results, n - 1) + [(n - 1, ClassifyError(x))]
  }

  function CursorOf(cursors: map<AccountId, int>, account: AccountId): Option<int> {
    if account in cursors then Some(cursors[account]) else None
  }

  /** The accounts of a run worked through one after the other, as far as `results` go: `trace` has the tables
      before the run and after each account. The cursors are those read at the start. */
  ghost predicate IsSyncTrace(rt: Runtime, accounts: seq<AccountId>, c: Config, world: nat -> Outside,
                          trace: seq<Tables>, results: seq<AccountResult>)
  {
    && |results| <= |accounts| && |trace| == |results| + 1
    && (forall i: nat :: i < |results| ==> SyncTurn(rt, accounts, c, world, trace, results, i))
  }

  ghost predicate SyncTurn(rt: Runtime, accounts: seq<AccountId>, c: Config, world: nat -> Outside,
                       trace: seq<Tables>, results: seq<AccountResult>, i: nat)
    requires |results| <= |accounts| && |trace| == |results| + 1 && i < |results|
  {
    AccountSync(rt, accounts[i], c, CursorOf(trace[0].cursors, accounts[i]), world(i), trace[i], trace[i + 1],
                results[i])
  }

  /** The run ends after the last account or after the first that needs reauthorisation. */
  predicate EndsRight(accounts: seq<AccountId>, results: seq<AccountResult>) {
    && |results| <= |accounts|
    && (forall i :: 0 <= i < |results| - 1 ==> !EndsRun(results[i]))
    && (|results| < |accounts| ==> results != [] && EndsRun(results[|results| - 1]))
  }

  /** What the run reports of the accounts. */
  predicate Reports(run: RunRecord, results: seq<AccountResult>) {
    && run.totals == Totals(results, |results|)
    && run.accountsProcessed == Successes(results, |results|)
    && run.errors == Errors(results, |results|)
    && (run.reauthRequired <==> results != [] && EndsRun(results[|results| - 1]))
    && (run.status == Success <==> forall i :: 0 <= i < |results| ==> results[i].Synced?)
    && (run.status == RunFailed <==> run.accountsProcessed == 0 && |run.errors| > 0)
  }

  /** The export at the end of the run: only when an account was synced, over all accounts of the run. */
  ghost predicate ExportAtEnd(accounts: seq<AccountId>, x: Exporter, processed: nat, before: Sys, after: Sys,
                              actualError: bool)
  {
    if x == NoExporter || processed == 0 then after == before && !actualError
    else exists ids, groups, summary ::
           && ExportOutcome(before, Some(Among(accounts)), ids, groups, x.fate, x.openFails, x.closeFails, after,
                            summary)
           && (actualError <==> summary == None || summary.value.failed > 0)
  }

  function Among(accounts: seq<AccountId>): set<AccountId> { set a | a in accounts }

  /** The variables of the loop over the accounts. */
  datatype Tally = Tally(totals: Counts, processed: nat, failures: nat, errors: seq<(nat, ErrorType)>, sawReauth: bool)

  predicate IsTally(t: Tally, results: seq<AccountResult>) {
    && t.totals == Totals(results, |results|) && t.processed == Successes(results, |results|)
    && t.errors == Errors(results, |results|) && t.failures == |t.errors|
    && (t.sawReauth <==> results != [] && EndsRun(results[|results| - 1]))
    && (forall i :: 0 <= i < |results| - 1 ==> !EndsRun(results[i]))
  }

  /** A database failure in the bookkeeping of the run itself, which escapes it: before the first account; in
      recording the exception of account `n`, or that the connection needs reauthorisation; after the export. */
  datatype Escape = NoEscape | AtStart | InCatchOf(n: nat) | AtTheEnd

  /** The run ends where the exception of an account could not be recorded. */
  predicate Escaped(e: Escape, results: seq<AccountResult>) {
    e.InCatchOf? && e.n < |results| && results[e.n].Raised?
  }

  /** The loop over the accounts: an account that throws is recorded and passed over, unless it needs
      reauthorisation, which ends the run. */
  method SyncAccounts(rt: Runtime, db: Database, accounts: seq<AccountId>, c: Config, world: nat -> Outside, e: Escape)
    returns (t: Tally, ok: bool, ghost results: seq<AccountResult>, ghost trace: seq<Tables>)
    requires Collates(rt)
    modifies db`transactions, db`balances, db`cursors
    ensures IsSyncTrace(rt, accounts, c, world, trace, results)
    ensures |trace| == |results| + 1 && trace[0] == old(TablesOf(db)) && trace[|results|] == TablesOf(db)
    ensures ok <==> !Escaped(e, results)
    ensures if ok then IsTally(t, results) && EndsRight(accounts, results)
            else e.n == |results| - 1 && forall i :: 0 <= i < |results| - 1 ==> !EndsRun(results[i])
  {
    hide Add, AccountSync, Collates, IsTally, EndsRun, IsSyncTrace, ClassifyError;
    var cursors := db.cursors;
    t := Tally(Counts(0, 0, 0, 0), 0, 0, [], false);
    results, trace := [], [TablesOf(db)];
    SyncStart(rt, accounts, c, world, trace[0]);
    var n := 0;
    while n < |accounts| && !t.sawReauth
      invariant 0 <= n == |results| <= |accounts| && |trace| == n + 1
      invariant trace[0] == old(TablesOf(db)) && trace[n] == TablesOf(db) && cursors == trace[0].cursors
      invariant IsSyncTrace(rt, accounts, c, world, trace, results) && IsTally(t, results) && !Escaped(e, results)
      decreases |accounts| - n
    {
      var result := SyncOneAccount(rt, db, accounts[n], c, CursorOf(cursors, accounts[n]), world(n));
      SyncTurnAdded(rt, accounts, c, world, trace, results, TablesOf(db), result);
      TallyAdded(t, results, result);
      trace, results := trace + [TablesOf(db)], results + [result];
      match result {
        case Synced(counts) =>
          t := t.(totals := Add(t.totals, counts), processed := t.processed + 1);
        case Raised(error) =>
          if e == InCatchOf(n) {
            TallyNoneEnds(t, results[..n], results);
            ok := false;
            return;
          }
          t := t.(failures := t.failures + 1, errors := t.errors + [(n, ClassifyError(error))],
                  sawReauth := ClassifyError(error) == AuthorizationExpired);
      }
      n := n + 1;
    }
    TallyEnds(accounts, t, results);
    ok := true;
  }

  lemma SyncStart(rt: Runtime, accounts: seq<AccountId>, c: Config, world: nat -> Outside, start: Tables)
    ensures IsSyncTrace(rt, accounts, c, world, [start], [])
    ensures IsTally(Tally(Counts(0, 0, 0, 0), 0, 0, [], false), [])
  {
  }

  lemma TallyAdded(t: Tally, results: seq<AccountResult>, result: AccountResult)
    requires IsTally(t, results) && !t.sawReauth
    ensures IsTally(match result
                    case Synced(counts) => t.(totals := Add(t.totals, counts), processed := t.processed + 1)
                    case Raised(e) =>
                      t.(failures := t.failures + 1, errors := t.errors + [(|results|, ClassifyError(e))],
                         sawReauth := ClassifyError(e) == AuthorizationExpired),
                    results + [result])
  {
    hide Add, ClassifyError;
    PrefixIsEnough(results, result, |results|);
  }

  lemma TallyNoneEnds(t: Tally, before: seq<AccountResult>, results: seq<AccountResult>)
    requires IsTally(t, before) && !t.sawReauth && |results| == |before| + 1 && results[..|before|] == before
    ensures forall i :: 0 <= i < |results| - 1 ==> !EndsRun(results[i])
  {
    hide EndsRun;
    assert forall i :: 0 <= i < |before| ==> before[i] == results[i];
  }

  lemma TallyEnds(accounts: seq<AccountId>, t: Tally, results: seq<AccountResult>)
    requires IsTally(t, results) && |results| <= |accounts| && (|results| < |accounts| ==> t.sawReauth)
    ensures EndsRight(accounts, results)
  {
  }

  /** The export after the accounts. */
  method ExportAfter(db: Database, gw: FakeActualGateway, accounts: seq<AccountId>, x: Exporter, processed: nat)
    returns (actualError: bool)
    modifies db`transactions, db`links, gw
    ensures ExportAtEnd(accounts, x, processed, old(StateOf(db, gw)), StateOf(db, gw), actualError)
  {
    hide ExportOutcome, Among;
    actualError := false;
    if x != NoExporter && processed > 0 {
      var summary, ids, groups :=
        ExportAccounts(db, gw, Some(Among(accounts)), x.fate, x.openFails, x.closeFails);
      actualError := summary == None || summary.value.failed > 0;
    }
  }

  /** One run, from the system `before` to the system `after`; `None` is an exception that escapes it. */
  ghost predicate IsRun(rt: Runtime, accounts: seq<AccountId>, c: Config, world: nat -> Outside, x: Exporter, e: Escape,
                        run: Option<RunRecord>, results: seq<AccountResult>, trace: seq<Tables>, before: Sys,
                        after: Sys)
  {
    && IsSyncTrace(rt, accounts, c, world, trace, results) && trace[0].rows == before.rows
    && if e == AtStart then run == None && results == [] && after == before
       else if Escaped(e, results) then
         && run == None && e.n == |results| - 1 && (forall i :: 0 <= i < |results| - 1 ==> !EndsRun(results[i]))
         && after == before.(rows := trace[|results|].rows)
       else
         && EndsRight(accounts, results)
         && exists record ::
              Recorded(record, accounts, x, e, run, results, before.(rows := trace[|results|].rows), after)
  }

  /** `record` is what the run reports, unless it cannot be written, and the export has been made. */
  ghost predicate Recorded(record: RunRecord, accounts: seq<AccountId>, x: Exporter, e: Escape, run: Option<RunRecord>,
                           results: seq<AccountResult>, synced: Sys, after: Sys)
  {
    && Reports(record, results)
    && ExportAtEnd(accounts, x, record.accountsProcessed, synced, after, record.actualError)
    && run == if e == AtTheEnd then None else Some(record)
  }

  /** One run over the accounts of a connection, then the export. The export has no say in the status of the run. */
  method RunSync(rt: Runtime, db: Database, gw: FakeActualGateway, accounts: seq<AccountId>, c: Config,
                 world: nat -> Outside, x: Exporter, e: Escape)
    returns (run: Option<RunRecord>, ghost results: seq<AccountResult>, ghost trace: seq<Tables>)
    requires Collates(rt)
    modifies db, gw
    ensures IsRun(rt, accounts, c, world, x, e, run, results, trace, old(StateOf(db, gw)), StateOf(db, gw))
    ensures trace[0] == old(TablesOf(db))
    ensures TablesOf(db).cursors == trace[|results|].cursors && TablesOf(db).balances == trace[|results|].balances
  {
    hide ExportAtEnd, IsSyncTrace, IsTally, Collates, EndsRight, Reports, EndsRun;
    if e == AtStart {
      results, trace := [], [TablesOf(db)];
      SyncStart(rt, accounts, c, world, trace[0]);
      return None, results, trace;
    }
    var t, ok;
    t, ok, results, trace := SyncAccounts(rt, db, accounts, c, world, e);
    if !ok {
      return None, results, trace;
    }
    var actualError := ExportAfter(db, gw, accounts, x, t.processed);
    var status := if t.failures == 0 then Success else if t.processed > 0 then Partial else RunFailed;
    var record := RunRecord(status, t.processed, t.totals, t.errors, t.sawReauth, actualError);
    TallyReports(t, results, actualError);
    run := if e == AtTheEnd then None else Some(record);
    assert Recorded(record, accounts, x, e, run, results, old(StateOf(db, gw)).(rows := trace[|results|].rows),
                    StateOf(db, gw));
  }

  lemma TallyReports(t: Tally, results: seq<AccountResult>, actualError: bool)
    requires IsTally(t, results)
    ensures var status := if t.failures == 0 then Success else if t.processed > 0 then Partial else RunFailed;
            Reports(RunRecord(status, t.processed, t.totals, t.errors, t.sawReauth, actualError), results)
  {
    NoErrorsMeansAllSynced(results, |results|);
  }

  lemma SyncTurnAdded(rt: Runtime, accounts: seq<AccountId>, c: Config, world: nat -> Outside, trace: seq<Tables>,
                  results: seq<AccountResult>, after: Tables, result: AccountResult)
    requires IsSyncTrace(rt, accounts, c, world, trace, results) && |results| < |accounts|
    requires var n := |results|;
             AccountSync(rt, accounts[n], c, CursorOf(trace[0].cursors, accounts[n]), world(n), trace[n], after, result)
    ensures IsSyncTrace(rt, accounts, c, world, trace + [after], results + [result])
  {
    hide AccountSync;
    forall i: nat | i < |results| ensures SyncTurn(rt, accounts, c, world, trace + [after], results + [result], i) {
      assert SyncTurn(rt, accounts, c, world, trace, results, i);
    }
  }

  lemma {:induction false} PrefixIsEnough(results: seq<AccountResult>, result: AccountResult, n: nat)
    requires n <= |results|
    ensures Totals(results + [result], n) == Totals(results, n)
    ensures Successes(results + [result], n) == Successes(results, n)
    ensures Errors(results + [result], n) == Errors(results, n)
  {
    hide Add, ClassifyError;
    if n > 0 {
      PrefixIsEnough(results, result, n - 1);
    }
  }

  lemma {:induction false} NoErrorsMeansAllSynced(results: seq<AccountResult>, n: nat)
    requires n <= |results|
    ensures |Errors(results, n)| == 0 <==> forall i :: 0 <= i < n ==> results[i].Synced?
  {
    if n > 0 {
      NoErrorsMeansAllSynced(results, n - 1);
    }
  }

  // ------------------------------------------------------------- accounting

  predicate Balanced(c: Counts) {
    c.received == c.inserted + c.updated + c.skipped
  }

  lemma SyncedIsBalanced(rt: Runtime, account: AccountId, c: Config, cursor: Option<int>, w: Outside, a: Tables,
                         b: Tables, result: AccountResult)
    requires AccountSync(rt, account, c, cursor, w, a, b, result)
    ensures |b.rows| >= |a.rows|
    ensures result.Synced? ==> Balanced(result.counts) && |b.rows| == |a.rows| + result.counts.inserted
  {
    hide Upsert, Reconciled, Normalized, Answer;
    if w.balance.BalanceIs? && !w.breaks.atBalance {
      match w.provider(WindowStart(c, cursor, w.t.startedAt), w.t.to) {
        case ProviderThrows(_) =>
        case Reply(settled, pending) =>
          var batch := Normalized(rt, account, settled + pending);
          UpsertConserves(a.rows, account, batch, w.t.stamp, Reached(w.breaks.upsertAt, |batch|));
      }
    }
  }

  /** Over a run: what was received was inserted, updated or skipped, and the table has grown by at least what was
      inserted; by exactly that when every account was synced, for a failed account reports no counts. */
  lemma {:induction false} RunConserves(rt: Runtime, accounts: seq<AccountId>, c: Config, world: nat -> Outside,
                                        trace: seq<Tables>, results: seq<AccountResult>, n: nat)
    requires IsSyncTrace(rt, accounts, c, world, trace, results) && n <= |results|
    ensures Balanced(Totals(results, n))
    ensures |trace[n].rows| >= |trace[0].rows| + Totals(results, n).inserted
    ensures (forall i :: 0 <= i < n ==> results[i].Synced?) ==>
              |trace[n].rows| == |trace[0].rows| + Totals(results, n).inserted
  {
    hide AccountSync;
    if n > 0 {
      RunConserves(rt, accounts, c, world, trace, results, n - 1);
      assert SyncTurn(rt, accounts, c, world, trace, results, n - 1);
      SyncedIsBalanced(rt, accounts[n - 1], c, CursorOf(trace[0].cursors, accounts[n - 1]), world(n - 1),
                       trace[n - 1], trace[n], results[n - 1]);
    }
  }

  // ----------------------------------------------------- what a run reports

  /** What each type of error is recorded for. */
  predicate IsFor(ty: ErrorType, e: Thrown) {
    match ty
    case AuthorizationExpired => e.ReauthRequired?
    case RateLimit => e == RequestFailed(429)
    case ProviderUnavailable => e.RequestFailed? && e.httpStatus >= 500
    case InvalidResponse => e.RequestFailed? && e.httpStatus < 500 && e.httpStatus != 429
    case NetworkError => e.TypeErrorThrown?
    case Unknown => e.OtherError?
  }

  datatype Column = Received | Inserted | Updated | Skipped

  function At(c: Counts, column: Column): nat {
    match column
    case Received => c.received
    case Inserted => c.inserted
    case Updated => c.updated
    case Skipped => c.skipped
  }

  /** The sum of a column over the accounts that were synced. */
  function Sum(results: seq<AccountResult>, column: Column): nat {
    if results == [] then 0
    else var last := results[|results| - 1];
         Sum(results[..|results| - 1], column) + if last.Synced? then At(last.counts, column) else 0
  }

  lemma {:induction false} TotalsAreSums(results: seq<AccountResult>, n: nat, column: Column)
    requires n <= |results|
    ensures At(Totals(results, n), column) == Sum(results[..n], column)
  {
    if n > 0 {
      TotalsAreSums(results, n - 1, column);
      assert results[..n][..n - 1] == results[..n - 1];
    }
  }

  lemma {:induction false} ErrorsSayWhatHappened(results: seq<AccountResult>, n: nat, i: nat, ty: ErrorType)
    requires n <= |results|
    ensures (i, ty) in Errors(results, n) <==> i < n && results[i].Raised? && IsFor(ty, results[i].error)
  {
    if n > 0 {
      ErrorsSayWhatHappened(results, n - 1, i, ty);
    }
  }

  lemma {:induction false} ErrorsAreInOrder(results: seq<AccountResult>, n: nat, j: nat, k: nat)
    requires n <= |results| && j <= k < |Errors(results, n)|
    ensures Errors(results, n)[k].0 < n
    ensures j < k ==> Errors(results, n)[j].0 < Errors(results, n)[k].0
  {
    hide ClassifyError;
    var was := Errors(results, n - 1);
    if k < |was| {
      ErrorsAreInOrder(results, n - 1, j, k);
    } else if j < |was| {
      ErrorsAreInOrder(results, n - 1, j, j);
    }
  }

  /** The record of a run, from what became of the accounts: each exception is recorded once, with its type, in the
      order of the accounts; reauthorisation is reported exactly when an account asked for it; each total is the sum
      over the accounts that were synced; and the status is that of their number. */
  lemma RecordSaysWhatHappened(run: RunRecord, accounts: seq<AccountId>, results: seq<AccountResult>)
    requires Reports(run, results) && EndsRight(accounts, results)
    ensures forall i: nat, ty ::
              (i, ty) in run.errors <==> i < |results| && results[i].Raised? && IsFor(ty, results[i].error)
    ensures forall j, k :: 0 <= j < k < |run.errors| ==> run.errors[j].0 < run.errors[k].0
    ensures run.reauthRequired <==> Raised(ReauthRequired) in results
    ensures |results| == |accounts| || (results != [] && results[|results| - 1] == Raised(ReauthRequired))
    ensures forall i :: 0 <= i < |results| - 1 ==> results[i] != Raised(ReauthRequired)
    ensures forall column :: At(run.totals, column) == Sum(results, column)
    ensures run.accountsProcessed + |run.errors| == |results|
    ensures run.status == (if run.errors == [] then Success else if run.accountsProcessed > 0 then Partial
                           else RunFailed)
  {
    forall i: nat, ty
      ensures (i, ty) in run.errors <==> i < |results| && results[i].Raised? && IsFor(ty, results[i].error)
    {
      ErrorsSayWhatHappened(results, |results|, i, ty);
    }
    forall j, k | 0 <= j < k < |run.errors| ensures run.errors[j].0 < run.errors[k].0 {
      ErrorsAreInOrder(results, |results|, j, k);
    }
    forall column ensures At(run.totals, column) == Sum(results, column) {
      TotalsAreSums(results, |results|, column);
      assert results[..|results|] == results;
    }
    NoErrorsMeansAllSynced(results, |results|);
    if Raised(ReauthRequired) in results {
      var i: nat :| i < |results| && results[i] == Raised(ReauthRequired);
      assert !(i < |results| - 1);
    }
  }
}
