/** The syncs of one account as the engine makes them, one after the other, are a history of windows and cursors
    inside a run of the protocol, so that nothing is missed by the engine itself. */
module SyncHistory {
  import opened Completeness
  import opened Domain
  import opened Export
  import opened Normalize
  import opened Protocol
  import opened Reconciler
  import opened SetFacts
  import opened Store
  import opened SyncEngine
  import opened SyncRuns
  import opened SyncWindow

  /** One call of SyncOneAccount, from the tables `a` to the tables `b`. */
  datatype Call = Call(cursor: Option<int>, w: Outside, a: Tables, b: Tables, result: AccountResult)

  ghost predicate IsCallOf(rt: Runtime, account: AccountId, c: Config, call: Call) {
    && call.cursor == CursorOf(call.a.cursors, account)
    && AccountSync(rt, account, c, call.cursor, call.w, call.a, call.b, call.result)
  }

  /** All calls for one account, the first on an account without a cursor; nothing else writes the cursor. */
  ghost predicate AreCalls(rt: Runtime, account: AccountId, c: Config, calls: seq<Call>) {
    && (forall i :: 0 <= i < |calls| ==> IsCallOf(rt, account, c, calls[i]))
    && (|calls| > 0 ==> calls[0].cursor == None)
    && (forall i :: 0 < i < |calls| ==> calls[i].cursor == CursorOf(calls[i - 1].b.cursors, account))
  }

  function AttemptOf(call: Call): Attempt {
    Attempt(call.w.t.startedAt, call.w.t.to, call.result.Synced?, call.w.t.cursor)
  }

  function HistoryOf(calls: seq<Call>): (h: seq<Attempt>)
    ensures |h| == |calls| && forall i :: 0 <= i < |h| ==> h[i] == AttemptOf(calls[i])
  {
    seq(|calls|, i requires 0 <= i < |calls| => AttemptOf(calls[i]))
  }

  /** A call moves the cursor exactly when it succeeds. */
  lemma CursorAfterCall(rt: Runtime, account: AccountId, c: Config, call: Call)
    requires IsCallOf(rt, account, c, call)
    ensures CursorOf(call.b.cursors, account) == if call.result.Synced? then Some(call.w.t.cursor) else call.cursor
  {
    hide Upsert, Normalized, Reconciled, Answer;
  }

  /** The cursor a call reads is the one the last successful call wrote. */
  lemma {:induction false} CursorIsTheLast(rt: Runtime, account: AccountId, c: Config, calls: seq<Call>, i: nat)
    requires AreCalls(rt, account, c, calls) && i < |calls|
    ensures CursorAfter(HistoryOf(calls), i) == calls[i].cursor
  {
    hide IsCallOf;
    if i > 0 {
      CursorIsTheLast(rt, account, c, calls, i - 1);
      CursorAfterCall(rt, account, c, calls[i - 1]);
    }
  }

  /** So each call asks for the window of the history. */
  lemma AsksForTheWindow(rt: Runtime, account: AccountId, c: Config, calls: seq<Call>, i: nat)
    requires AreCalls(rt, account, c, calls) && i < |calls|
    ensures WindowStart(c, calls[i].cursor, calls[i].w.t.startedAt) == From(c, HistoryOf(calls), i)
  {
    hide AreCalls;
    CursorIsTheLast(rt, account, c, calls, i);
  }

  ghost predicate DistinctAccounts(accounts: seq<AccountId>) {
    forall i, j :: 0 <= i < j < |accounts| ==> accounts[i] != accounts[j]
  }

  lemma {:induction false} OthersLeaveTheCursor(rt: Runtime, accounts: seq<AccountId>, c: Config,
                                                world: nat -> Outside, trace: seq<Tables>, results: seq<AccountResult>,
                                                i: nat, n: nat)
    requires IsSyncTrace(rt, accounts, c, world, trace, results) && DistinctAccounts(accounts)
    requires i <= n < |accounts| && i <= |results|
    ensures CursorOf(trace[i].cursors, accounts[n]) == CursorOf(trace[0].cursors, accounts[n])
  {
    hide AccountSync;
    if i > 0 {
      OthersLeaveTheCursor(rt, accounts, c, world, trace, results, i - 1, n);
      assert SyncTurn(rt, accounts, c, world, trace, results, i - 1);
      OtherCursorsStay(rt, accounts[i - 1], c, CursorOf(trace[0].cursors, accounts[i - 1]), world(i - 1), trace[i - 1],
                       trace[i], results[i - 1], accounts[n]);
    }
  }

  lemma OtherCursorsStay(rt: Runtime, account: AccountId, c: Config, cursor: Option<int>, w: Outside, a: Tables,
                         b: Tables, result: AccountResult, other: AccountId)
    requires AccountSync(rt, account, c, cursor, w, a, b, result) && other != account
    ensures CursorOf(b.cursors, other) == CursorOf(a.cursors, other)
  {
    hide Upsert, Normalized, Reconciled, Answer;
  }

  /** A turn of a run is such a call: the cursor read at the start of the run is still the account's own. */
  lemma TurnIsCall(rt: Runtime, accounts: seq<AccountId>, c: Config, world: nat -> Outside, trace: seq<Tables>,
                   results: seq<AccountResult>, i: nat)
    requires IsSyncTrace(rt, accounts, c, world, trace, results) && DistinctAccounts(accounts) && i < |results|
    ensures IsCallOf(rt, accounts[i], c,
                     Call(CursorOf(trace[0].cursors, accounts[i]), world(i), trace[i], trace[i + 1], results[i]))
  {
    hide AccountSync;
    OthersLeaveTheCursor(rt, accounts, c, world, trace, results, i, i);
    assert SyncTurn(rt, accounts, c, world, trace, results, i);
  }

  // ------------------------------------------------------------ the provider

  /** The batch holds every transaction of the window visible by its end, each at a place of its own. */
  ghost predicate Includes(bank: seq<BankTx>, from: int, to: int, batch: seq<ProviderTx>, place: map<nat, nat>) {
    && Injective(place)
    && forall k: nat :: k < |bank| && from <= bank[k].tx.timestamp <= to && bank[k].visibleAt <= to ==>
         k in place && place[k] < |batch| && batch[place[k]] == bank[k].tx
  }

  /** An honest provider leaves nothing out of an answer; what else it reports is open. */
  ghost predicate IsHonest(bank: seq<BankTx>, provider: (int, int) -> Reply) {
    forall from, to | provider(from, to).Reply? ::
      exists place :: Includes(bank, from, to, provider(from, to).settled + provider(from, to).pending, place)
  }

  function ReplyTo(c: Config, call: Call): Reply {
    call.w.provider(WindowStart(c, call.cursor, call.w.t.startedAt), call.w.t.to)
  }

  function ReplyBatch(c: Config, call: Call): seq<ProviderTx> {
    if ReplyTo(c, call).Reply? then ReplyTo(c, call).settled + ReplyTo(c, call).pending else []
  }

  lemma HonestCallHolds(rt: Runtime, account: AccountId, c: Config, calls: seq<Call>, bank: seq<BankTx>, i: nat)
    returns (place: map<nat, nat>)
    requires AreCalls(rt, account, c, calls) && i < |calls| && calls[i].result.Synced?
    requires IsHonest(bank, calls[i].w.provider)
    ensures Holding(c, HistoryOf(calls), bank, i, ReplyBatch(c, calls[i]), place)
  {
    hide AreCalls, Injective;
    var call := calls[i];
    SyncedWasAnswered(rt, account, c, calls, i);
    AsksForTheWindow(rt, account, c, calls, i);
    var from := WindowStart(c, call.cursor, call.w.t.startedAt);
    place :| Includes(bank, from, call.w.t.to, call.w.provider(from, call.w.t.to).settled +
                                                call.w.provider(from, call.w.t.to).pending, place);
  }

  lemma SyncedWasAnswered(rt: Runtime, account: AccountId, c: Config, calls: seq<Call>, i: nat)
    requires AreCalls(rt, account, c, calls) && i < |calls| && calls[i].result.Synced?
    ensures ReplyTo(c, calls[i]).Reply?
  {
    hide Ingested;
    assert IsCallOf(rt, account, c, calls[i]);
  }

  // ----------------------------------------------------------------- the run

  /** A successful call ingests its whole answer first. */
  lemma SyncedPath(rt: Runtime, account: AccountId, c: Config, call: Call, s: Sys)
    returns (states: seq<Sys>, steps: seq<Step>)
    requires IsCallOf(rt, account, c, call) && call.result.Synced? && BoundaryHolds(call.w) && s.rows == call.a.rows
    ensures PathBetween(rt, states, steps, s, s.(rows := call.b.rows)) && |steps| == 2
    ensures steps[0] == Ingest(account, ReplyBatch(c, call), call.w.t.stamp, |ReplyBatch(c, call)|)
  {
    hide Upsert, Normalized, Reconciled, Answer, NoEmptyIds;
    var Reply(settled, pending) := ReplyTo(c, call);
    assert NoEmptyIds(settled + pending);
    var step := Ingest(account, settled + pending, call.w.t.stamp, |settled + pending|);
    var s1 := Next(rt, s, step);
    var o := call.w.o.(seenPendingIds := SeenPendingIds(pending));
    var ps, ss :| IsCallUpTo(rt, account, o, None, s1.rows, call.b.rows, ps, ss);
    steps := [step, Reconcile(account, ps, ss, o, |ps|)];
    states := [s, s1, Next(rt, s1, steps[1])];
  }

  /** The system around each call: its rows are those of the call, and between two calls the protocol runs on. */
  ghost predicate InSystem(rt: Runtime, calls: seq<Call>, pre: seq<Sys>) {
    && |pre| == |calls|
    && (forall i :: 0 <= i < |calls| ==> pre[i].rows == calls[i].a.rows)
    && (forall i :: 0 <= i < |calls| ==> Leads(rt, Before(calls, pre, i), pre[i]))
  }

  /** The system after the first `n` calls. */
  function Before(calls: seq<Call>, pre: seq<Sys>, n: nat): Sys
    requires n <= |calls| == |pre|
  {
    if n == 0 then EMPTY else pre[n - 1].(rows := calls[n - 1].b.rows)
  }

  /** Step `at[i]` of the run is the ingest of call `i`. */
  ghost predicate IngestAt(c: Config, account: AccountId, call: Call, steps: seq<Step>, at: int) {
    && 0 <= at < |steps|
    && steps[at] == Ingest(account, ReplyBatch(c, call), call.w.t.stamp, |ReplyBatch(c, call)|)
  }

  ghost predicate IngestsAt(c: Config, account: AccountId, calls: seq<Call>, n: nat, steps: seq<Step>, at: seq<nat>)
    requires n <= |calls|
  {
    && |at| == n
    && (forall i :: 0 <= i < n && calls[i].result.Synced? ==> IngestAt(c, account, calls[i], steps, at[i]))
    && (forall i, j :: 0 <= i < j < n && calls[i].result.Synced? && calls[j].result.Synced? ==> at[i] < at[j])
  }

  lemma EarlierIngestsStay(c: Config, account: AccountId, calls: seq<Call>, n: nat, steps: seq<Step>, more: seq<Step>,
                           at: seq<nat>, next: nat)
    requires n < |calls| && IngestsAt(c, account, calls, n, steps, at)
    requires calls[n].result.Synced? ==> next >= |steps| && IngestAt(c, account, calls[n], steps + more, next)
    ensures IngestsAt(c, account, calls, n + 1, steps + more, at + [next])
  {
    hide ReplyBatch;
    var all := at + [next];
    forall i | 0 <= i < n + 1 && calls[i].result.Synced? ensures IngestAt(c, account, calls[i], steps + more, all[i]) {
      if i < n {
        assert IngestAt(c, account, calls[i], steps, at[i]);
      }
    }
    forall i, j | 0 <= i < j < n + 1 && calls[i].result.Synced? && calls[j].result.Synced? ensures all[i] < all[j] {
      assert IngestAt(c, account, calls[i], steps, at[i]);
    }
  }

  /** The calls, with whatever happens between them, are part of one run. */
  lemma {:induction false} RunOfCalls(rt: Runtime, account: AccountId, c: Config, calls: seq<Call>, pre: seq<Sys>,
                                      n: nat)
    returns (states: seq<Sys>, steps: seq<Step>, at: seq<nat>)
    requires AreCalls(rt, account, c, calls) && InSystem(rt, calls, pre) && n <= |calls|
    requires forall i :: 0 <= i < |calls| ==> BoundaryHolds(calls[i].w)
    ensures PathBetween(rt, states, steps, EMPTY, Before(calls, pre, n))
    ensures IngestsAt(c, account, calls, n, steps, at)
  {
    hide AreCalls, InSystem, BoundaryHolds, PathBetween, IngestsAt, IngestAt;
    OneSystemEach(rt, calls, pre);
    if n == 0 {
      states, steps, at := [EMPTY], [], [];
      NothingCalled(rt, c, account, calls, pre);
    } else {
      var before, firstSteps, firstAt := RunOfCalls(rt, account, c, calls, pre, n - 1);
      var more, moreSteps, next := NextCall(rt, account, c, calls, pre, n - 1);
      JoinBetween(rt, before, firstSteps, more, moreSteps, EMPTY, Before(calls, pre, n - 1), Before(calls, pre, n));
      states, steps, at := before + more[1..], firstSteps + moreSteps, firstAt + [|firstSteps| + next];
      IngestIsLater(c, account, calls[n - 1], firstSteps, moreSteps, next);
      EarlierIngestsStay(c, account, calls, n - 1, firstSteps, moreSteps, firstAt, |firstSteps| + next);
    }
  }

  /** From the end of one call to the end of the next. */
  lemma NextCall(rt: Runtime, account: AccountId, c: Config, calls: seq<Call>, pre: seq<Sys>, n: nat)
    returns (states: seq<Sys>, steps: seq<Step>, next: nat)
    requires AreCalls(rt, account, c, calls) && InSystem(rt, calls, pre) && n < |calls| && BoundaryHolds(calls[n].w)
    ensures PathBetween(rt, states, steps, Before(calls, pre, n), Before(calls, pre, n + 1))
    ensures calls[n].result.Synced? ==> IngestAt(c, account, calls[n], steps, next)
  {
    hide IsCallOf, BoundaryHolds, PathBetween, ReplyBatch;
    var call, s := calls[n], pre[n];
    assert Leads(rt, Before(calls, pre, n), s);
    var between, betweenSteps :| PathBetween(rt, between, betweenSteps, Before(calls, pre, n), s);
    var last, lastSteps := CallPath(rt, account, c, call, s);
    JoinBetween(rt, between, betweenSteps, last, lastSteps, Before(calls, pre, n), s, s.(rows := call.b.rows));
    states, steps, next := between + last[1..], betweenSteps + lastSteps, |betweenSteps|;
    IngestIsLater(c, account, call, betweenSteps, lastSteps, 0);
  }

  lemma OneSystemEach(rt: Runtime, calls: seq<Call>, pre: seq<Sys>)
    requires InSystem(rt, calls, pre)
    ensures |pre| == |calls|
  {
  }

  lemma NothingCalled(rt: Runtime, c: Config, account: AccountId, calls: seq<Call>, pre: seq<Sys>)
    requires |pre| == |calls|
    ensures PathBetween(rt, [EMPTY], [], EMPTY, Before(calls, pre, 0)) && IngestsAt(c, account, calls, 0, [], [])
  {
  }

  lemma IngestIsLater(c: Config, account: AccountId, call: Call, steps: seq<Step>, more: seq<Step>, at: nat)
    ensures IngestAt(c, account, call, more, at) ==> IngestAt(c, account, call, steps + more, |steps| + at)
  {
    hide ReplyBatch;
  }

  /** The path of one call; that of a successful one begins with its ingest. */
  lemma CallPath(rt: Runtime, account: AccountId, c: Config, call: Call, s: Sys)
    returns (states: seq<Sys>, steps: seq<Step>)
    requires IsCallOf(rt, account, c, call) && BoundaryHolds(call.w) && s.rows == call.a.rows
    ensures PathBetween(rt, states, steps, s, s.(rows := call.b.rows))
    ensures call.result.Synced? ==> IngestAt(c, account, call, steps, 0)
  {
    hide AccountSync, BoundaryHolds, PathBetween, ReplyBatch;
    if call.result.Synced? {
      states, steps := SyncedPath(rt, account, c, call, s);
    } else {
      AccountSyncLeads(rt, account, c, call.cursor, call.w, call.a, call.b, call.result, s);
      states, steps :| PathBetween(rt, states, steps, s, s.(rows := call.b.rows));
    }
  }

  /** The calls of the engine are syncs in the sense of Completeness. */
  lemma CallsAreDelivered(rt: Runtime, account: AccountId, c: Config, calls: seq<Call>, bank: seq<BankTx>,
                          pre: seq<Sys>)
    returns (states: seq<Sys>, steps: seq<Step>, y: Syncs)
    requires AreCalls(rt, account, c, calls) && InSystem(rt, calls, pre)
    requires forall i :: 0 <= i < |calls| ==> BoundaryHolds(calls[i].w) && IsHonest(bank, calls[i].w.provider)
    ensures Run(rt, states, steps) && AllDelivered(steps, y)
    ensures states[|steps|] == Before(calls, pre, |calls|)
    ensures y.account == account && y.c == c && y.h == HistoryOf(calls) && y.bank == bank
    ensures forall i :: 0 <= i < |calls| && calls[i].result.Synced? ==> y.at[i] < |steps|
  {
    hide AreCalls, InSystem, BoundaryHolds, IsHonest, Holding, ReplyBatch, Path;
    var at;
    states, steps, at := RunOfCalls(rt, account, c, calls, pre, |calls|);
    PathLength(rt, states, steps);
    y := Syncs(account, c, HistoryOf(calls), at, bank);
    forall i: nat | i < |y.h| && y.h[i].ok ensures Delivered(steps, y, i) {
      assert calls[i].result.Synced? && IngestAt(c, account, calls[i], steps, at[i]);
      var place := HonestCallHolds(rt, account, c, calls, bank, i);
    }
  }

  /** Nothing is missed by the engine: when its clock is one clock, the provider honest and prompt, and the overlap
      covers latency, delay and a day, then after a successful call every transaction of a fingerprint visible by then
      has a row to itself. */
  lemma EngineMissesNothing(rt: Runtime, account: AccountId, c: Config, calls: seq<Call>, bank: seq<BankTx>,
                            pre: seq<Sys>, latency: int, delay: int, tx: ProviderTx)
    returns (own: map<nat, RowId>)
    requires Collates(rt) && AreCalls(rt, account, c, calls) && InSystem(rt, calls, pre) && |calls| > 0
    requires forall i :: 0 <= i < |calls| ==> BoundaryHolds(calls[i].w) && IsHonest(bank, calls[i].w.provider)
    requires calls[|calls| - 1].result.Synced?
    requires History(HistoryOf(calls), delay) && GoodBank(Syncs(account, c, HistoryOf(calls), [], bank), latency)
    requires latency + delay + DAY_MS <= c.overlap + 2
    ensures var last := calls[|calls| - 1];
            var key := FingerprintKey(rt, account, tx);
            OwnRows(last.b.rows, account, key, Lookalikes(rt, account, bank, key, last.w.t.to), own)
  {
    hide AreCalls, InSystem, BoundaryHolds, IsHonest, History, AllDelivered, Next, Enabled, OwnRows, Lookalikes,
      FingerprintKey, NoneDead, AllLive, NumbersSettledSince;
    var states, steps, y := CallsAreDelivered(rt, account, c, calls, bank, pre);
    own := LookalikesAreNeverMissed(rt, states, steps, y, latency, delay, |calls| - 1, tx, |steps|);
  }
}
