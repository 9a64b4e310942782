/** What one call of services/reconciliation/pending-reconciler.ts does to the table, and where repeated
    calls end up. */
module Convergence {
  import opened Domain
  import opened Numbering
  import opened Pairing
  import opened Reconciler
  import opened SetFacts
  import opened Store

  ghost function Removed(rt: Runtime, rows: seq<Row>, ps: seq<RowId>, ss: seq<RowId>, o: Options, n: nat): set<RowId>
    requires n <= |ps| && InTable(rows, ps) && InTable(rows, ss)
  {
    Claims(rt, rows, ps, ss, n).Keys + Expiries(rt, rows, ps, ss, o, n)
  }

  /** Rows not removed are untouched; a removed row is the pending of some turn, soft-deleted in that turn. */
  lemma {:induction false} RowsAfter(rt: Runtime, rows: seq<Row>, ps: seq<RowId>, ss: seq<RowId>, o: Options, n: nat,
                                     i: RowId)
    requires n <= |ps| && InTable(rows, ps) && InTable(rows, ss) && ByTimestamp(rows, ps) && i < |rows|
    ensures var after := Reconciled(rt, rows, ps, ss, o, n);
            && |after| == |rows|
            && (i !in Removed(rt, rows, ps, ss, o, n) ==> after[i] == rows[i])
            && (i in Removed(rt, rows, ps, ss, o, n) ==>
                  && i in ps[..n]
                  && exists k: nat :: k < n && after[i] == SoftDeleted(rows[i], o.nowDate, o.stamp(k)))
  {
    hide Removed, Goes, SoftDeleted, ByTimestamp;
    if n > 0 {
      RowsAfter(rt, rows, ps, ss, o, n - 1, i);
      RemovedStep(rt, rows, ps, ss, o, n - 1);
      assert ps[..n] == ps[..n - 1] + [ps[n - 1]];
    } else {
      NothingRemovedYet(rt, rows, ps, ss, o);
    }
  }

  lemma NothingRemovedYet(rt: Runtime, rows: seq<Row>, ps: seq<RowId>, ss: seq<RowId>, o: Options)
    requires InTable(rows, ps) && InTable(rows, ss)
    ensures Removed(rt, rows, ps, ss, o, 0) == {}
  {
  }

  /** A turn removes at most its own pending, which was there until then. */
  lemma RemovedStep(rt: Runtime, rows: seq<Row>, ps: seq<RowId>, ss: seq<RowId>, o: Options, k: nat)
    requires k < |ps| && InTable(rows, ps) && InTable(rows, ss) && ByTimestamp(rows, ps)
    ensures ps[k] !in Removed(rt, rows, ps, ss, o, k)
    ensures Removed(rt, rows, ps, ss, o, k + 1) ==
            Removed(rt, rows, ps, ss, o, k) + (if Goes(rt, rows, ps, ss, o, k) then {ps[k]} else {})
  {
    hide Twin, Expires, ByTimestamp;
    NotYetDecided(rt, rows, ps, ss, o, k);
  }

  /** A pending expires when its turn finds no twin left, it was not reported and it is too old. */
  lemma {:induction false} WhoExpires(rt: Runtime, rows: seq<Row>, ps: seq<RowId>, ss: seq<RowId>, o: Options, n: nat,
                                      k: nat)
    requires k < n <= |ps| && InTable(rows, ps) && InTable(rows, ss) && ByTimestamp(rows, ps)
    ensures ps[k] in Expiries(rt, rows, ps, ss, o, n) <==>
            ps[k] !in Claims(rt, rows, ps, ss, n) && Expires(rows[ps[k]], o, k)
  {
    hide Twin, Expires, ByTimestamp;
    NotYetDecided(rt, rows, ps, ss, o, n - 1);
    if k < n - 1 {
      WhoExpires(rt, rows, ps, ss, o, n - 1, k);
      TurnsDiffer(rows, ps, k, n - 1);
    }
  }

  lemma TurnsDiffer(rows: seq<Row>, ps: seq<RowId>, j: nat, k: nat)
    requires j < k < |ps| && InTable(rows, ps) && ByTimestamp(rows, ps)
    ensures ps[j] != ps[k]
  {
  }

  lemma MergedAndExpiredAreApart(rt: Runtime, rows: seq<Row>, ps: seq<RowId>, ss: seq<RowId>, o: Options)
    requires InTable(rows, ps) && InTable(rows, ss) && ByTimestamp(rows, ps)
    ensures Claims(rt, rows, ps, ss, |ps|).Keys !! Expiries(rt, rows, ps, ss, o, |ps|)
    ensures forall p :: p in Removed(rt, rows, ps, ss, o, |ps|) ==> p in ps
  {
    hide Claims, Expiries, Expires, ByTimestamp;
    DecidedAreEarlier(rt, rows, ps, ss, o, |ps|);
    assert ps[..|ps|] == ps;
    forall p | p in Expiries(rt, rows, ps, ss, o, |ps|) ensures p !in Claims(rt, rows, ps, ss, |ps|) {
      assert p in ps[..|ps|];
      var k :| 0 <= k < |ps| && ps[k] == p;
      WhoExpires(rt, rows, ps, ss, o, |ps|, k);
    }
  }

  /** Where the pending of turn `k` stands after `n` turns. */
  lemma {:induction false} RowOfTurn(rt: Runtime, rows: seq<Row>, ps: seq<RowId>, ss: seq<RowId>, o: Options, n: nat,
                                     k: nat)
    requires k < |ps| && n <= |ps| && InTable(rows, ps) && InTable(rows, ss) && ByTimestamp(rows, ps)
    ensures Reconciled(rt, rows, ps, ss, o, n)[ps[k]] ==
            if k < n && Goes(rt, rows, ps, ss, o, k) then SoftDeleted(rows[ps[k]], o.nowDate, o.stamp(k))
            else rows[ps[k]]
  {
    hide Goes, SoftDeleted, ByTimestamp;
    if n > 0 {
      RowOfTurn(rt, rows, ps, ss, o, n - 1, k);
      if k < n - 1 {
        TurnsDiffer(rows, ps, k, n - 1);
      } else if n - 1 < k {
        TurnsDiffer(rows, ps, n - 1, k);
      }
    }
  }

  /** A row of `rows` that `ps` could be merged into: live, settled and of the account. */
  ghost predicate NothingMatches(rt: Runtime, rows: seq<Row>, account: AccountId, p: RowId)
    requires p < |rows|
  {
    forall s: RowId | s < |rows| && Matches(rt, rows[p], rows[s]) ::
      !(rows[s].accountId == account && rows[s].status == Settled && rows[s].deletedAt == None)
  }

  lemma UnmatchedIsNotClaimed(rt: Runtime, rows: seq<Row>, account: AccountId, ps: seq<RowId>, ss: seq<RowId>, n: nat,
                              p: RowId)
    requires Answer(rows, account, Pending, ps) && Answer(rows, account, Settled, ss) && n <= |ps| && p < |rows|
    requires NothingMatches(rt, rows, account, p)
    ensures p !in Claims(rt, rows, ps, ss, n)
  {
    hide Claims, Matches, ByTimestamp;
    ClaimsArePairing(rt, rows, ps, ss, n);
  }

  /** What one call does to each pending it was answered: a merged one, and one that is not reported and older than the
      expiry days, is soft-deleted at the time of the call and stamped at its turn; any other is left as it was. */
  lemma FateOfAPending(rt: Runtime, rows: seq<Row>, account: AccountId, ps: seq<RowId>, ss: seq<RowId>, o: Options,
                       k: nat)
    requires Answer(rows, account, Pending, ps) && Answer(rows, account, Settled, ss) && k < |ps|
    ensures var row, after := rows[ps[k]], Reconciled(rt, rows, ps, ss, o, |ps|)[ps[k]];
            var merged := ps[k] in Claims(rt, rows, ps, ss, |ps|);
            var reported := row.providerTransactionId.Some? && row.providerTransactionId.value in o.seenPendingIds;
            var overdue := o.now(k) - row.updatedAt > o.pendingExpiryDays * 86_400_000;
            after == if merged || (!reported && overdue)
                     then row.(deletedAt := Some(o.nowDate), updatedAt := o.stamp(k)) else row
  {
    hide Claims, Twin, Reconciled, ByTimestamp;
    RowOfTurn(rt, rows, ps, ss, o, |ps|, k);
    ClaimedAtItsTurn(rt, rows, ps, ss, k, |ps|);
    ClaimStep(rt, rows, ps, ss, k);
  }

  /** A pending that nothing matches expires exactly when it is not reported and overdue. */
  lemma UnmatchedExpiresExactlyWhen(rt: Runtime, rows: seq<Row>, account: AccountId, ps: seq<RowId>, ss: seq<RowId>,
                                    o: Options, k: nat)
    requires Answer(rows, account, Pending, ps) && Answer(rows, account, Settled, ss) && k < |ps|
    requires NothingMatches(rt, rows, account, ps[k])
    ensures var row, after := rows[ps[k]], Reconciled(rt, rows, ps, ss, o, |ps|)[ps[k]];
            after.deletedAt.Some? <==>
            && (row.providerTransactionId.None? || row.providerTransactionId.value !in o.seenPendingIds)
            && o.now(k) - row.updatedAt > o.pendingExpiryDays * 86_400_000
  {
    hide Claims, Reconciled, ByTimestamp, Matches;
    assert ps[k] in ps;
    UnmatchedIsNotClaimed(rt, rows, account, ps, ss, |ps|, ps[k]);
    FateOfAPending(rt, rows, account, ps, ss, o, k);
  }

  /** When two rows match: a lone pending is merged into a lone settled row exactly when their amounts are equal, their
      dates at most five days apart either way, and their merchants, or where one of them has none their descriptions,
      read the same. */
  lemma LonePairMergesExactlyWhen(rt: Runtime, rows: seq<Row>, account: AccountId, p: RowId, s: RowId)
    requires Answer(rows, account, Pending, [p]) && Answer(rows, account, Settled, [s]) && p < |rows| && s < |rows|
    ensures var a, b := rows[p], rows[s];
            var from := if a.bookedDate.Some? then a.bookedDate.value else a.timestamp;
            var to := if b.bookedDate.Some? then b.bookedDate.value else b.timestamp;
            var named := a.merchantName != None && a.merchantName != Some("") &&
                         b.merchantName != None && b.merchantName != Some("");
            Claims(rt, rows, [p], [s], 1) == (map[p := s]) <==>
            && a.amountMinor == b.amountMinor
            && to - 432_000_000 <= from <= to + 432_000_000
            && (named ==> rt.upper(a.merchantName.value) == rt.upper(b.merchantName.value))
            && (!named ==> rt.normalizeDescription(a.description) == rt.normalizeDescription(b.description))
  {
    hide ByTimestamp, Selects;
    assert Claims(rt, rows, [p], [s], 0) == map[] && Claims(rt, rows, [p], [s], 0).Values == {};
    assert [s][1..] == [];
    assert p in map[p := s];
  }

  /** Conservation: the live pendings before are the live pendings after, the merged and the expired; all
      other live rows, and every soft-deleted row, are as before. */
  lemma CallConserves(rt: Runtime, rows: seq<Row>, account: AccountId, ps: seq<RowId>, ss: seq<RowId>, o: Options)
    requires Answer(rows, account, Pending, ps) && Answer(rows, account, Settled, ss)
    ensures var after := Reconciled(rt, rows, ps, ss, o, |ps|);
            && |after| == |rows|
            && LiveRows(after, account, Pending) ==
               LiveRows(rows, account, Pending) - Removed(rt, rows, ps, ss, o, |ps|)
            && |LiveRows(rows, account, Pending)| ==
               |LiveRows(after, account, Pending)| + |Claims(rt, rows, ps, ss, |ps|)| +
               |Expiries(rt, rows, ps, ss, o, |ps|)|
            && (forall i: RowId :: i < |rows| && i !in LiveRows(rows, account, Pending) ==> after[i] == rows[i])
            && (forall i: RowId :: i in LiveRows(after, account, Pending) ==> after[i] == rows[i])
  {
    hide Claims, Expiries, Reconciled, ByTimestamp;
    var after := Reconciled(rt, rows, ps, ss, o, |ps|);
    var merged, expired := Claims(rt, rows, ps, ss, |ps|).Keys, Expiries(rt, rows, ps, ss, o, |ps|);
    MergedAndExpiredAreApart(rt, rows, ps, ss, o);
    forall i: RowId | i < |rows|
      ensures i in Removed(rt, rows, ps, ss, o, |ps|) ==>
                i in LiveRows(rows, account, Pending) && i !in LiveRows(after, account, Pending)
      ensures i !in Removed(rt, rows, ps, ss, o, |ps|) ==> after[i] == rows[i]
    {
      RowsAfter(rt, rows, ps, ss, o, |ps|, i);
    }
    assert LiveRows(after, account, Pending) == LiveRows(rows, account, Pending) - (merged + expired);
    assert |merged + expired| == |merged| + |expired|;
    assert merged + expired <= LiveRows(rows, account, Pending);
  }

  lemma ReconcileStep(rt: Runtime, rows: seq<Row>, account: AccountId, ps: seq<RowId>, ss: seq<RowId>, o: Options,
                      n: nat)
    requires Answer(rows, account, Pending, ps) && Answer(rows, account, Settled, ss) && n <= |ps|
    ensures TableStep(rows, Reconciled(rt, rows, ps, ss, o, n))
    ensures forall i :: 0 <= i < |rows| ==> SameKey(rows[i], Reconciled(rt, rows, ps, ss, o, n)[i])
  {
    hide Reconciled, Removed, ByTimestamp;
    forall i: RowId | i < |rows|
      ensures RowStep(rows[i], Reconciled(rt, rows, ps, ss, o, n)[i])
      ensures SameKey(rows[i], Reconciled(rt, rows, ps, ss, o, n)[i])
    {
      RowsAfter(rt, rows, ps, ss, o, n, i);
      if i in Removed(rt, rows, ps, ss, o, n) {
        PrefixIsSelected(rows, account, ps, n, i);
      }
    }
  }

  lemma PrefixIsSelected(rows: seq<Row>, account: AccountId, ps: seq<RowId>, n: nat, i: RowId)
    requires Answer(rows, account, Pending, ps) && n <= |ps| && i in ps[..n]
    ensures i < |rows| && Selects(rows[i], account, Pending)
  {
    var k :| 0 <= k < n && ps[..n][k] == i;
    assert ps[k] in ps;
  }

  // ---------------------------------------------------------- convergence

  ghost predicate HasTwin(rt: Runtime, rows: seq<Row>, account: AccountId, p: RowId)
    requires p < |rows|
  {
    exists s :: s in LiveRows(rows, account, Settled) && Matches(rt, rows[p], rows[s])
  }

  /** The clock stands still during the call. */
  ghost predicate FixedClock(o: Options) {
    forall k: nat :: o.now(k) == o.now(0)
  }

  /** The live pendings that match some live settled row or are expirable. */
  ghost function Doomed(rt: Runtime, rows: seq<Row>, account: AccountId, o: Options): set<RowId> {
    set p | p in LiveRows(rows, account, Pending) && (HasTwin(rt, rows, account, p) || Expires(rows[p], o, 0))
  }

  ghost predicate IsCall(rt: Runtime, account: AccountId, o: Options, before: seq<Row>, after: seq<Row>) {
    exists ps, ss :: IsCallWith(rt, account, o, before, after, ps, ss)
  }

  ghost predicate IsCallWith(rt: Runtime, account: AccountId, o: Options, before: seq<Row>, after: seq<Row>,
                             ps: seq<RowId>, ss: seq<RowId>) {
    && Answer(before, account, Pending, ps) && Answer(before, account, Settled, ss)
    && after == Reconciled(rt, before, ps, ss, o, |ps|)
  }

  /** Only doomed pendings are removed. */
  lemma RemovedAreDoomed(rt: Runtime, rows: seq<Row>, account: AccountId, ps: seq<RowId>, ss: seq<RowId>, o: Options)
    requires Answer(rows, account, Pending, ps) && Answer(rows, account, Settled, ss) && FixedClock(o)
    ensures Removed(rt, rows, ps, ss, o, |ps|) <= Doomed(rt, rows, account, o)
  {
    hide Claims, Expiries, Matches;
    MergedAndExpiredAreApart(rt, rows, ps, ss, o);
    ClaimsArePairing(rt, rows, ps, ss, |ps|);
    forall p | p in Removed(rt, rows, ps, ss, o, |ps|) ensures p in Doomed(rt, rows, account, o) {
      if p in Claims(rt, rows, ps, ss, |ps|) {
        assert Claims(rt, rows, ps, ss, |ps|)[p] in LiveRows(rows, account, Settled);
      } else {
        var k :| 0 <= k < |ps| && ps[k] == p;
        WhoExpires(rt, rows, ps, ss, o, |ps|, k);
        assert o.now(k) == o.now(0);
      }
    }
  }

  /** While a doomed pending is left, a call removes one. */
  lemma SomeoneGoes(rt: Runtime, rows: seq<Row>, account: AccountId, ps: seq<RowId>, ss: seq<RowId>, o: Options,
                    p: RowId)
    requires Answer(rows, account, Pending, ps) && Answer(rows, account, Settled, ss) && FixedClock(o)
    requires p in Doomed(rt, rows, account, o)
    ensures Removed(rt, rows, ps, ss, o, |ps|) != {}
    ensures p !in Removed(rt, rows, ps, ss, o, |ps|) ==>
              forall s :: s in LiveRows(rows, account, Settled) && Matches(rt, rows[p], rows[s]) ==>
                s in Claims(rt, rows, ps, ss, |ps|).Values
  {
    hide Claims, Expiries, Matches;
    var m := Claims(rt, rows, ps, ss, |ps|);
    var k :| 0 <= k < |ps| && ps[k] == p;
    WhoExpires(rt, rows, ps, ss, o, |ps|, k);
    assert o.now(k) == o.now(0);
    if p !in Removed(rt, rows, ps, ss, o, |ps|) {
      forall s | s in LiveRows(rows, account, Settled) && Matches(rt, rows[p], rows[s]) ensures s in m.Values {
        NoTwinLeft(rt, rows, ps, ss, p, s);
      }
      var s :| s in LiveRows(rows, account, Settled) && Matches(rt, rows[p], rows[s]);
      var q :| q in m && m[q] == s;
    }
  }

  /** A call leaves the fate of the remaining pendings as it was. */
  lemma FateIsKept(rt: Runtime, account: AccountId, o: Options, before: seq<Row>, after: seq<Row>)
    requires IsCall(rt, account, o, before, after)
    ensures Doomed(rt, after, account, o) == Doomed(rt, before, account, o) * LiveRows(after, account, Pending)
    ensures LiveRows(after, account, Pending) <= LiveRows(before, account, Pending)
  {
    hide Claims, Expiries, Matches, Reconciled, Expires;
    var ps, ss :| IsCallWith(rt, account, o, before, after, ps, ss);
    CallConserves(rt, before, account, ps, ss, o);
    SettledStay(rt, before, account, ps, ss, o);
    assert forall s :: s in LiveRows(before, account, Settled) ==> after[s] == before[s];
    forall p | p in LiveRows(after, account, Pending)
      ensures HasTwin(rt, after, account, p) <==> HasTwin(rt, before, account, p)
    {
    }
  }

  lemma SettledStay(rt: Runtime, rows: seq<Row>, account: AccountId, ps: seq<RowId>, ss: seq<RowId>, o: Options)
    requires Answer(rows, account, Pending, ps) && Answer(rows, account, Settled, ss)
    ensures LiveRows(Reconciled(rt, rows, ps, ss, o, |ps|), account, Settled) == LiveRows(rows, account, Settled)
  {
    hide Claims, Expiries, Reconciled;
    MergedAndExpiredAreApart(rt, rows, ps, ss, o);
    forall i: RowId | i < |rows|
      ensures i in LiveRows(Reconciled(rt, rows, ps, ss, o, |ps|), account, Settled) <==>
              i in LiveRows(rows, account, Settled)
    {
      RowsAfter(rt, rows, ps, ss, o, |ps|, i);
    }
  }

  /** A call changes the table exactly when a doomed pending is left, and then strictly fewer are left. */
  lemma CallMakesProgress(rt: Runtime, account: AccountId, o: Options, before: seq<Row>, after: seq<Row>)
    requires IsCall(rt, account, o, before, after) && FixedClock(o)
    ensures Doomed(rt, before, account, o) == {} ==> after == before
    ensures Doomed(rt, before, account, o) != {} ==>
              LiveRows(after, account, Pending) < LiveRows(before, account, Pending) &&
              Doomed(rt, after, account, o) < Doomed(rt, before, account, o)
    ensures LiveRows(before, account, Pending) - Doomed(rt, before, account, o) ==
            LiveRows(after, account, Pending) - Doomed(rt, after, account, o)
  {
    hide Claims, Expiries, Matches, Reconciled, Expires, HasTwin, Doomed, LiveRows, Removed;
    var ps, ss :| IsCallWith(rt, account, o, before, after, ps, ss);
    CallConserves(rt, before, account, ps, ss, o);
    DoomedAfter(rt, account, o, before, after, ps, ss);
    if p :| p in Doomed(rt, before, account, o) {
      SomeoneGoes(rt, before, account, ps, ss, o, p);
      DoomedAreLive(rt, before, account, o);
    } else {
      NothingRemoved(rt, before, ps, ss, o);
    }
  }

  lemma DoomedAreLive(rt: Runtime, rows: seq<Row>, account: AccountId, o: Options)
    ensures Doomed(rt, rows, account, o) <= LiveRows(rows, account, Pending)
  {
  }

  lemma NothingRemoved(rt: Runtime, rows: seq<Row>, ps: seq<RowId>, ss: seq<RowId>, o: Options)
    requires InTable(rows, ps) && InTable(rows, ss) && ByTimestamp(rows, ps)
    requires Removed(rt, rows, ps, ss, o, |ps|) == {}
    ensures Reconciled(rt, rows, ps, ss, o, |ps|) == rows
  {
    hide Reconciled, Removed, ByTimestamp;
    forall i: RowId | i < |rows| ensures Reconciled(rt, rows, ps, ss, o, |ps|)[i] == rows[i] {
      RowsAfter(rt, rows, ps, ss, o, |ps|, i);
    }
  }

  /** The doomed pendings a call leaves behind, and how many it removes. */
  lemma DoomedAfter(rt: Runtime, account: AccountId, o: Options, rows: seq<Row>, once: seq<Row>, ps: seq<RowId>,
                    ss: seq<RowId>)
    requires IsCallWith(rt, account, o, rows, once, ps, ss) && FixedClock(o)
    ensures var removed := Removed(rt, rows, ps, ss, o, |ps|);
            && removed <= Doomed(rt, rows, account, o)
            && Doomed(rt, once, account, o) == Doomed(rt, rows, account, o) - removed
            && |removed| == |Claims(rt, rows, ps, ss, |ps|)| + |Expiries(rt, rows, ps, ss, o, |ps|)|
  {
    hide Claims, Expiries, Matches, Reconciled, Expires, HasTwin;
    CallConserves(rt, rows, account, ps, ss, o);
    RemovedAreDoomed(rt, rows, account, ps, ss, o);
    MergedAndExpiredAreApart(rt, rows, ps, ss, o);
    FateIsKept(rt, account, o, rows, once);
  }

  /** A history of calls with fixed options, each answered in whatever order the database likes. */
  ghost predicate IsTrace(rt: Runtime, account: AccountId, o: Options, trace: seq<seq<Row>>) {
    |trace| > 0 && forall i :: 0 <= i < |trace| - 1 ==> IsCall(rt, account, o, trace[i], trace[i + 1])
  }

  /** Convergence: after at most as many calls as there are doomed pendings the table is a fixpoint, and the
      survivors are exactly the pendings that match no live settled row and are not expirable. */
  lemma {:induction false} Converges(rt: Runtime, account: AccountId, o: Options, trace: seq<seq<Row>>)
    requires IsTrace(rt, account, o, trace) && FixedClock(o)
    requires |trace| - 1 >= |Doomed(rt, trace[0], account, o)|
    ensures var last := trace[|trace| - 1];
            && LiveRows(last, account, Pending) ==
               LiveRows(trace[0], account, Pending) - Doomed(rt, trace[0], account, o)
            && (forall next :: IsCall(rt, account, o, last, next) ==> next == last)
    decreases |trace|
  {
    hide IsCall, LiveRows, Doomed;
    if |trace| == 1 {
      assert Doomed(rt, trace[0], account, o) == {};
      forall next | IsCall(rt, account, o, trace[0], next) ensures next == trace[0] {
        CallMakesProgress(rt, account, o, trace[0], next);
      }
    } else {
      CallMakesProgress(rt, account, o, trace[0], trace[1]);
      SubsetCard(Doomed(rt, trace[1], account, o), Doomed(rt, trace[0], account, o));
      Converges(rt, account, o, trace[1..]);
    }
  }

  // -------------------------------------------- when one call is enough

  /** Every live settled row is matched by at most one live pending. */
  ghost predicate OneSuitor(rt: Runtime, rows: seq<Row>, account: AccountId) {
    forall p, q, s |
      && p in LiveRows(rows, account, Pending) && q in LiveRows(rows, account, Pending)
      && s in LiveRows(rows, account, Settled)
      && Matches(rt, rows[p], rows[s]) && Matches(rt, rows[q], rows[s]) :: p == q
  }

  /** Without rivals, one call settles everything. */
  lemma OneCallIsEnough(rt: Runtime, account: AccountId, o: Options, rows: seq<Row>, once: seq<Row>)
    requires IsCall(rt, account, o, rows, once) && FixedClock(o) && OneSuitor(rt, rows, account)
    ensures Doomed(rt, once, account, o) == {}
  {
    hide Claims, Expiries, Matches, Reconciled, Expires, Doomed, LiveRows, OneSuitor;
    var ps, ss :| IsCallWith(rt, account, o, rows, once, ps, ss);
    DoomedAfter(rt, account, o, rows, once, ps, ss);
    forall p | p in Doomed(rt, rows, account, o) ensures p in Removed(rt, rows, ps, ss, o, |ps|) {
      UnrivalledGoes(rt, account, o, rows, ps, ss, p);
    }
  }

  lemma OnlySuitorClaims(rt: Runtime, rows: seq<Row>, account: AccountId, ps: seq<RowId>, ss: seq<RowId>,
                         m: map<RowId, RowId>, p: RowId, s: RowId)
    requires Answer(rows, account, Pending, ps) && Answer(rows, account, Settled, ss)
    requires OneSuitor(rt, rows, account) && IsPairing(rt, rows, m, ps, ss) && s in m.Values
    requires p in LiveRows(rows, account, Pending) && s in LiveRows(rows, account, Settled)
    requires Matches(rt, rows[p], rows[s])
    ensures p in m
  {
    hide Matches, ByTimestamp;
    var q :| q in m && m[q] == s;
    assert q in LiveRows(rows, account, Pending);
    assert q == p;
  }

  lemma UnrivalledGoes(rt: Runtime, account: AccountId, o: Options, rows: seq<Row>, ps: seq<RowId>, ss: seq<RowId>,
                       p: RowId)
    requires Answer(rows, account, Pending, ps) && Answer(rows, account, Settled, ss)
    requires FixedClock(o) && OneSuitor(rt, rows, account) && p in Doomed(rt, rows, account, o)
    ensures p in Removed(rt, rows, ps, ss, o, |ps|)
  {
    hide Claims, Expiries, Matches, Expires;
    var m := Claims(rt, rows, ps, ss, |ps|);
    ClaimsArePairing(rt, rows, ps, ss, |ps|);
    if Expires(rows[p], o, 0) {
      ExpirableGoes(rt, rows, account, ps, ss, o, p);
    } else {
      var s :| s in LiveRows(rows, account, Settled) && Matches(rt, rows[p], rows[s]);
      if p !in m {
        NoTwinLeft(rt, rows, ps, ss, p, s);
      }
      if s in m.Values {
        OnlySuitorClaims(rt, rows, account, ps, ss, m, p, s);
      }
    }
  }

  lemma ExpirableGoes(rt: Runtime, rows: seq<Row>, account: AccountId, ps: seq<RowId>, ss: seq<RowId>, o: Options,
                      p: RowId)
    requires Answer(rows, account, Pending, ps) && Answer(rows, account, Settled, ss) && FixedClock(o)
    requires p in LiveRows(rows, account, Pending) && Expires(rows[p], o, 0)
    ensures p in Removed(rt, rows, ps, ss, o, |ps|)
  {
    hide Claims, Expiries, Matches;
    var k :| 0 <= k < |ps| && ps[k] == p;
    WhoExpires(rt, rows, ps, ss, o, |ps|, k);
    assert o.now(k) == o.now(0);
  }

  ghost function Twinned(rt: Runtime, rows: seq<Row>, account: AccountId): set<RowId> {
    set p | p in LiveRows(rows, account, Pending) && HasTwin(rt, rows, account, p)
  }

  /** With comparable names and rising dates, one call merges every pending that has a twin exactly when the
      twinned pendings can be paired off at all. */
  lemma AllTwinnedMergeExactlyWhenPairable(rt: Runtime, rows: seq<Row>, account: AccountId, ps: seq<RowId>,
                                           ss: seq<RowId>)
    requires Answer(rows, account, Pending, ps) && Answer(rows, account, Settled, ss)
    requires Comparable(rows, account) && Rising(rows, account)
    ensures Claims(rt, rows, ps, ss, |ps|).Keys == Twinned(rt, rows, account) <==>
            exists m :: IsPairing(rt, rows, m, ps, ss) && m.Keys == Twinned(rt, rows, account)
  {
    hide Claims, Matches, Comparable, Rising;
    var claims := Claims(rt, rows, ps, ss, |ps|);
    ClaimsArePairing(rt, rows, ps, ss, |ps|);
    ClaimedAreTwinned(rt, rows, account, ps, ss);
    if m :| IsPairing(rt, rows, m, ps, ss) && m.Keys == Twinned(rt, rows, account) {
      FirstFitIsOptimal(rt, rows, account, ps, ss, m);
      SubsetCard(claims.Keys, m.Keys);
    }
  }

  lemma ClaimedAreTwinned(rt: Runtime, rows: seq<Row>, account: AccountId, ps: seq<RowId>, ss: seq<RowId>)
    requires Answer(rows, account, Pending, ps) && Answer(rows, account, Settled, ss)
    ensures Claims(rt, rows, ps, ss, |ps|).Keys <= Twinned(rt, rows, account)
  {
    hide Claims, Matches;
    ClaimsArePairing(rt, rows, ps, ss, |ps|);
    var claims := Claims(rt, rows, ps, ss, |ps|);
    forall p | p in claims ensures p in Twinned(rt, rows, account) {
      assert claims[p] in LiveRows(rows, account, Settled);
    }
  }

  /** A second call changes nothing exactly when the first left nothing doomed. */
  lemma QuietExactlyWhenNothingIsDoomed(rt: Runtime, account: AccountId, o: Options, once: seq<Row>, twice: seq<Row>)
    requires IsCall(rt, account, o, once, twice) && FixedClock(o)
    ensures twice == once <==> Doomed(rt, once, account, o) == {}
  {
    hide IsCall, Doomed, LiveRows;
    CallMakesProgress(rt, account, o, once, twice);
  }

  /** Every pending that has a twin and is not expirable adds to what can be merged. */
  ghost predicate AllCanGo(rt: Runtime, rows: seq<Row>, ps: seq<RowId>, ss: seq<RowId>, account: AccountId, o: Options)
    requires InTable(rows, ps)
  {
    forall k: nat | k < |ps| && HasTwin(rt, rows, account, ps[k]) && !Expires(rows[ps[k]], o, 0) ::
      Adds(rt, rows, ps, ss, k)
  }

  /** What one call leaves doomed, decided before the call: with comparable names and rising dates it leaves
      nothing exactly when every pending that has a twin and is not expirable adds to what can be merged. */
  lemma OneCallSettlesExactlyWhen(rt: Runtime, account: AccountId, o: Options, rows: seq<Row>, once: seq<Row>,
                                  ps: seq<RowId>, ss: seq<RowId>)
    requires IsCallWith(rt, account, o, rows, once, ps, ss) && FixedClock(o)
    requires Comparable(rows, account) && Rising(rows, account)
    ensures Doomed(rt, once, account, o) == {} <==> AllCanGo(rt, rows, ps, ss, account, o)
  {
    hide Claims, Expiries, Matches, Reconciled, Expires, Comparable, Rising, Adds, ByTimestamp, HasTwin, Doomed;
    DoomedAfter(rt, account, o, rows, once, ps, ss);
    forall k: nat | k < |ps|
      ensures ps[k] in Doomed(rt, rows, account, o) <==>
              HasTwin(rt, rows, account, ps[k]) || Expires(rows[ps[k]], o, 0)
      ensures ps[k] in Removed(rt, rows, ps, ss, o, |ps|) <==>
              Adds(rt, rows, ps, ss, k) || Expires(rows[ps[k]], o, 0)
    {
      WhoGoes(rt, account, o, rows, ps, ss, k);
    }
    DoomedAreQueried(rt, rows, account, ps, o);
  }

  lemma WhoGoes(rt: Runtime, account: AccountId, o: Options, rows: seq<Row>, ps: seq<RowId>, ss: seq<RowId>, k: nat)
    requires Answer(rows, account, Pending, ps) && Answer(rows, account, Settled, ss) && FixedClock(o) && k < |ps|
    requires Comparable(rows, account) && Rising(rows, account)
    ensures ps[k] in Doomed(rt, rows, account, o) <==> HasTwin(rt, rows, account, ps[k]) || Expires(rows[ps[k]], o, 0)
    ensures ps[k] in Removed(rt, rows, ps, ss, o, |ps|) <==> Adds(rt, rows, ps, ss, k) || Expires(rows[ps[k]], o, 0)
  {
    hide Claims, Expiries, Expires, Comparable, Rising, Adds, HasTwin;
    assert ps[k] in ps;
    MergedExactlyWhenItAdds(rt, rows, account, ps, ss, k);
    WhoExpires(rt, rows, ps, ss, o, |ps|, k);
    SameExpiry(rows[ps[k]], o, k);
  }

  lemma SameExpiry(row: Row, o: Options, k: nat)
    requires FixedClock(o)
    ensures Expires(row, o, k) == Expires(row, o, 0)
  {
    assert o.now(k) == o.now(0);
  }

  lemma DoomedAreQueried(rt: Runtime, rows: seq<Row>, account: AccountId, ps: seq<RowId>, o: Options)
    requires Answer(rows, account, Pending, ps)
    ensures forall p :: p in Doomed(rt, rows, account, o) ==> exists k: nat :: k < |ps| && ps[k] == p
  {
    hide HasTwin, Expires, ByTimestamp;
    forall p | p in Doomed(rt, rows, account, o) ensures exists k: nat :: k < |ps| && ps[k] == p {
      assert p in ps;
    }
  }

  /** Idempotence, decided before the first call: a second call changes nothing exactly when every pending that has
      a twin and is not expirable adds to what can be merged. */
  lemma SecondCallIsNoOp(rt: Runtime, account: AccountId, o: Options, rows: seq<Row>, once: seq<Row>, twice: seq<Row>,
                         ps: seq<RowId>, ss: seq<RowId>)
    requires IsCallWith(rt, account, o, rows, once, ps, ss) && IsCall(rt, account, o, once, twice) && FixedClock(o)
    requires Comparable(rows, account) && Rising(rows, account)
    ensures twice == once <==> AllCanGo(rt, rows, ps, ss, account, o)
  {
    hide IsCallWith, IsCall, FixedClock, Comparable, Rising, Doomed, AllCanGo;
    OneCallSettlesExactlyWhen(rt, account, o, rows, once, ps, ss);
    QuietExactlyWhenNothingIsDoomed(rt, account, o, once, twice);
  }

  /** When no pending with a twin is expirable: exactly when the twinned pendings can be paired off at all. */
  lemma SecondCallIsNoOpWhenNoneExpires(rt: Runtime, account: AccountId, o: Options, rows: seq<Row>, once: seq<Row>,
                                        twice: seq<Row>, ps: seq<RowId>, ss: seq<RowId>)
    requires IsCallWith(rt, account, o, rows, once, ps, ss) && IsCall(rt, account, o, once, twice) && FixedClock(o)
    requires Comparable(rows, account) && Rising(rows, account)
    requires forall p :: p in Twinned(rt, rows, account) ==> !Expires(rows[p], o, 0)
    ensures twice == once <==> exists m :: IsPairing(rt, rows, m, ps, ss) && m.Keys == Twinned(rt, rows, account)
  {
    hide Claims, Expires, Comparable, Rising, Adds, IsCall, FixedClock, IsPairing, HasTwin, Answer, Reconciled,
      ByTimestamp;
    AnswerIsInTable(rows, account, Pending, ps);
    AnswerIsInTable(rows, account, Settled, ss);
    SecondCallIsNoOp(rt, account, o, rows, once, twice, ps, ss);
    AllTwinnedMergeExactlyWhenPairable(rt, rows, account, ps, ss);
    ClaimedAreTwinned(rt, rows, account, ps, ss);
    forall k: nat | k < |ps|
      ensures ps[k] in Twinned(rt, rows, account) <==> HasTwin(rt, rows, account, ps[k])
      ensures ps[k] in Claims(rt, rows, ps, ss, |ps|).Keys <==> Adds(rt, rows, ps, ss, k)
    {
      MergedExactlyWhenItAdds(rt, rows, account, ps, ss, k);
    }
    forall p | p in Twinned(rt, rows, account) ensures exists k: nat :: k < |ps| && ps[k] == p {
      assert p in ps;
    }
  }

  lemma AnswerIsInTable(rows: seq<Row>, account: AccountId, status: Status, ids: seq<RowId>)
    requires Answer(rows, account, status, ids)
    ensures InTable(rows, ids)
    ensures forall i: RowId :: i in ids <==> i in LiveRows(rows, account, status)
  {
    hide ByTimestamp;
  }

  /** Two pendings that match the one settled row of an account. */
  ghost predicate TwoSuitors(rt: Runtime, rows: seq<Row>, account: AccountId) {
    && |rows| == 3 && rows[0].status == rows[1].status == Pending && rows[2].status == Settled
    && (forall i :: 0 <= i < 3 ==> rows[i].accountId == account && rows[i].Live())
    && rows[0].timestamp <= rows[1].timestamp
    && Matches(rt, rows[0], rows[2]) && Matches(rt, rows[1], rows[2])
  }

  lemma FirstSuitorMerges(rt: Runtime, rows: seq<Row>, o: Options, account: AccountId)
    requires TwoSuitors(rt, rows, account) && !Expires(rows[1], o, 1)
    ensures Claims(rt, rows, [0, 1], [2], 2) == map[0 := 2]
    ensures Reconciled(rt, rows, [0, 1], [2], o, 2) == rows[0 := SoftDeleted(rows[0], o.nowDate, o.stamp(0))]
  {
    hide Matches, Expires, SoftDeleted;
    var ps, ss := [0, 1], [2];
    assert ss[1..] == [];
    assert Claims(rt, rows, ps, ss, 0).Values == {};
    assert Twin(rt, rows, 0, ss, {}) == Some(2);
    assert Claims(rt, rows, ps, ss, 1) == map[0 := 2];
    assert map[0 := 2].Values == {2} by { assert map[0 := 2][0] == 2; }
    assert Twin(rt, rows, 1, ss, {2}).None?;
    assert Reconciled(rt, rows, ps, ss, o, 1) == rows[0 := SoftDeleted(rows[0], o.nowDate, o.stamp(0))];
  }

  /** One-to-one merging holds within a call only: the next call merges the other pending into the same
      settled row, because the claims are forgotten in between. */
  lemma NextCallReusesTheTwin(rt: Runtime, rows: seq<Row>, o: Options, account: AccountId)
    requires TwoSuitors(rt, rows, account) && !Expires(rows[1], o, 1)
    ensures Answer(rows, account, Pending, [0, 1]) && Answer(rows, account, Settled, [2])
    ensures var once := Reconciled(rt, rows, [0, 1], [2], o, 2);
            && Answer(once, account, Pending, [1]) && Answer(once, account, Settled, [2])
            && Claims(rt, rows, [0, 1], [2], 2) == map[0 := 2]
            && Claims(rt, once, [1], [2], 1) == map[1 := 2]
  {
    FirstSuitorMerges(rt, rows, o, account);
    SecondSuitorIsLeft(rt, rows, account, SoftDeleted(rows[0], o.nowDate, o.stamp(0)));
    SuitorsAnswer(rows, account);
  }

  lemma SuitorsAnswer(rows: seq<Row>, account: AccountId)
    requires |rows| == 3 && rows[0].status == rows[1].status == Pending && rows[2].status == Settled
    requires forall i :: 0 <= i < 3 ==> rows[i].accountId == account && rows[i].Live()
    requires rows[0].timestamp <= rows[1].timestamp
    ensures Answer(rows, account, Pending, [0, 1]) && Answer(rows, account, Settled, [2])
  {
  }

  lemma SecondSuitorIsLeft(rt: Runtime, rows: seq<Row>, account: AccountId, dead: Row)
    requires TwoSuitors(rt, rows, account) && !dead.Live()
    ensures var once := rows[0 := dead];
            && Answer(once, account, Pending, [1]) && Answer(once, account, Settled, [2])
            && Claims(rt, once, [1], [2], 1) == map[1 := 2]
  {
    hide Matches;
    var once := rows[0 := dead];
    assert Claims(rt, once, [1], [2], 0).Values == {};
    assert Twin(rt, once, 1, [2], {}) == Some(2);
  }
}
