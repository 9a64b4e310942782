/** How good the first-fit pairing of services/reconciliation/pending-reconciler.ts is: always valid and
    maximal, never worse than half of any other pairing, and optimal when the rows carry comparable names
    and their dates rise with their timestamps. */
module Pairing {
  import opened Domain
  import opened Numbering
  import opened Reconciler
  import opened SetFacts

  /** A one-to-one assignment of pendings to settled rows that respects `matches`. */
  ghost predicate IsPairing(rt: Runtime, rows: seq<Row>, m: map<RowId, RowId>, ps: seq<RowId>, ss: seq<RowId>) {
    && Injective(m)
    && (forall p :: p in m ==>
          p in ps && m[p] in ss && p < |rows| && m[p] < |rows| && Matches(rt, rows[p], rows[m[p]]))
  }

  lemma TurnIsFresh(rows: seq<Row>, ps: seq<RowId>, k: nat)
    requires k < |ps| && InTable(rows, ps) && ByTimestamp(rows, ps)
    ensures ps[k] !in ps[..k]
  {
    assert forall i :: 0 <= i < k ==> ps[..k][i] == ps[i] && ps[i] != ps[k];
  }

  lemma {:induction false} ClaimsArePairing(rt: Runtime, rows: seq<Row>, ps: seq<RowId>, ss: seq<RowId>, n: nat)
    requires n <= |ps| && InTable(rows, ps) && InTable(rows, ss) && ByTimestamp(rows, ps)
    ensures IsPairing(rt, rows, Claims(rt, rows, ps, ss, n), ps, ss)
    ensures forall p :: p in Claims(rt, rows, ps, ss, n) ==> p in ps[..n]
  {
    hide Twin, Matches, ByTimestamp;
    if n > 0 {
      ClaimsArePairing(rt, rows, ps, ss, n - 1);
      TurnIsFresh(rows, ps, n - 1);
      var before, p := Claims(rt, rows, ps, ss, n - 1), ps[n - 1];
      assert ps[..n] == ps[..n - 1] + [p];
      var twin := Twin(rt, rows, p, ss, before.Values);
      if twin.Some? {
        assert forall q :: q in before ==> before[q] in before.Values;
      }
    }
  }

  lemma {:induction false} ClaimsGrow(rt: Runtime, rows: seq<Row>, ps: seq<RowId>, ss: seq<RowId>, k: nat, n: nat)
    requires k <= n <= |ps| && InTable(rows, ps) && InTable(rows, ss) && ByTimestamp(rows, ps)
    ensures Claims(rt, rows, ps, ss, k).Values <= Claims(rt, rows, ps, ss, n).Values
    ensures Claims(rt, rows, ps, ss, k).Keys <= Claims(rt, rows, ps, ss, n).Keys
  {
    hide Twin, Matches, Claims, ByTimestamp, Injective;
    if k < n {
      ClaimsGrow(rt, rows, ps, ss, k, n - 1);
      ClaimStep(rt, rows, ps, ss, n - 1);
    }
  }

  lemma ClaimStep(rt: Runtime, rows: seq<Row>, ps: seq<RowId>, ss: seq<RowId>, k: nat)
    requires k < |ps| && InTable(rows, ps) && InTable(rows, ss) && ByTimestamp(rows, ps)
    ensures var before, after := Claims(rt, rows, ps, ss, k), Claims(rt, rows, ps, ss, k + 1);
            match Twin(rt, rows, ps[k], ss, before.Values)
            case Some(s) => && after.Values == before.Values + {s} && after.Keys == before.Keys + {ps[k]}
                            && |after| == |before| + 1 && after[ps[k]] == s
            case None => after == before
  {
    hide Twin, Matches, ByTimestamp, IsPairing;
    ClaimsArePairing(rt, rows, ps, ss, k);
    TurnIsFresh(rows, ps, k);
    var before := Claims(rt, rows, ps, ss, k);
    var twin := Twin(rt, rows, ps[k], ss, before.Values);
    if twin.Some? {
      ClaimedValues(before, ps[k], twin.value);
    }
  }

  /** Maximality: a pending left without a twin saw all its possible twins claimed. */
  lemma NoTwinLeft(rt: Runtime, rows: seq<Row>, ps: seq<RowId>, ss: seq<RowId>, p: RowId, s: RowId)
    requires InTable(rows, ps) && InTable(rows, ss) && ByTimestamp(rows, ps)
    requires p in ps && p !in Claims(rt, rows, ps, ss, |ps|)
    requires s in ss && Matches(rt, rows[p], rows[s])
    ensures s in Claims(rt, rows, ps, ss, |ps|).Values
  {
    hide Twin, Matches, Claims, ByTimestamp;
    var k :| 0 <= k < |ps| && ps[k] == p;
    var claimed := Claims(rt, rows, ps, ss, k).Values;
    ClaimStep(rt, rows, ps, ss, k);
    if Twin(rt, rows, ps[k], ss, claimed).None? {
      ClaimsGrow(rt, rows, ps, ss, k, |ps|);
      assert s in claimed;
    } else {
      ClaimsGrow(rt, rows, ps, ss, k + 1, |ps|);
    }
  }

  // ------------------------------------------------------------ counting

  /** A pairing of the pendings from turn `k` on with settled rows nobody claimed before turn `k`. */
  ghost predicate IsRemainder(rt: Runtime, rows: seq<Row>, ps: seq<RowId>, ss: seq<RowId>, k: nat, m: map<RowId, RowId>)
    requires k <= |ps| && InTable(rows, ps) && InTable(rows, ss)
  {
    && IsPairing(rt, rows, m, ps[k..], ss)
    && forall p :: p in m ==> m[p] !in Claims(rt, rows, ps, ss, k).Values
  }

  lemma PairingIsRemainder(rt: Runtime, rows: seq<Row>, ps: seq<RowId>, ss: seq<RowId>, m: map<RowId, RowId>)
    requires InTable(rows, ps) && InTable(rows, ss) && IsPairing(rt, rows, m, ps, ss)
    ensures IsRemainder(rt, rows, ps, ss, 0, m)
  {
    assert ps[0..] == ps;
  }

  lemma RemainderAtEnd(rt: Runtime, rows: seq<Row>, ps: seq<RowId>, ss: seq<RowId>, m: map<RowId, RowId>)
    requires InTable(rows, ps) && InTable(rows, ss) && IsRemainder(rt, rows, ps, ss, |ps|, m)
    ensures m == map[]
  {
    assert ps[|ps|..] == [];
    assert m.Keys == {};
  }

  /** Removing one key and one value from an injective map. */
  lemma Drop(m: map<RowId, RowId>, p: RowId, s: RowId) returns (rest: map<RowId, RowId>)
    requires Injective(m)
    ensures Injective(rest)
    ensures forall x :: x in rest <==> x in m && x != p && m[x] != s
    ensures forall x :: x in rest ==> rest[x] == m[x]
    ensures |rest| >= |m| - 2
    ensures p !in m || m[p] == s || (forall x :: x in m ==> m[x] != s) ==> |rest| >= |m| - 1
  {
    rest := map x | x in m && x != p && m[x] != s :: m[x];
    var holders := set x | x in m && m[x] == s;
    AtMostOneHolder(m, s, holders);
    assert rest.Keys == m.Keys - holders - {p};
    DifferenceCard(m.Keys, holders, p);
  }

  lemma AtMostOneHolder(m: map<RowId, RowId>, s: RowId, holders: set<RowId>)
    requires Injective(m) && forall x :: x in holders <==> x in m && m[x] == s
    ensures |holders| <= 1
  {
    if q :| q in holders {
      assert holders == {q};
    }
  }

  lemma DifferenceCard(keys: set<RowId>, holders: set<RowId>, p: RowId)
    requires |holders| <= 1
    ensures |keys - holders - {p}| >= |keys| - 2
    ensures p !in keys || p in holders || holders == {} ==> |keys - holders - {p}| >= |keys| - 1
  {
    assert |keys - holders| >= |keys| - |holders|;
    if p !in keys || p in holders {
      assert keys - holders - {p} == keys - holders;
    }
    if holders == {} {
      assert keys - holders == keys;
    }
  }

  /** Handing the value of `p` to `q`. */
  lemma Swap(m: map<RowId, RowId>, p: RowId, q: RowId) returns (rest: map<RowId, RowId>)
    requires Injective(m) && p in m && q in m && p != q
    ensures Injective(rest)
    ensures forall x :: x in rest <==> x in m && x != p
    ensures forall x :: x in rest ==> rest[x] == (if x == q then m[p] else m[x])
    ensures forall x :: x in rest ==> rest[x] != m[q]
    ensures |rest| == |m| - 1
  {
    rest := map x | x in m && x != p :: if x == q then m[p] else m[x];
    assert rest.Keys == m.Keys - {p};
    assert |rest.Keys| == |m.Keys| - 1;
  }

  /** The turn passes over the pending: nothing of the remainder is lost. */
  lemma RemainderPasses(rt: Runtime, rows: seq<Row>, ps: seq<RowId>, ss: seq<RowId>, k: nat, m: map<RowId, RowId>)
    requires k < |ps| && InTable(rows, ps) && InTable(rows, ss) && ByTimestamp(rows, ps)
    requires IsRemainder(rt, rows, ps, ss, k, m)
    requires Twin(rt, rows, ps[k], ss, Claims(rt, rows, ps, ss, k).Values).None?
    ensures IsRemainder(rt, rows, ps, ss, k + 1, m)
  {
    hide Twin, Matches, Claims, ByTimestamp, Injective;
    ClaimStep(rt, rows, ps, ss, k);
    assert ps[k..] == [ps[k]] + ps[k + 1..];
  }

  /** The turn claims `s`: pairs that avoid both its pending and `s` remain. */
  lemma RemainderClaims(rt: Runtime, rows: seq<Row>, ps: seq<RowId>, ss: seq<RowId>, k: nat, s: RowId,
                        rest: map<RowId, RowId>)
    requires k < |ps| && InTable(rows, ps) && InTable(rows, ss) && ByTimestamp(rows, ps)
    requires Twin(rt, rows, ps[k], ss, Claims(rt, rows, ps, ss, k).Values) == Some(s)
    requires IsRemainder(rt, rows, ps, ss, k, rest)
    requires forall x :: x in rest ==> x != ps[k] && rest[x] != s
    ensures IsRemainder(rt, rows, ps, ss, k + 1, rest)
  {
    hide Twin, Matches, Claims, ByTimestamp, Injective;
    ClaimStep(rt, rows, ps, ss, k);
    assert ps[k..] == [ps[k]] + ps[k + 1..];
  }

  lemma RemainderDrops(rt: Runtime, rows: seq<Row>, ps: seq<RowId>, ss: seq<RowId>, k: nat, s: RowId,
                       m: map<RowId, RowId>) returns (rest: map<RowId, RowId>)
    requires k < |ps| && InTable(rows, ps) && InTable(rows, ss) && ByTimestamp(rows, ps)
    requires IsRemainder(rt, rows, ps, ss, k, m)
    requires Twin(rt, rows, ps[k], ss, Claims(rt, rows, ps, ss, k).Values) == Some(s)
    ensures IsRemainder(rt, rows, ps, ss, k + 1, rest)
    ensures |rest| >= |m| - 2
    ensures ps[k] !in m || m[ps[k]] == s || (forall x :: x in m ==> m[x] != s) ==> |rest| >= |m| - 1
  {
    hide Twin, Matches, Claims, ByTimestamp, Injective;
    rest := Drop(m, ps[k], s);
    RemainderClaims(rt, rows, ps, ss, k, s, rest);
  }

  lemma {:induction false} RemainderAtMostTwice(rt: Runtime, rows: seq<Row>, ps: seq<RowId>, ss: seq<RowId>, k: nat,
                                                m: map<RowId, RowId>)
    requires k <= |ps| && InTable(rows, ps) && InTable(rows, ss) && ByTimestamp(rows, ps)
    requires IsRemainder(rt, rows, ps, ss, k, m)
    ensures |m| <= 2 * (|Claims(rt, rows, ps, ss, |ps|)| - |Claims(rt, rows, ps, ss, k)|)
    decreases |ps| - k
  {
    hide Twin, Matches, Claims, IsRemainder, ByTimestamp;
    if k == |ps| {
      RemainderAtEnd(rt, rows, ps, ss, m);
    } else {
      ClaimStep(rt, rows, ps, ss, k);
      match Twin(rt, rows, ps[k], ss, Claims(rt, rows, ps, ss, k).Values) {
        case None =>
          RemainderPasses(rt, rows, ps, ss, k, m);
          RemainderAtMostTwice(rt, rows, ps, ss, k + 1, m);
        case Some(s) =>
          var rest := RemainderDrops(rt, rows, ps, ss, k, s, m);
          RemainderAtMostTwice(rt, rows, ps, ss, k + 1, rest);
      }
    }
  }

  /** For arbitrary rows, one call merges at least half as many pendings as any valid pairing could. */
  lemma AtLeastHalf(rt: Runtime, rows: seq<Row>, account: AccountId, ps: seq<RowId>, ss: seq<RowId>,
                    m: map<RowId, RowId>)
    requires Answer(rows, account, Pending, ps) && Answer(rows, account, Settled, ss)
    requires IsPairing(rt, rows, m, ps, ss)
    ensures |m| <= 2 * |Claims(rt, rows, ps, ss, |ps|)|
  {
    PairingIsRemainder(rt, rows, ps, ss, m);
    RemainderAtMostTwice(rt, rows, ps, ss, 0, m);
  }

  // ---------------------------------------------------------- optimality

  predicate LiveIn(rows: seq<Row>, account: AccountId, i: int) {
    0 <= i < |rows| && rows[i].accountId == account && rows[i].Live()
  }

  /** Live rows of equal amount either all carry a merchant name or all lack one. */
  ghost predicate Comparable(rows: seq<Row>, account: AccountId) {
    forall i, j |
      LiveIn(rows, account, i) && LiveIn(rows, account, j) && rows[i].amountMinor == rows[j].amountMinor ::
      Truthy(rows[i].merchantName) <==> Truthy(rows[j].merchantName)
  }

  /** Among live rows the effective date never falls as the timestamp rises. */
  ghost predicate Rising(rows: seq<Row>, account: AccountId) {
    forall i, j :: LiveIn(rows, account, i) && LiveIn(rows, account, j) && rows[i].timestamp <= rows[j].timestamp ==>
      rows[i].EffectiveDate() <= rows[j].EffectiveDate()
  }

  /** Booked dates as the provider boundary produces them rise with the timestamps. */
  lemma BookedDaysRise(rows: seq<Row>, account: AccountId)
    requires forall i :: LiveIn(rows, account, i) ==> rows[i].bookedDate == Some(DayStart(rows[i].timestamp))
    ensures Rising(rows, account)
  {
    forall i, j | LiveIn(rows, account, i) && LiveIn(rows, account, j) && rows[i].timestamp <= rows[j].timestamp
      ensures rows[i].EffectiveDate() <= rows[j].EffectiveDate()
    {
      DayStartMonotone(rows[i].timestamp, rows[j].timestamp);
    }
  }

  /** Live rows of the account with the status, in the order of the query; not necessarily all of them. */
  ghost predicate Queried(rows: seq<Row>, account: AccountId, status: Status, ids: seq<RowId>) {
    && InTable(rows, ids) && ByTimestamp(rows, ids)
    && forall i :: i in ids ==> i < |rows| && Selects(rows[i], account, status)
  }

  ghost predicate DatesRise(rows: seq<Row>, ids: seq<RowId>)
    requires InTable(rows, ids)
  {
    forall j, k :: 0 <= j < k < |ids| ==> rows[ids[j]].EffectiveDate() <= rows[ids[k]].EffectiveDate()
  }

  /** First fit picks the earliest of the matching twins that are left. */
  lemma {:induction false} TwinIsEarliest(rt: Runtime, rows: seq<Row>, p: RowId, ss: seq<RowId>, claimed: set<RowId>,
                                          s: RowId)
    requires p < |rows| && InTable(rows, ss) && DatesRise(rows, ss)
    requires s in ss && s !in claimed && Matches(rt, rows[p], rows[s])
    ensures Twin(rt, rows, p, ss, claimed).Some?
    ensures rows[Twin(rt, rows, p, ss, claimed).value].EffectiveDate() <= rows[s].EffectiveDate()
  {
    hide Matches;
    if ss[0] !in claimed && Matches(rt, rows[p], rows[ss[0]]) {
      var k :| 0 <= k < |ss| && ss[k] == s;
    } else {
      TwinIsEarliest(rt, rows, p, ss[1..], claimed, s);
    }
  }

  /** The exchange: if `p` could take `s` or the later `s'`, and the later `q` could take `s`, then `q` can
      take `s'`. */
  lemma Exchange(rt: Runtime, p: Row, q: Row, s: Row, s': Row)
    requires Matches(rt, p, s) && Matches(rt, p, s') && Matches(rt, q, s)
    requires p.EffectiveDate() <= q.EffectiveDate() && s.EffectiveDate() <= s'.EffectiveDate()
    requires Truthy(p.merchantName) == Truthy(q.merchantName) == Truthy(s.merchantName) == Truthy(s'.merchantName)
    ensures Matches(rt, q, s')
  {
  }

  /** The turn gives `ps[k]` the twin `s`: a remainder that used another row for `ps[k]` can be rearranged
      so that only one pair is lost. */
  lemma RemainderSwaps(rt: Runtime, rows: seq<Row>, ps: seq<RowId>, ss: seq<RowId>, k: nat, s: RowId, q: RowId,
                       m: map<RowId, RowId>) returns (rest: map<RowId, RowId>)
    requires k < |ps| && InTable(rows, ps) && InTable(rows, ss) && ByTimestamp(rows, ps)
    requires IsRemainder(rt, rows, ps, ss, k, m)
    requires Twin(rt, rows, ps[k], ss, Claims(rt, rows, ps, ss, k).Values) == Some(s)
    requires ps[k] in m && q in m && q != ps[k] && m[q] == s && Matches(rt, rows[q], rows[m[ps[k]]])
    ensures IsRemainder(rt, rows, ps, ss, k + 1, rest)
    ensures |rest| == |m| - 1
  {
    hide Twin, Matches, Claims, ByTimestamp, Injective;
    rest := Swap(m, ps[k], q);
    RemainderClaims(rt, rows, ps, ss, k, s, rest);
  }

  lemma {:induction false} RemainderAtMost(rt: Runtime, rows: seq<Row>, account: AccountId, ps: seq<RowId>,
                                           ss: seq<RowId>, k: nat, m: map<RowId, RowId>)
    requires Queried(rows, account, Pending, ps) && Queried(rows, account, Settled, ss) && k <= |ps|
    requires Comparable(rows, account) && DatesRise(rows, ps) && DatesRise(rows, ss)
    requires IsRemainder(rt, rows, ps, ss, k, m)
    ensures |m| <= |Claims(rt, rows, ps, ss, |ps|)| - |Claims(rt, rows, ps, ss, k)|
    decreases |ps| - k
  {
    hide Twin, Matches, Claims, IsRemainder, Comparable;
    if k == |ps| {
      RemainderAtEnd(rt, rows, ps, ss, m);
    } else {
      ClaimStep(rt, rows, ps, ss, k);
      match Twin(rt, rows, ps[k], ss, Claims(rt, rows, ps, ss, k).Values) {
        case None =>
          RemainderPasses(rt, rows, ps, ss, k, m);
          RemainderAtMost(rt, rows, account, ps, ss, k + 1, m);
        case Some(s) =>
          var rest := RemainderShrinksByOne(rt, rows, account, ps, ss, k, s, m);
          RemainderAtMost(rt, rows, account, ps, ss, k + 1, rest);
      }
    }
  }

  lemma RemainderShrinksByOne(rt: Runtime, rows: seq<Row>, account: AccountId, ps: seq<RowId>, ss: seq<RowId>, k: nat,
                              s: RowId, m: map<RowId, RowId>) returns (rest: map<RowId, RowId>)
    requires Queried(rows, account, Pending, ps) && Queried(rows, account, Settled, ss) && k < |ps|
    requires Comparable(rows, account) && DatesRise(rows, ps) && DatesRise(rows, ss)
    requires IsRemainder(rt, rows, ps, ss, k, m)
    requires Twin(rt, rows, ps[k], ss, Claims(rt, rows, ps, ss, k).Values) == Some(s)
    ensures IsRemainder(rt, rows, ps, ss, k + 1, rest)
    ensures |rest| >= |m| - 1
  {
    hide Twin, Claims, Matches, Comparable, IsRemainder, ByTimestamp, DatesRise;
    var p := ps[k];
    if p in m && m[p] != s && exists q :: q in m && m[q] == s {
      var q :| q in m && m[q] == s;
      CanExchange(rt, rows, account, ps, ss, k, s, q, m);
      rest := RemainderSwaps(rt, rows, ps, ss, k, s, q, m);
    } else {
      rest := RemainderDrops(rt, rows, ps, ss, k, s, m);
    }
  }

  lemma CanExchange(rt: Runtime, rows: seq<Row>, account: AccountId, ps: seq<RowId>, ss: seq<RowId>, k: nat,
                    s: RowId, q: RowId, m: map<RowId, RowId>)
    requires Queried(rows, account, Pending, ps) && Queried(rows, account, Settled, ss) && k < |ps|
    requires Comparable(rows, account) && DatesRise(rows, ps) && DatesRise(rows, ss)
    requires IsRemainder(rt, rows, ps, ss, k, m)
    requires Twin(rt, rows, ps[k], ss, Claims(rt, rows, ps, ss, k).Values) == Some(s)
    requires ps[k] in m && q in m && m[q] == s
    ensures q < |rows| && m[ps[k]] < |rows| && Matches(rt, rows[q], rows[m[ps[k]]])
  {
    hide Twin, Claims, SameParty;
    var p := ps[k];
    TwinIsEarliest(rt, rows, p, ss, Claims(rt, rows, ps, ss, k).Values, m[p]);
    LaterDate(rows, ps, k, q);
    assert LiveIn(rows, account, p) && LiveIn(rows, account, q);
    assert LiveIn(rows, account, s) && LiveIn(rows, account, m[p]);
    Exchange(rt, rows[p], rows[q], rows[s], rows[m[p]]);
  }

  lemma LaterDate(rows: seq<Row>, ps: seq<RowId>, k: nat, q: RowId)
    requires InTable(rows, ps) && DatesRise(rows, ps) && k < |ps| && q in ps[k..]
    ensures q in ps && rows[ps[k]].EffectiveDate() <= rows[q].EffectiveDate()
  {
    var j :| 0 <= j < |ps[k..]| && ps[k..][j] == q;
    assert ps[k + j] == q;
  }

  /** The turns of a prefix do not depend on what follows. */
  lemma {:induction false} ClaimsOfPrefix(rt: Runtime, rows: seq<Row>, ps: seq<RowId>, ss: seq<RowId>, k: nat, n: nat)
    requires k <= n <= |ps| && InTable(rows, ps) && InTable(rows, ss)
    ensures Claims(rt, rows, ps[..n], ss, k) == Claims(rt, rows, ps, ss, k)
  {
    hide Twin;
    if k > 0 {
      ClaimsOfPrefix(rt, rows, ps, ss, k - 1, n);
    }
  }

  lemma PrefixIsQueried(rows: seq<Row>, account: AccountId, status: Status, ids: seq<RowId>, n: nat)
    requires Queried(rows, account, status, ids) && DatesRise(rows, ids) && n <= |ids|
    ensures Queried(rows, account, status, ids[..n]) && DatesRise(rows, ids[..n])
  {
    hide Selects;
  }

  /** After any number of turns, first fit has merged as many of the pendings so far as any pairing of them. */
  lemma PrefixIsOptimal(rt: Runtime, rows: seq<Row>, account: AccountId, ps: seq<RowId>, ss: seq<RowId>, n: nat,
                        m: map<RowId, RowId>)
    requires Queried(rows, account, Pending, ps) && Queried(rows, account, Settled, ss) && n <= |ps|
    requires Comparable(rows, account) && DatesRise(rows, ps) && DatesRise(rows, ss)
    requires IsPairing(rt, rows, m, ps[..n], ss)
    ensures |m| <= |Claims(rt, rows, ps, ss, n)|
    ensures IsPairing(rt, rows, Claims(rt, rows, ps, ss, n), ps[..n], ss)
  {
    hide Matches, Claims, Comparable, ByTimestamp, DatesRise, IsPairing;
    var prefix := ps[..n];
    PrefixIsQueried(rows, account, Pending, ps, n);
    ClaimsOfPrefix(rt, rows, ps, ss, n, n);
    PairingIsRemainder(rt, rows, prefix, ss, m);
    RemainderAtMost(rt, rows, account, prefix, ss, 0, m);
    ClaimsArePairing(rt, rows, prefix, ss, n);
    NoClaimsYet(rt, rows, prefix, ss);
  }

  /** First fit is optimal: with comparable names and rising dates, one call merges as many pendings as any
      one-to-one pairing that respects `matches`. */
  lemma FirstFitIsOptimal(rt: Runtime, rows: seq<Row>, account: AccountId, ps: seq<RowId>, ss: seq<RowId>,
                          m: map<RowId, RowId>)
    requires Answer(rows, account, Pending, ps) && Answer(rows, account, Settled, ss)
    requires Comparable(rows, account) && Rising(rows, account)
    requires IsPairing(rt, rows, m, ps, ss)
    ensures |m| <= |Claims(rt, rows, ps, ss, |ps|)|
    ensures IsPairing(rt, rows, Claims(rt, rows, ps, ss, |ps|), ps, ss)
  {
    hide Matches, Claims, Comparable, Rising, ByTimestamp, IsPairing;
    AnswerDatesRise(rows, account, Pending, ps);
    AnswerDatesRise(rows, account, Settled, ss);
    assert ps[..|ps|] == ps;
    PrefixIsOptimal(rt, rows, account, ps, ss, |ps|, m);
  }

  // ------------------------------------------------- which pendings are merged

  /** The k-th pending adds to what can be merged: with it some pairing is larger than every one without it. */
  ghost predicate Adds(rt: Runtime, rows: seq<Row>, ps: seq<RowId>, ss: seq<RowId>, k: int) {
    0 <= k < |ps| && exists m :: Largest(rt, rows, ps, ss, k, m)
  }

  ghost predicate Largest(rt: Runtime, rows: seq<Row>, ps: seq<RowId>, ss: seq<RowId>, k: nat, m: map<RowId, RowId>)
    requires k < |ps|
  {
    && IsPairing(rt, rows, m, ps[..k + 1], ss)
    && forall without | IsPairing(rt, rows, without, ps[..k], ss) :: |without| < |m|
  }

  lemma UnclaimedBefore(rt: Runtime, rows: seq<Row>, ps: seq<RowId>, ss: seq<RowId>, k: nat)
    requires k < |ps| && InTable(rows, ps) && InTable(rows, ss) && ByTimestamp(rows, ps)
    ensures ps[k] !in Claims(rt, rows, ps, ss, k)
  {
    hide Claims, IsPairing;
    ClaimsArePairing(rt, rows, ps, ss, k);
    TurnIsFresh(rows, ps, k);
  }

  lemma {:induction false} ClaimedAtItsTurn(rt: Runtime, rows: seq<Row>, ps: seq<RowId>, ss: seq<RowId>, k: nat, n: nat)
    requires k < n <= |ps| && InTable(rows, ps) && InTable(rows, ss) && ByTimestamp(rows, ps)
    ensures ps[k] in Claims(rt, rows, ps, ss, n) <==>
            |Claims(rt, rows, ps, ss, k + 1)| == |Claims(rt, rows, ps, ss, k)| + 1
  {
    hide Twin, Claims, ByTimestamp;
    ClaimStep(rt, rows, ps, ss, n - 1);
    if k < n - 1 {
      ClaimedAtItsTurn(rt, rows, ps, ss, k, n - 1);
      TurnIsFresh(rows, ps, n - 1);
      assert ps[..n - 1][k] == ps[k];
      assert ps[k] in Claims(rt, rows, ps, ss, n) <==> ps[k] in Claims(rt, rows, ps, ss, n).Keys;
    } else {
      UnclaimedBefore(rt, rows, ps, ss, k);
    }
  }

  /** With comparable names and rising dates a pending is merged exactly when it adds to what can be merged. */
  lemma MergedExactlyWhenItAdds(rt: Runtime, rows: seq<Row>, account: AccountId, ps: seq<RowId>, ss: seq<RowId>, k: nat)
    requires Answer(rows, account, Pending, ps) && Answer(rows, account, Settled, ss) && k < |ps|
    requires Comparable(rows, account) && Rising(rows, account)
    ensures ps[k] in Claims(rt, rows, ps, ss, |ps|) <==> Adds(rt, rows, ps, ss, k)
  {
    hide Claims, Comparable, Rising, ByTimestamp, IsPairing;
    AnswerDatesRise(rows, account, Pending, ps);
    AnswerDatesRise(rows, account, Settled, ss);
    ClaimedAtItsTurn(rt, rows, ps, ss, k, |ps|);
    ClaimStep(rt, rows, ps, ss, k);
    var before, after := Claims(rt, rows, ps, ss, k), Claims(rt, rows, ps, ss, k + 1);
    NoPairs(rt, rows, ps[..k], ss);
    NoPairs(rt, rows, ps[..k + 1], ss);
    PrefixIsOptimal(rt, rows, account, ps, ss, k, map[]);
    PrefixIsOptimal(rt, rows, account, ps, ss, k + 1, map[]);
    forall m | IsPairing(rt, rows, m, ps[..k], ss) ensures |m| <= |before| {
      PrefixIsOptimal(rt, rows, account, ps, ss, k, m);
    }
    forall m | IsPairing(rt, rows, m, ps[..k + 1], ss) ensures |m| <= |after| {
      PrefixIsOptimal(rt, rows, account, ps, ss, k + 1, m);
    }
    if |after| == |before| + 1 {
      assert Largest(rt, rows, ps, ss, k, after);
    }
  }

  lemma NoPairs(rt: Runtime, rows: seq<Row>, ps: seq<RowId>, ss: seq<RowId>)
    ensures IsPairing(rt, rows, map[], ps, ss)
  {
  }

  lemma NoClaimsYet(rt: Runtime, rows: seq<Row>, ps: seq<RowId>, ss: seq<RowId>)
    requires InTable(rows, ps) && InTable(rows, ss)
    ensures Claims(rt, rows, ps, ss, 0) == map[]
  {
  }

  lemma AnswerDatesRise(rows: seq<Row>, account: AccountId, status: Status, ids: seq<RowId>)
    requires Answer(rows, account, status, ids) && Rising(rows, account)
    ensures DatesRise(rows, ids)
  {
    forall j, k | 0 <= j < k < |ids| ensures rows[ids[j]].EffectiveDate() <= rows[ids[k]].EffectiveDate() {
      assert ids[j] in ids && ids[k] in ids;
      assert LiveIn(rows, account, ids[j]) && LiveIn(rows, account, ids[k]);
    }
  }

  // -------------------------------------------- when first fit loses a pair

  ghost predicate FourRows(rows: seq<Row>) {
    && |rows| == 4 && rows[0].status == rows[1].status == Pending && rows[2].status == rows[3].status == Settled
    && (forall i :: 0 <= i < 4 ==> rows[i].accountId == "a" && rows[i].Live())
    && rows[0].timestamp <= rows[1].timestamp && rows[2].timestamp <= rows[3].timestamp
  }

  /** One pending is merged where two could be. */
  ghost predicate LosesOne(rt: Runtime, rows: seq<Row>, ps: seq<RowId>, ss: seq<RowId>, m: map<RowId, RowId>) {
    && Answer(rows, "a", Pending, ps) && Answer(rows, "a", Settled, ss)
    && IsPairing(rt, rows, m, ps, ss) && |m| == 2
    && |Claims(rt, rows, ps, ss, |ps|)| == 1
  }

  /** Two pendings that can both be merged, the first of which takes the only twin of the second. */
  lemma FirstTakesTheOnlyTwin(rt: Runtime, rows: seq<Row>)
    requires FourRows(rows)
    requires Matches(rt, rows[0], rows[2]) && Matches(rt, rows[0], rows[3])
    requires Matches(rt, rows[1], rows[2]) && !Matches(rt, rows[1], rows[3])
    ensures LosesOne(rt, rows, [0, 1], [2, 3], map[0 := 3, 1 := 2])
  {
    hide Matches, Answer;
    var ps, ss := [0, 1], [2, 3];
    FourRowsAnswer(rows);
    assert Claims(rt, rows, ps, ss, 0).Values == {};
    assert Twin(rt, rows, 0, ss, {}) == Some(2);
    assert Claims(rt, rows, ps, ss, 1) == map[0 := 2];
    assert map[0 := 2].Values == {2} by { assert map[0 := 2][0] == 2; }
    assert ss[1..] == [3] && [3][1..] == [];
    assert Twin(rt, rows, 1, [3], {2}).None?;
    assert Twin(rt, rows, 1, ss, {2}).None?;
  }

  lemma FourRowsAnswer(rows: seq<Row>)
    requires FourRows(rows)
    ensures Answer(rows, "a", Pending, [0, 1]) && Answer(rows, "a", Settled, [2, 3])
  {
  }
}
