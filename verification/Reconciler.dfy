/** Replacing pending transactions by their settled twins and expiring the ones that vanished
    (services/reconciliation/pending-reconciler.ts). */
module Reconciler {
  import opened Domain
  import opened Numbering
  import opened SetFacts
  import opened Store

  const MATCH_WINDOW_DAYS: int := 5

  predicate SameParty(rt: Runtime, a: Row, b: Row) {
    if Truthy(a.merchantName) && Truthy(b.merchantName)
    then rt.upper(a.merchantName.value) == rt.upper(b.merchantName.value)
    else rt.normalizeDescription(a.description) == rt.normalizeDescription(b.description)
  }

  predicate Matches(rt: Runtime, pending: Row, settled: Row) {
    && pending.amountMinor == settled.amountMinor
    && -MATCH_WINDOW_DAYS * DAY_MS <= pending.EffectiveDate() - settled.EffectiveDate() <= MATCH_WINDOW_DAYS * DAY_MS
    && SameParty(rt, pending, settled)
  }

  predicate Selects(row: Row, account: AccountId, status: Status) {
    row.accountId == account && row.status == status && row.Live()
  }

  function LiveRows(rows: seq<Row>, account: AccountId, status: Status): set<RowId> {
    set i: RowId | i < |rows| && Selects(rows[i], account, status)
  }

  /** What `findMany(... orderBy timestamp asc)` may answer: ties come in any order. */
  ghost predicate Answer(rows: seq<Row>, account: AccountId, status: Status, ids: seq<RowId>) {
    && InTable(rows, ids)
    && (forall i: RowId :: i in ids <==> i < |rows| && Selects(rows[i], account, status))
    && ByTimestamp(rows, ids)
  }

  ghost predicate InTable(rows: seq<Row>, ids: seq<RowId>) {
    forall i :: 0 <= i < |ids| ==> ids[i] < |rows|
  }

  ghost predicate ByTimestamp(rows: seq<Row>, ids: seq<RowId>)
    requires InTable(rows, ids)
  {
    forall j, k :: 0 <= j < k < |ids| ==> ids[j] != ids[k] && rows[ids[j]].timestamp <= rows[ids[k]].timestamp
  }

  /** Clock readings and settings of one call: `now(k)` and `stamp(k)` are the readings of turn k. */
  datatype Options = Options(nowDate: int, now: nat -> int, stamp: nat -> int, pendingExpiryDays: int,
                             seenPendingIds: set<string>)

  predicate SeenAtProvider(row: Row, seen: set<string>) {
    row.providerTransactionId.Some? && row.providerTransactionId.value in seen
  }

  predicate Expires(row: Row, o: Options, k: nat) {
    !SeenAtProvider(row, o.seenPendingIds) && o.now(k) - row.updatedAt > o.pendingExpiryDays * DAY_MS
  }

  /** `settled.find(...)` */
  function Twin(rt: Runtime, rows: seq<Row>, p: RowId, ss: seq<RowId>, claimed: set<RowId>): (r: Option<RowId>)
    requires p < |rows| && forall i :: 0 <= i < |ss| ==> ss[i] < |rows|
    ensures r.Some? ==> r.value in ss && r.value !in claimed && Matches(rt, rows[p], rows[r.value])
    ensures r.None? ==> forall s :: s in ss && s !in claimed ==> !Matches(rt, rows[p], rows[s])
  {
    if ss == [] then None
    else if ss[0] !in claimed && Matches(rt, rows[p], rows[ss[0]]) then Some(ss[0])
    else Twin(rt, rows, p, ss[1..], claimed)
  }

  /** Which settled row each of the first `n` pendings claims. */
  ghost function Claims(rt: Runtime, rows: seq<Row>, ps: seq<RowId>, ss: seq<RowId>, n: nat): (m: map<RowId, RowId>)
    requires n <= |ps| && InTable(rows, ps) && InTable(rows, ss)
  {
    if n == 0 then map[]
    else
      var m := Claims(rt, rows, ps, ss, n - 1);
      match Twin(rt, rows, ps[n - 1], ss, m.Values)
      case Some(s) => m[ps[n - 1] := s]
      case None => m
  }

  /** Which of the first `n` pendings expire. */
  ghost function Expiries(rt: Runtime, rows: seq<Row>, ps: seq<RowId>, ss: seq<RowId>, o: Options, n: nat): set<RowId>
    requires n <= |ps| && InTable(rows, ps) && InTable(rows, ss)
  {
    if n == 0 then {}
    else
      var e := Expiries(rt, rows, ps, ss, o, n - 1);
      var m := Claims(rt, rows, ps, ss, n - 1);
      if Twin(rt, rows, ps[n - 1], ss, m.Values).None? && Expires(rows[ps[n - 1]], o, n - 1)
      then e + {ps[n - 1]} else e
  }

  /** Turn `k` soft-deletes its pending: merged into a twin, or expired. */
  ghost predicate Goes(rt: Runtime, rows: seq<Row>, ps: seq<RowId>, ss: seq<RowId>, o: Options, k: nat)
    requires k < |ps| && InTable(rows, ps) && InTable(rows, ss)
  {
    || Twin(rt, rows, ps[k], ss, Claims(rt, rows, ps, ss, k).Values).Some?
    || Expires(rows[ps[k]], o, k)
  }

  function SoftDeleted(row: Row, nowDate: int, stamp: int): Row {
    row.(deletedAt := Some(nowDate), updatedAt := stamp)
  }

  /** The table after the first `n` turns: decisions are taken on the rows as they were queried. */
  ghost function Reconciled(rt: Runtime, rows: seq<Row>, ps: seq<RowId>, ss: seq<RowId>, o: Options, n: nat):
    (after: seq<Row>)
    requires n <= |ps| && InTable(rows, ps) && InTable(rows, ss)
    ensures |after| == |rows|
  {
    if n == 0 then rows
    else
      var before := Reconciled(rt, rows, ps, ss, o, n - 1);
      if Goes(rt, rows, ps, ss, o, n - 1)
      then before[ps[n - 1] := SoftDeleted(before[ps[n - 1]], o.nowDate, o.stamp(n - 1))]
      else before
  }

  function ByTime(): Scheme<Row> {
    Scheme((row: Row) => None, (a: Row, b: Row) => a.timestamp - b.timestamp)
  }

  /** `prisma.transaction.findMany`: the selected rows in the order of their timestamps. */
  method FindMany(db: Database, account: AccountId, status: Status) returns (ids: seq<RowId>)
    ensures Answer(db.transactions, account, status, ids)
  {
    hide Selects;
    var rows := db.transactions;
    var order := Sort(ByTime(), rows);
    ids := [];
    for n := 0 to |order|
      invariant InTable(rows, ids) && ByTimestamp(rows, ids)
      invariant forall i :: 0 <= i < |ids| ==> ids[i] in order[..n]
      invariant forall i: RowId :: i in ids <==> i in order[..n] && i < |rows| && Selects(rows[i], account, status)
    {
      assert order[..n + 1] == order[..n] + [order[n]];
      forall i | i in order[..n] ensures Before(ByTime(), rows, i, order[n]) {
        var m :| 0 <= m < n && order[..n][m] == i;
        assert order[m] == i;
      }
      if Selects(rows[order[n]], account, status) {
        ids := ids + [order[n]];
      }
    }
    assert order[..|order|] == order;
  }

  datatype ReconcileResult = ReconcileResult(merged: nat, expired: nat)

  /** `None` is a database failure after `breaksAt` turns; the rows written before it stay. */
  method ReconcilePending(rt: Runtime, db: Database, account: AccountId, o: Options, breaksAt: Option<nat>)
    returns (r: Option<ReconcileResult>, ghost ps: seq<RowId>, ghost ss: seq<RowId>)
    modifies db`transactions
    ensures Answer(old(db.transactions), account, Pending, ps) && Answer(old(db.transactions), account, Settled, ss)
    ensures db.transactions == Reconciled(rt, old(db.transactions), ps, ss, o, Reached(breaksAt, |ps|))
    ensures r == if breaksAt.Some? then None
                 else Some(ReconcileResult(|Claims(rt, old(db.transactions), ps, ss, |ps|)|,
                                           |Expiries(rt, old(db.transactions), ps, ss, o, |ps|)|))
  {
    hide Twin, Matches, Expires, Selects, Claims, Expiries, Reconciled, SoftDeleted, Underway, ByTimestamp;
    var rows := db.transactions;
    var pendings := FindMany(db, account, Pending);
    var settled := FindMany(db, account, Settled);
    ps, ss := pendings, settled;
    var merged, expired := 0, 0;
    var claimed: set<RowId> := {};
    UnderwayAtStart(rt, rows, pendings, settled, o);
    if |pendings| == 0 {
      UnderwayTable(rt, rows, pendings, settled, o, 0, claimed, 0, 0, rows);
      return if breaksAt.Some? then None else Some(ReconcileResult(0, 0)), ps, ss;
    }
    for n := 0 to |pendings|
      invariant |db.transactions| == |rows|
      invariant Underway(rt, rows, pendings, settled, o, n, claimed, merged, expired, db.transactions)
      invariant breaksAt.Some? ==> n <= breaksAt.value
    {
      if breaksAt == Some(n) {
        UnderwayTable(rt, rows, pendings, settled, o, n, claimed, merged, expired, db.transactions);
        return None, ps, ss;
      }
      var p := pendings[n];
      var twin := Twin(rt, rows, p, settled, claimed);
      Turn(rt, rows, pendings, settled, o, n, claimed, merged, expired, db.transactions);
      if twin.Some? {
        claimed := claimed + {twin.value};
        db.Update(p, SoftDeleted(db.transactions[p], o.nowDate, o.stamp(n)));
        merged := merged + 1;
      } else if Expires(rows[p], o, n) {
        db.Update(p, SoftDeleted(db.transactions[p], o.nowDate, o.stamp(n)));
        expired := expired + 1;
      }
    }
    UnderwayTable(rt, rows, pendings, settled, o, |pendings|, claimed, merged, expired, db.transactions);
    r := if breaksAt.Some? then None else Some(ReconcileResult(merged, expired));
  }

  /** The loop variables after `n` turns are what the specification says. */
  ghost predicate Underway(rt: Runtime, rows: seq<Row>, ps: seq<RowId>, ss: seq<RowId>, o: Options, n: nat,
                           claimed: set<RowId>, merged: nat, expired: nat, table: seq<Row>)
    requires n <= |ps| && InTable(rows, ps) && InTable(rows, ss)
  {
    && claimed == Claims(rt, rows, ps, ss, n).Values
    && merged == |Claims(rt, rows, ps, ss, n)|
    && expired == |Expiries(rt, rows, ps, ss, o, n)|
    && table == Reconciled(rt, rows, ps, ss, o, n)
  }

  lemma UnderwayAtStart(rt: Runtime, rows: seq<Row>, ps: seq<RowId>, ss: seq<RowId>, o: Options)
    requires InTable(rows, ps) && InTable(rows, ss)
    ensures Underway(rt, rows, ps, ss, o, 0, {}, 0, 0, rows)
  {
  }

  lemma UnderwayTable(rt: Runtime, rows: seq<Row>, ps: seq<RowId>, ss: seq<RowId>, o: Options, n: nat,
                      claimed: set<RowId>, merged: nat, expired: nat, table: seq<Row>)
    requires n <= |ps| && InTable(rows, ps) && InTable(rows, ss)
    requires Underway(rt, rows, ps, ss, o, n, claimed, merged, expired, table)
    ensures table == Reconciled(rt, rows, ps, ss, o, n)
    ensures merged == |Claims(rt, rows, ps, ss, n)| && expired == |Expiries(rt, rows, ps, ss, o, n)|
  {
  }

  lemma Turn(rt: Runtime, rows: seq<Row>, ps: seq<RowId>, ss: seq<RowId>, o: Options, n: nat, claimed: set<RowId>,
             merged: nat, expired: nat, table: seq<Row>)
    requires n < |ps| && InTable(rows, ps) && InTable(rows, ss) && ByTimestamp(rows, ps) && |table| == |rows|
    requires Underway(rt, rows, ps, ss, o, n, claimed, merged, expired, table)
    ensures var twin := Twin(rt, rows, ps[n], ss, claimed);
            var deleted := table[ps[n] := SoftDeleted(table[ps[n]], o.nowDate, o.stamp(n))];
            if twin.Some? then
              Underway(rt, rows, ps, ss, o, n + 1, claimed + {twin.value}, merged + 1, expired, deleted)
            else if Expires(rows[ps[n]], o, n) then
              Underway(rt, rows, ps, ss, o, n + 1, claimed, merged, expired + 1, deleted)
            else
              Underway(rt, rows, ps, ss, o, n + 1, claimed, merged, expired, table)
  {
    hide Twin, Expires, SoftDeleted;
    NotYetDecided(rt, rows, ps, ss, o, n);
    var twin := Twin(rt, rows, ps[n], ss, claimed);
    if twin.Some? {
      ClaimedValues(Claims(rt, rows, ps, ss, n), ps[n], twin.value);
    }
  }

  lemma ClaimedValues(m: map<RowId, RowId>, p: RowId, s: RowId)
    requires p !in m
    ensures m[p := s].Values == m.Values + {s}
    ensures |m[p := s]| == |m| + 1
  {
    var after := m[p := s];
    forall v | v in m.Values + {s} ensures v in after.Values {
      if v == s {
        assert after[p] == s;
      } else {
        var k :| k in m && m[k] == v;
        assert after[k] == v;
      }
    }
    assert after.Keys == m.Keys + {p};
  }

  /** Only earlier turns have decided, and each turn has its own pending. */
  lemma {:induction false} DecidedAreEarlier(rt: Runtime, rows: seq<Row>, ps: seq<RowId>, ss: seq<RowId>, o: Options,
                                             n: nat)
    requires n <= |ps| && InTable(rows, ps) && InTable(rows, ss)
    ensures forall p :: p in Claims(rt, rows, ps, ss, n) || p in Expiries(rt, rows, ps, ss, o, n) ==> p in ps[..n]
  {
    hide Twin, Expires;
    if n > 0 {
      DecidedAreEarlier(rt, rows, ps, ss, o, n - 1);
      assert ps[..n] == ps[..n - 1] + [ps[n - 1]];
    }
  }

  lemma NotYetDecided(rt: Runtime, rows: seq<Row>, ps: seq<RowId>, ss: seq<RowId>, o: Options, n: nat)
    requires n < |ps| && InTable(rows, ps) && InTable(rows, ss) && ByTimestamp(rows, ps)
    ensures ps[n] !in Claims(rt, rows, ps, ss, n) && ps[n] !in Expiries(rt, rows, ps, ss, o, n)
  {
    hide Claims, Expiries;
    DecidedAreEarlier(rt, rows, ps, ss, o, n);
  }
}
