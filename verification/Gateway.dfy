/** The deduplicating gateway to Actual (integrations/actual/gateway.ts, fake-gateway.ts). */
module Gateway {
  import opened Domain
  import opened SetFacts
  import opened Text

  /** `importedId` is the local transaction id, Actual's dedup key. */
  datatype Payload = Payload(account: string, date: string, amount: int, importedId: RowId, payeeName: Option<string>,
                             importedPayee: string, notes: string, cleared: bool)

  datatype ImportedBatch = ImportedBatch(accountId: string, transactions: seq<Payload>)

  /** The state of the gateway: which Actual transaction each local id became, and what was accepted. */
  datatype Actual = Actual(seen: map<RowId, string>, nextId: nat, batches: seq<ImportedBatch>)

  function ActualTxId(n: nat): string { "actual-tx-" + DecNat(n) }

  function ActualAccountId(n: nat): string { "actual-acc-" + DecNat(n) }

  /** The gateway after creating an account: accounts and transactions take their ids from one counter. */
  function AccountCreated(a: Actual): Actual { a.(nextId := a.nextId + 1) }

  /** The dedup loop over the first `n` payloads. */
  datatype Dedup = Dedup(seen: map<RowId, string>, nextId: nat, added: seq<string>, updated: seq<string>)

  function DedupOne(d: Dedup, id: RowId): Dedup {
    if id in d.seen then d.(updated := d.updated + [d.seen[id]])
    else Dedup(d.seen[id := ActualTxId(d.nextId)], d.nextId + 1, d.added + [ActualTxId(d.nextId)], d.updated)
  }

  function DedupAll(seen: map<RowId, string>, nextId: nat, txs: seq<Payload>, n: nat): Dedup
    requires n <= |txs|
  {
    if n == 0 then Dedup(seen, nextId, [], [])
    else DedupOne(DedupAll(seen, nextId, txs, n - 1), txs[n - 1].importedId)
  }

  /** The gateway after it took `txs`. */
  function Accept(a: Actual, accountId: string, txs: seq<Payload>): Actual {
    var d := DedupAll(a.seen, a.nextId, txs, |txs|);
    Actual(d.seen, d.nextId, a.batches + [ImportedBatch(accountId, txs)])
  }

  /** The last payload accepted for each local id. */
  function Overlay(m: map<RowId, Payload>, txs: seq<Payload>): map<RowId, Payload> {
    if txs == [] then m
    else Overlay(m, txs[..|txs| - 1])[txs[|txs| - 1].importedId := txs[|txs| - 1]]
  }

  function Mirror(batches: seq<ImportedBatch>): map<RowId, Payload> {
    if batches == [] then map[]
    else Overlay(Mirror(batches[..|batches| - 1]), batches[|batches| - 1].transactions)
  }

  datatype ImportResult = Accepted(added: seq<string>, updated: seq<string>) | Thrown

  /** How a call to the gateway goes: it answers, or it throws after it has taken a number of payloads. The
      test double with `failImports` set throws having taken none. */
  datatype GatewayFate = Answers | Throws(taken: nat)

  class FakeActualGateway {
    var seenImportIds: map<RowId, string>
    var nextId: nat
    var importedBatches: seq<ImportedBatch>
    var createdAccounts: seq<string>
    var openCount: nat
    var closeCount: nat

    constructor ()
      ensures State() == Actual(map[], 1, []) && createdAccounts == [] && openCount == closeCount == 0
    {
      seenImportIds, nextId, importedBatches, createdAccounts, openCount, closeCount := map[], 1, [], [], 0, 0;
    }

    method CreateAccount() returns (id: string)
      modifies this`nextId, this`createdAccounts
      ensures State() == AccountCreated(old(State())) && id == ActualAccountId(old(nextId))
      ensures createdAccounts == old(createdAccounts) + [id]
    {
      id := ActualAccountId(nextId);
      nextId := nextId + 1;
      createdAccounts := createdAccounts + [id];
    }

    method Open()
      modifies this`openCount
      ensures openCount == old(openCount) + 1
    {
      openCount := openCount + 1;
    }

    method Close()
      modifies this`closeCount
      ensures closeCount == old(closeCount) + 1
    {
      closeCount := closeCount + 1;
    }

    function State(): Actual
      reads this`seenImportIds, this`nextId, this`importedBatches
    {
      Actual(seenImportIds, nextId, importedBatches)
    }

    method ImportTransactions(accountId: string, transactions: seq<Payload>, fate: GatewayFate)
      returns (r: ImportResult)
      modifies this`seenImportIds, this`nextId, this`importedBatches
      ensures var taken := if fate.Throws? && fate.taken < |transactions| then fate.taken else |transactions|;
              && State() == Accept(old(State()), accountId, transactions[..taken])
              && var d := DedupAll(old(seenImportIds), old(nextId), transactions, |transactions|);
                 r == if fate.Throws? then Thrown else Accepted(d.added, d.updated)
    {
      var taken := if fate.Throws? && fate.taken < |transactions| then fate.taken else |transactions|;
      var txs := transactions[..taken];
      importedBatches := importedBatches + [ImportedBatch(accountId, txs)];
      var added: seq<string>, updated: seq<string> := [], [];
      for n := 0 to |txs|
        invariant importedBatches == old(importedBatches) + [ImportedBatch(accountId, txs)]
        invariant DedupAll(old(seenImportIds), old(nextId), txs, n) == Dedup(seenImportIds, nextId, added, updated)
      {
        var tx := txs[n];
        if tx.importedId in seenImportIds {
          updated := updated + [seenImportIds[tx.importedId]];
        } else {
          var id := ActualTxId(nextId);
          nextId := nextId + 1;
          seenImportIds := seenImportIds[tx.importedId := id];
          added := added + [id];
        }
      }
      assert fate.Answers? ==> txs == transactions;
      r := if fate.Throws? then Thrown else Accepted(added, updated);
    }
  }

  // ---------------------------------------------------- no duplicates in Actual

  /** Every local id has one Actual transaction and every Actual transaction one local id. */
  ghost predicate OneToOne(seen: map<RowId, string>, nextId: nat) {
    && Injective(seen)
    && (forall id :: id in seen ==> exists k: nat :: k < nextId && seen[id] == ActualTxId(k))
  }

  lemma ActualTxIdInjective(a: nat, b: nat)
    requires ActualTxId(a) == ActualTxId(b)
    ensures a == b
  {
    assert DecNat(a) == ActualTxId(a)[10..] && DecNat(b) == ActualTxId(b)[10..];
    ValueOfDecNat(a);
    ValueOfDecNat(b);
  }

  lemma FreshIdIsNew(seen: map<RowId, string>, nextId: nat)
    requires OneToOne(seen, nextId)
    ensures forall id :: id in seen ==> seen[id] != ActualTxId(nextId)
  {
    forall id | id in seen ensures seen[id] != ActualTxId(nextId) {
      var k: nat :| k < nextId && seen[id] == ActualTxId(k);
      if ActualTxId(k) == ActualTxId(nextId) {
        ActualTxIdInjective(k, nextId);
      }
    }
  }

  ghost predicate Extends(seen: map<RowId, string>, later: map<RowId, string>) {
    forall id :: id in seen ==> id in later && later[id] == seen[id]
  }

  lemma DedupOneKeeps(d: Dedup, id: RowId)
    requires OneToOne(d.seen, d.nextId)
    ensures var e := DedupOne(d, id);
            && OneToOne(e.seen, e.nextId)
            && Extends(d.seen, e.seen)
            && e.seen.Keys == d.seen.Keys + {id}
            && |e.seen| - |d.seen| == |e.added| - |d.added|
            && |e.added| + |e.updated| == |d.added| + |d.updated| + 1
            && e.added == (if id in d.seen then d.added else d.added + [e.seen[id]])
  {
    hide ActualTxId;
    FreshIdIsNew(d.seen, d.nextId);
    var e := DedupOne(d, id);
    if id !in d.seen {
      assert e.seen[id] == ActualTxId(d.nextId);
      assert e.seen.Keys == d.seen.Keys + {id};
      forall x | x in e.seen ensures exists k: nat :: k < e.nextId && e.seen[x] == ActualTxId(k) {
        if x != id {
          var k: nat :| k < d.nextId && d.seen[x] == ActualTxId(k);
        }
      }
    } else {
      assert d.seen.Keys == d.seen.Keys + {id};
    }
  }

  ghost function IdSet(txs: seq<Payload>, n: nat): (ids: set<RowId>)
    requires n <= |txs|
    ensures forall k :: 0 <= k < n ==> txs[k].importedId in ids
  {
    if n == 0 then {} else IdSet(txs, n - 1) + {txs[n - 1].importedId}
  }

  /** Whatever is imported, in whatever pieces and however often: no local id is ever given a second Actual
      transaction, and the number of Actual transactions grows by what was reported as added. */
  lemma {:induction false} NoDuplicates(seen: map<RowId, string>, nextId: nat, txs: seq<Payload>, n: nat)
    requires OneToOne(seen, nextId) && n <= |txs|
    ensures OneToOne(DedupAll(seen, nextId, txs, n).seen, DedupAll(seen, nextId, txs, n).nextId)
    ensures Extends(seen, DedupAll(seen, nextId, txs, n).seen)
    ensures |DedupAll(seen, nextId, txs, n).seen| == |seen| + |DedupAll(seen, nextId, txs, n).added|
    ensures |DedupAll(seen, nextId, txs, n).added| + |DedupAll(seen, nextId, txs, n).updated| == n
  {
    hide DedupOne, OneToOne, Extends;
    if n == 0 {
      ExtendsTransitive(seen, seen, seen);
    } else {
      NoDuplicates(seen, nextId, txs, n - 1);
      var d := DedupAll(seen, nextId, txs, n - 1);
      var e := DedupOne(d, txs[n - 1].importedId);
      assert DedupAll(seen, nextId, txs, n) == e;
      DedupOneKeeps(d, txs[n - 1].importedId);
      ExtendsTransitive(seen, d.seen, e.seen);
    }
  }

  lemma {:induction false} KnownAfter(seen: map<RowId, string>, nextId: nat, txs: seq<Payload>, n: nat)
    requires n <= |txs|
    ensures DedupAll(seen, nextId, txs, n).seen.Keys == seen.Keys + IdSet(txs, n)
  {
    if n > 0 {
      KnownAfter(seen, nextId, txs, n - 1);
      var d := DedupAll(seen, nextId, txs, n - 1);
      assert DedupOne(d, txs[n - 1].importedId).seen.Keys == d.seen.Keys + {txs[n - 1].importedId};
    }
  }

  lemma ExtendsTransitive(a: map<RowId, string>, b: map<RowId, string>, c: map<RowId, string>)
    ensures Extends(a, a)
    ensures Extends(a, b) && Extends(b, c) ==> Extends(a, c)
  {
  }

  // --------------------------------------------------- pairing of added ids

  ghost predicate DistinctIds(txs: seq<Payload>) {
    forall j, k :: 0 <= j < k < |txs| ==> txs[j].importedId != txs[k].importedId
  }

  function Ids(txs: seq<Payload>): (ids: seq<RowId>)
    ensures |ids| == |txs| && forall k :: 0 <= k < |txs| ==> ids[k] == txs[k].importedId
  {
    seq(|txs|, k requires 0 <= k < |txs| => txs[k].importedId)
  }

  /** The local ids, among the first `n`, that Actual has not seen before, in order. */
  function NewIds(seen: map<RowId, string>, txs: seq<Payload>, n: nat): seq<RowId>
    requires n <= |txs|
  {
    if n == 0 then []
    else if txs[n - 1].importedId in seen then NewIds(seen, txs, n - 1)
    else NewIds(seen, txs, n - 1) + [txs[n - 1].importedId]
  }

  lemma {:induction false} NotInPrefix(txs: seq<Payload>, m: nat, n: nat)
    requires m <= n < |txs| && DistinctIds(txs)
    ensures txs[n].importedId !in IdSet(txs, m)
  {
    if m > 0 {
      NotInPrefix(txs, m - 1, n);
    }
  }

  lemma KnownBefore(seen: map<RowId, string>, nextId: nat, txs: seq<Payload>, n: nat)
    requires n < |txs| && DistinctIds(txs)
    ensures txs[n].importedId in DedupAll(seen, nextId, txs, n).seen <==> txs[n].importedId in seen
  {
    hide DedupAll, IdSet;
    KnownAfter(seen, nextId, txs, n);
    NotInPrefix(txs, n, n);
    var later := DedupAll(seen, nextId, txs, n).seen;
    assert txs[n].importedId in later <==> txs[n].importedId in later.Keys;
  }

  /** The added ids are those of the new rows, in the order of the batch. */
  lemma {:induction false} AddedAreNew(seen: map<RowId, string>, nextId: nat, txs: seq<Payload>, n: nat)
    requires OneToOne(seen, nextId) && n <= |txs| && DistinctIds(txs)
    ensures |NewIds(seen, txs, n)| <= n
    ensures BelongTo(DedupAll(seen, nextId, txs, n), NewIds(seen, txs, n))
  {
    hide DedupOne, OneToOne, BelongTo, Extends, DistinctIds;
    if n == 0 {
      BelongNone(DedupAll(seen, nextId, txs, 0));
    } else {
      var id := txs[n - 1].importedId;
      var d := DedupAll(seen, nextId, txs, n - 1);
      AddedAreNew(seen, nextId, txs, n - 1);
      NoDuplicates(seen, nextId, txs, n - 1);
      KnownBefore(seen, nextId, txs, n - 1);
      BelongOne(d, NewIds(seen, txs, n - 1), id);
    }
  }

  /** The added ids are the Actual ids of `ids`, in order. */
  ghost predicate BelongTo(d: Dedup, ids: seq<RowId>) {
    && |d.added| == |ids|
    && (forall x :: 0 <= x < |ids| ==> ids[x] in d.seen && d.added[x] == d.seen[ids[x]])
  }

  lemma BelongNone(d: Dedup)
    requires d.added == []
    ensures BelongTo(d, [])
  {
  }

  lemma BelongOne(d: Dedup, ids: seq<RowId>, id: RowId)
    requires OneToOne(d.seen, d.nextId) && BelongTo(d, ids)
    ensures BelongTo(DedupOne(d, id), if id in d.seen then ids else ids + [id])
  {
    hide DedupOne, OneToOne;
    DedupOneKeeps(d, id);
  }

  /** The rows new to Actual stand at the front. */
  predicate NewFirst(seen: map<RowId, string>, ids: seq<RowId>) {
    forall j, k :: 0 <= j < k < |ids| && ids[j] in seen ==> ids[k] in seen
  }

  /** What is said of the new ids among `ids`. */
  ghost predicate FrontIsNew(seen: map<RowId, string>, ids: seq<RowId>, news: seq<RowId>) {
    && |news| <= |ids|
    && (forall id :: id in news ==> id !in seen)
    && (news <= ids <==> NewFirst(seen, ids))
    && (NewFirst(seen, ids) ==> forall k :: 0 <= k < |ids| ==> (k < |news| <==> ids[k] !in seen))
  }

  lemma KnownAtTheEnd(seen: map<RowId, string>, ids: seq<RowId>, news: seq<RowId>, id: RowId)
    requires FrontIsNew(seen, ids, news) && id in seen
    ensures FrontIsNew(seen, ids + [id], news)
  {
    var after := ids + [id];
    assert news <= after <==> news <= ids;
    if NewFirst(seen, after) {
      assert forall k :: 0 <= k < |ids| ==> after[k] == ids[k];
    }
  }

  lemma NewAtTheEnd(seen: map<RowId, string>, ids: seq<RowId>, news: seq<RowId>, id: RowId)
    requires FrontIsNew(seen, ids, news) && id !in seen && id !in ids
    ensures FrontIsNew(seen, ids + [id], news + [id])
  {
    var after := ids + [id];
    if NewFirst(seen, after) {
      assert forall k :: 0 <= k < |ids| ==> after[k] == ids[k] && after[|ids|] == id;
      assert NewFirst(seen, ids);
      assert |ids| > 0 ==> ids[|ids| - 1] !in seen;
      assert news == ids;
    }
    if news + [id] <= after {
      assert (news + [id])[|news|] == after[|news|];
      assert news == ids;
    }
  }

  lemma {:induction false} NewIdsStandInFront(seen: map<RowId, string>, txs: seq<Payload>, n: nat)
    requires n <= |txs| && DistinctIds(txs)
    ensures FrontIsNew(seen, Ids(txs)[..n], NewIds(seen, txs, n))
  {
    hide FrontIsNew;
    if n == 0 {
      NothingInFront(seen);
    } else {
      var ids, id := Ids(txs)[..n - 1], txs[n - 1].importedId;
      NewIdsStandInFront(seen, txs, n - 1);
      assert Ids(txs)[..n] == ids + [id];
      if id in seen {
        KnownAtTheEnd(seen, ids, NewIds(seen, txs, n - 1), id);
      } else {
        NewAtTheEnd(seen, ids, NewIds(seen, txs, n - 1), id);
      }
    }
  }

  lemma NothingInFront(seen: map<RowId, string>)
    ensures FrontIsNew(seen, [], [])
  {
  }

  /** The exporter hands the added ids to the rows of the batch from the front. Each id reaches its own row
      exactly when the rows new to Actual stand at the front of the batch; it then reaches just the new rows. */
  lemma ShiftPairsCorrectly(a: Actual, txs: seq<Payload>)
    requires OneToOne(a.seen, a.nextId) && DistinctIds(txs)
    ensures var d := DedupAll(a.seen, a.nextId, txs, |txs|);
            && |d.added| <= |txs|
            && (forall x :: 0 <= x < |txs| ==> txs[x].importedId in d.seen)
            && ((forall x :: 0 <= x < |d.added| ==> d.added[x] == d.seen[txs[x].importedId]) <==>
                NewFirst(a.seen, Ids(txs)))
            && (NewFirst(a.seen, Ids(txs)) ==>
                  forall x :: 0 <= x < |txs| ==> (x < |d.added| <==> txs[x].importedId !in a.seen))
  {
    hide DedupAll, NewIds, DistinctIds, NewFirst, FrontIsNew, BelongTo, OneToOne;
    var d, news := DedupAll(a.seen, a.nextId, txs, |txs|), NewIds(a.seen, txs, |txs|);
    NoDuplicates(a.seen, a.nextId, txs, |txs|);
    KnownAfter(a.seen, a.nextId, txs, |txs|);
    AddedAreNew(a.seen, a.nextId, txs, |txs|);
    NewIdsStandInFront(a.seen, txs, |txs|);
    assert Ids(txs)[..|txs|] == Ids(txs);
    ShiftsToTheFront(a.seen, d, Ids(txs), news);
  }

  lemma ShiftsToTheFront(seen: map<RowId, string>, d: Dedup, ids: seq<RowId>, news: seq<RowId>)
    requires FrontIsNew(seen, ids, news) && BelongTo(d, news) && OneToOne(d.seen, d.nextId)
    requires forall id :: id in ids ==> id in d.seen
    ensures |d.added| == |news|
    ensures (forall x :: 0 <= x < |news| ==> d.added[x] == d.seen[ids[x]]) <==> NewFirst(seen, ids)
    ensures NewFirst(seen, ids) ==> forall x :: 0 <= x < |ids| ==> (x < |news| <==> ids[x] !in seen)
  {
    hide NewFirst, OneToOne;
    forall x | 0 <= x < |news| ensures d.added[x] == d.seen[ids[x]] <==> news[x] == ids[x] {
      OwnIdOnly(d, news[x], ids[x]);
    }
    assert news <= ids <==> forall x :: 0 <= x < |news| ==> news[x] == ids[x];
  }

  lemma OwnIdOnly(d: Dedup, a: RowId, b: RowId)
    requires OneToOne(d.seen, d.nextId) && a in d.seen && b in d.seen
    ensures d.seen[a] == d.seen[b] <==> a == b
  {
  }
}
