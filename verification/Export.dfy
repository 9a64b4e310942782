/** The export to Actual (integrations/actual/export-service.ts, account-linker.ts). */
module Export {
  import opened Calendar
  import opened Domain
  import opened Gateway
  import opened Numbering
  import Reconciler
  import opened Store

  /** What one export works on: the transactions, the account links and the gateway. */
  datatype Sys = Sys(rows: seq<Row>, links: map<AccountId, string>, actual: Actual)

  /** The WHERE clause of the pending rows query: a comparison with a missing `imported_at` is not true. */
  predicate Selectable(row: Row) {
    && row.Live()
    && (|| row.importStatus != Imported
        || (row.importedAt.Some? && row.updatedAt > row.importedAt.value))
  }

  function ToImport(actualAccountId: string, id: RowId, row: Row): Payload {
    Payload(actualAccountId, IsoDay(row.EffectiveDate()), row.amountMinor, id,
            PayeeName(row), row.description, row.description, row.status == Settled)
  }

  /** The merchant name as an import carries it. */
  function PayeeName(row: Row): Option<string> {
    if Truthy(row.merchantName) then row.merchantName else None
  }

  /** Where the work on one account's batch throws, if it does. `LinkFails` may leave an Actual account behind that
      was created and not yet linked. */
  datatype Stage = LinkFails(orphan: bool) | ImportFails(taken: nat) | WriteFails(done: nat) | NothingFails

  /** The choices of the outside world for one batch: the stage that throws, the open Actual account whose name
      matches, whether the write in the catch block throws too, and the clock readings. */
  datatype Fate = Fate(stage: Stage, namesake: Option<string>, catchFails: bool, importedAt: nat -> int,
                       updatedAt: nat -> int, errorAt: int)

  /** `ensureAccountLink`: an existing link is returned unchanged; a missing one goes to the account of the name, or
      to a new one. */
  function LinkOf(s: Sys, account: AccountId, namesake: Option<string>): string {
    if account in s.links then s.links[account]
    else if namesake.Some? then namesake.value
    else ActualAccountId(s.actual.nextId)
  }

  predicate NeedsAccount(s: Sys, account: AccountId, namesake: Option<string>) {
    account !in s.links && namesake.None?
  }

  function Linked(s: Sys, account: AccountId, namesake: Option<string>): Sys {
    Sys(s.rows, s.links[account := LinkOf(s, account, namesake)],
        if NeedsAccount(s, account, namesake) then AccountCreated(s.actual) else s.actual)
  }

  function Payloads(rows: seq<Row>, actualAccountId: string, batch: seq<RowId>): (txs: seq<Payload>)
    requires forall k :: 0 <= k < |batch| ==> batch[k] < |rows|
    ensures |txs| == |batch|
    ensures forall k :: 0 <= k < |batch| ==> txs[k] == ToImport(actualAccountId, batch[k], rows[batch[k]])
  {
    seq(|batch|, k requires 0 <= k < |batch| => ToImport(actualAccountId, batch[k], rows[batch[k]]))
  }

  function MarkedRow(row: Row, actualId: Option<string>, importedAt: int, updatedAt: int): Row {
    row.(importStatus := Imported, importedAt := Some(importedAt), updatedAt := updatedAt,
         actualTransactionId := if actualId.Some? then actualId else row.actualTransactionId)
  }

  /** `addedIds.shift()` for the k-th row. */
  function Shift(added: seq<string>, k: nat): Option<string> {
    if k < |added| then Some(added[k]) else None
  }

  /** The rows after the first `n` bookkeeping writes of a batch. */
  function Marked(rows: seq<Row>, batch: seq<RowId>, added: seq<string>, f: Fate, n: nat): (r: seq<Row>)
    requires n <= |batch| && forall k :: 0 <= k < |batch| ==> batch[k] < |rows|
    ensures |r| == |rows|
  {
    if n == 0 then rows
    else
      var r := Marked(rows, batch, added, f, n - 1);
      r[batch[n - 1] := MarkedRow(r[batch[n - 1]], Shift(added, n - 1), f.importedAt(n - 1), f.updatedAt(n - 1))]
  }

  function ErrorRow(row: Row, stamp: int): Row {
    row.(importStatus := ImportError, updatedAt := stamp)
  }

  /** `updateMany` of the catch block. */
  function Errored(rows: seq<Row>, batch: seq<RowId>, stamp: int): (r: seq<Row>)
    ensures |r| == |rows|
    ensures forall i :: 0 <= i < |rows| ==> r[i] == if i in batch then ErrorRow(rows[i], stamp) else rows[i]
  {
    seq(|rows|, i requires 0 <= i < |rows| => if i in batch then ErrorRow(rows[i], stamp) else rows[i])
  }

  datatype BatchResult = Exported | Failed | Aborted

  function Caught(s: Sys, batch: seq<RowId>, f: Fate): (r: (Sys, BatchResult))
    ensures |r.0.rows| == |s.rows|
  {
    if f.catchFails then (s, Aborted) else (s.(rows := Errored(s.rows, batch, f.errorAt)), Failed)
  }

  ghost predicate InRows(rows: seq<Row>, batch: seq<RowId>) {
    forall k :: 0 <= k < |batch| ==> batch[k] < |rows|
  }

  ghost predicate Distinct(ids: seq<RowId>) {
    forall j, k :: 0 <= j < k < |ids| ==> ids[j] != ids[k]
  }

  /** One account of the export loop. */
  function ExportBatch(s: Sys, account: AccountId, batch: seq<RowId>, f: Fate): (r: (Sys, BatchResult))
    requires InRows(s.rows, batch)
    ensures |r.0.rows| == |s.rows|
  {
    if f.stage.LinkFails? then
      var orphaned := f.stage.orphan && NeedsAccount(s, account, f.namesake);
      Caught(if orphaned then s.(actual := AccountCreated(s.actual)) else s, batch, f)
    else
      var link := LinkOf(s, account, f.namesake);
      var linked := Linked(s, account, f.namesake);
      var txs := Payloads(s.rows, link, batch);
      if f.stage.ImportFails? then
        var taken := if f.stage.taken < |txs| then f.stage.taken else |txs|;
        Caught(linked.(actual := Accept(linked.actual, link, txs[..taken])), batch, f)
      else
        var added := DedupAll(linked.actual.seen, linked.actual.nextId, txs, |txs|).added;
        var sent := linked.(actual := Accept(linked.actual, link, txs));
        if f.stage.WriteFails? && f.stage.done < |batch| then
          Caught(sent.(rows := Marked(s.rows, batch, added, f, f.stage.done)), batch, f)
        else
          (sent.(rows := Marked(s.rows, batch, added, f, |batch|)), Exported)
  }

  function StateOf(db: Database, gw: FakeActualGateway): Sys
    reads db, gw
  {
    Sys(db.transactions, db.links, gw.State())
  }

  method EnsureAccountLink(db: Database, gw: FakeActualGateway, account: AccountId, namesake: Option<string>)
    returns (id: string)
    modifies db`links, gw`nextId, gw`createdAccounts
    ensures id == LinkOf(old(StateOf(db, gw)), account, namesake)
    ensures StateOf(db, gw) == Linked(old(StateOf(db, gw)), account, namesake)
  {
    if account in db.links {
      id := db.links[account];
    } else {
      if namesake.Some? {
        id := namesake.value;
      } else {
        id := gw.CreateAccount();
      }
      db.links := db.links[account := id];
    }
    assert db.links == old(db.links)[account := id];
  }

  /** `updateMany` */
  method MarkErrors(db: Database, batch: seq<RowId>, stamp: int)
    modifies db`transactions
    ensures db.transactions == Errored(old(db.transactions), batch, stamp)
  {
    var rows := db.transactions;
    db.transactions :=
      seq(|rows|, i requires 0 <= i < |rows| => if i in batch then ErrorRow(rows[i], stamp) else rows[i]);
  }

  /** The loop of bookkeeping writes; it stops where the fate says so. */
  method MarkBatch(db: Database, batch: seq<RowId>, added: seq<string>, f: Fate) returns (ok: bool)
    requires InRows(db.transactions, batch)
    modifies db`transactions
    ensures ok <==> !(f.stage.WriteFails? && f.stage.done < |batch|)
    ensures db.transactions == Marked(old(db.transactions), batch, added, f, if ok then |batch| else f.stage.done)
  {
    hide MarkedRow;
    for n := 0 to |batch|
      invariant db.transactions == Marked(old(db.transactions), batch, added, f, n)
      invariant f.stage.WriteFails? ==> n <= f.stage.done
    {
      if f.stage.WriteFails? && f.stage.done == n {
        return false;
      }
      var row := db.transactions[batch[n]];
      db.Update(batch[n], MarkedRow(row, Shift(added, n), f.importedAt(n), f.updatedAt(n)));
    }
    ok := true;
  }

  /** The body of the loop over accounts, with its try and catch. */
  method SendBatch(db: Database, gw: FakeActualGateway, account: AccountId, batch: seq<RowId>, f: Fate)
    returns (r: BatchResult)
    requires InRows(db.transactions, batch)
    modifies db`transactions, db`links, gw`seenImportIds, gw`nextId, gw`importedBatches, gw`createdAccounts
    ensures (StateOf(db, gw), r) == ExportBatch(old(StateOf(db, gw)), account, batch, f)
    ensures |db.transactions| == |old(db.transactions)|
  {
    hide ToImport, Accept, DedupAll, Marked, Errored;
    var ok := false;
    if f.stage.LinkFails? {
      if f.stage.orphan && account !in db.links && f.namesake == None {
        var orphan := gw.CreateAccount();
      }
    } else {
      var link := EnsureAccountLink(db, gw, account, f.namesake);
      var txs := Payloads(db.transactions, link, batch);
      var result := gw.ImportTransactions(link, txs, if f.stage.ImportFails? then Throws(f.stage.taken) else Answers);
      if result.Accepted? {
        assert txs[..|txs|] == txs;
        ok := MarkBatch(db, batch, result.added, f);
      }
    }
    if ok {
      return Exported;
    }
    if f.catchFails {
      return Aborted;
    }
    MarkErrors(db, batch, f.errorAt);
    return Failed;
  }

  // ------------------------------------------------------- the whole export

  predicate Chosen(row: Row, accountIds: Option<set<AccountId>>) {
    Selectable(row) && (accountIds.Some? ==> row.accountId in accountIds.value)
  }

  /** What the pending rows query may answer, up to the order of the accounts: within an account the rows come by
      timestamp. */
  ghost predicate PendingRows(rows: seq<Row>, accountIds: Option<set<AccountId>>, ids: seq<RowId>) {
    && InRows(rows, ids)
    && (forall i: RowId :: i in ids <==> i < |rows| && Chosen(rows[i], accountIds))
    && Distinct(ids)
    && InOrder(rows, ids)
  }

  ghost predicate InOrder(rows: seq<Row>, ids: seq<RowId>)
    requires InRows(rows, ids)
  {
    forall j, k :: 0 <= j < k < |ids| && rows[ids[j]].accountId == rows[ids[k]].accountId ==>
      rows[ids[j]].timestamp <= rows[ids[k]].timestamp
  }

  datatype Group = Group(accountId: AccountId, batch: seq<RowId>)

  /** The rows of one account, in the order of the query. */
  function RowsOf(rows: seq<Row>, ids: seq<RowId>, account: AccountId): (r: seq<RowId>)
    requires forall k :: 0 <= k < |ids| ==> ids[k] < |rows|
    ensures forall i :: i in r <==> i in ids && i < |rows| && rows[i].accountId == account
  {
    if ids == [] then []
    else
      var rest := RowsOf(rows, ids[..|ids| - 1], account);
      var last := ids[|ids| - 1];
      assert ids == ids[..|ids| - 1] + [last];
      if rows[last].accountId == account then rest + [last] else rest
  }

  function Total(groups: seq<Group>): nat {
    if groups == [] then 0 else Total(groups[..|groups| - 1]) + |groups[|groups| - 1].batch|
  }

  /** One group per account that occurs, holding the rows of that account. */
  ghost predicate Grouped(rows: seq<Row>, ids: seq<RowId>, groups: seq<Group>)
    requires InRows(rows, ids)
  {
    && (forall g, h :: 0 <= g < h < |groups| ==> groups[g].accountId != groups[h].accountId)
    && (forall g :: 0 <= g < |groups| ==>
          groups[g].batch == RowsOf(rows, ids, groups[g].accountId) && |groups[g].batch| > 0)
    && (forall i :: i in ids ==> exists g :: 0 <= g < |groups| && groups[g].accountId == rows[i].accountId)
    && Total(groups) == |ids|
  }

  lemma {:induction false} TotalAfterUpdate(groups: seq<Group>, g: nat, i: RowId)
    requires g < |groups|
    ensures Total(groups[g := Group(groups[g].accountId, groups[g].batch + [i])]) == Total(groups) + 1
  {
    var after := groups[g := Group(groups[g].accountId, groups[g].batch + [i])];
    if g == |groups| - 1 {
      assert after[..g] == groups[..g];
    } else {
      TotalAfterUpdate(groups[..|groups| - 1], g, i);
      assert after[..|groups| - 1] ==
             groups[..|groups| - 1][g := Group(groups[g].accountId, groups[g].batch + [i])];
    }
  }

  /** The `byAccount` map, in insertion order. */
  method GroupByAccount(rows: seq<Row>, ids: seq<RowId>) returns (groups: seq<Group>)
    requires InRows(rows, ids)
    ensures Grouped(rows, ids, groups)
  {
    hide RowsOf, Total;
    groups := [];
    GroupedNone(rows);
    for n := 0 to |ids|
      invariant Grouped(rows, ids[..n], groups)
    {
      var i := ids[n];
      var g := 0;
      while g < |groups| && groups[g].accountId != rows[i].accountId
        invariant 0 <= g <= |groups|
        invariant forall h :: 0 <= h < g ==> groups[h].accountId != rows[i].accountId
      {
        g := g + 1;
      }
      GroupedStep(rows, ids, n, groups, g);
      if g < |groups| {
        groups := groups[g := Group(groups[g].accountId, groups[g].batch + [i])];
      } else {
        groups := groups + [Group(rows[i].accountId, [i])];
      }
    }
    assert ids[..|ids|] == ids;
  }

  lemma GroupedNone(rows: seq<Row>)
    ensures Grouped(rows, [], [])
  {
  }

  lemma RowsOfStep(rows: seq<Row>, ids: seq<RowId>, n: nat, account: AccountId)
    requires InRows(rows, ids) && n < |ids|
    ensures RowsOf(rows, ids[..n + 1], account) ==
            if rows[ids[n]].accountId == account then RowsOf(rows, ids[..n], account) + [ids[n]]
            else RowsOf(rows, ids[..n], account)
  {
    assert ids[..n + 1][..n] == ids[..n];
  }

  lemma GroupedStep(rows: seq<Row>, ids: seq<RowId>, n: nat, groups: seq<Group>, g: nat)
    requires InRows(rows, ids) && n < |ids| && Grouped(rows, ids[..n], groups) && g <= |groups|
    requires forall h :: 0 <= h < g ==> groups[h].accountId != rows[ids[n]].accountId
    requires g < |groups| ==> groups[g].accountId == rows[ids[n]].accountId
    ensures g < |groups| ==>
              Grouped(rows, ids[..n + 1], groups[g := Group(groups[g].accountId, groups[g].batch + [ids[n]])])
    ensures g == |groups| ==>
              Grouped(rows, ids[..n + 1], groups + [Group(rows[ids[n]].accountId, [ids[n]])])
  {
    hide RowsOf, Total;
    var i := ids[n];
    var account := rows[i].accountId;
    assert ids[..n + 1] == ids[..n] + [i];
    forall a ensures RowsOf(rows, ids[..n + 1], a) ==
                     if a == account then RowsOf(rows, ids[..n], a) + [i] else RowsOf(rows, ids[..n], a) {
      RowsOfStep(rows, ids, n, a);
    }
    if g < |groups| {
      var after := groups[g := Group(groups[g].accountId, groups[g].batch + [i])];
      TotalAfterUpdate(groups, g, i);
      assert forall h :: 0 <= h < |groups| ==> after[h].accountId == groups[h].accountId;
    } else {
      var after := groups + [Group(account, [i])];
      NoRowsYet(rows, ids[..n], account);
      TotalAfterAppend(groups, Group(account, [i]));
      assert after[g].accountId == account;
      assert forall h :: 0 <= h < |groups| ==> after[h] == groups[h];
    }
  }

  lemma {:induction false} NoRowsYet(rows: seq<Row>, ids: seq<RowId>, account: AccountId)
    requires InRows(rows, ids) && forall i :: i in ids ==> rows[i].accountId != account
    ensures RowsOf(rows, ids, account) == []
  {
    if ids != [] {
      NoRowsYet(rows, ids[..|ids| - 1], account);
    }
  }

  lemma TotalAfterAppend(groups: seq<Group>, group: Group)
    ensures Total(groups + [group]) == Total(groups) + |group.batch|
  {
    assert (groups + [group])[..|groups|] == groups;
  }

  method FindPendingRows(db: Database, accountIds: Option<set<AccountId>>) returns (ids: seq<RowId>)
    ensures PendingRows(db.transactions, accountIds, ids)
  {
    hide Chosen;
    var rows := db.transactions;
    var order := Sort(Reconciler.ByTime(), rows);
    ids := [];
    for n := 0 to |order|
      invariant InRows(rows, ids)
      invariant forall i: RowId :: i in ids <==> i in order[..n] && i < |rows| && Chosen(rows[i], accountIds)
      invariant Distinct(ids) && InOrder(rows, ids)
    {
      assert order[..n + 1] == order[..n] + [order[n]];
      forall i | i in order[..n] ensures i != order[n] && rows[i].timestamp <= rows[order[n]].timestamp {
        var m :| 0 <= m < n && order[..n][m] == i;
        assert Before(Reconciler.ByTime(), rows, order[m], order[n]);
      }
      assert forall j :: 0 <= j < |ids| ==> ids[j] in ids;
      if Chosen(rows[order[n]], accountIds) {
        ids := ids + [order[n]];
      }
    }
    assert order[..|order|] == order;
  }

  datatype ExportRun = ExportRun(s: Sys, exported: nat, failed: nat, aborted: bool)

  ghost predicate GroupsInRows(rows: seq<Row>, groups: seq<Group>) {
    forall g :: 0 <= g < |groups| ==> InRows(rows, groups[g].batch)
  }

  /** The export after its first `n` accounts. */
  ghost function ExportAll(s: Sys, groups: seq<Group>, fate: AccountId -> Fate, n: nat): (r: ExportRun)
    requires n <= |groups| && GroupsInRows(s.rows, groups)
    ensures |r.s.rows| == |s.rows|
  {
    if n == 0 then ExportRun(s, 0, 0, false)
    else
      var r := ExportAll(s, groups, fate, n - 1);
      if r.aborted then r else ExportNext(r, groups[n - 1], fate)
  }

  ghost function ExportNext(r: ExportRun, group: Group, fate: AccountId -> Fate): (next: ExportRun)
    requires InRows(r.s.rows, group.batch)
    ensures |next.s.rows| == |r.s.rows|
  {
    var (s', result) := ExportBatch(r.s, group.accountId, group.batch, fate(group.accountId));
    match result
    case Exported => ExportRun(s', r.exported + |group.batch|, r.failed, false)
    case Failed => ExportRun(s', r.exported, r.failed + |group.batch|, false)
    case Aborted => ExportRun(s', r.exported, r.failed, true)
  }

  datatype Summary = Summary(exported: nat, failed: nat)

  /** What a whole export may come to; `None` is an exception: opening or closing the budget, or the write in a
      catch block. */
  ghost predicate ExportOutcome(s: Sys, accountIds: Option<set<AccountId>>, ids: seq<RowId>, groups: seq<Group>,
                                fate: AccountId -> Fate, openFails: bool, closeFails: bool, after: Sys,
                                r: Option<Summary>)
  {
    && PendingRows(s.rows, accountIds, ids) && Grouped(s.rows, ids, groups) && GroupsInRows(s.rows, groups)
    && var run := ExportAll(s, groups, fate, |groups|);
       if ids == [] then r == Some(Summary(0, 0)) && after == s
       else if openFails then r == None && after == s
       else after == run.s && r == (if run.aborted || closeFails then None else Some(Summary(run.exported, run.failed)))
  }

  /** `exportAccounts`: the budget is opened only when there is something to send. */
  method ExportAccounts(db: Database, gw: FakeActualGateway, accountIds: Option<set<AccountId>>,
                        fate: AccountId -> Fate, openFails: bool, closeFails: bool)
    returns (r: Option<Summary>, ghost ids: seq<RowId>, ghost groups: seq<Group>)
    modifies db`transactions, db`links, gw
    ensures ExportOutcome(old(StateOf(db, gw)), accountIds, ids, groups, fate, openFails, closeFails,
                          StateOf(db, gw), r)
    ensures r.Some? ==> r.value.exported + r.value.failed == |ids|
    ensures gw.openCount - old(gw.openCount) == (if ids == [] || openFails then 0 else 1)
    ensures gw.closeCount - old(gw.closeCount) == (if closeFails then 0 else gw.openCount - old(gw.openCount))
  {
    hide ExportBatch, RowsOf, Total, Chosen;
    var rows := db.transactions;
    var selected := FindPendingRows(db, accountIds);
    var byAccount := GroupByAccount(rows, selected);
    ids, groups := selected, byAccount;
    GroupsAreInRows(rows, ids, groups);
    if |selected| == 0 {
      return Some(Summary(0, 0)), ids, groups;
    }
    if openFails {
      return None, ids, groups;
    }
    gw.Open();
    var exported: nat, failed: nat, aborted := 0, 0, false;
    var n := 0;
    while n < |byAccount| && !aborted
      invariant 0 <= n <= |byAccount|
      invariant |db.transactions| == |rows|
      invariant ExportAll(old(StateOf(db, gw)), groups, fate, n) ==
                ExportRun(StateOf(db, gw), exported, failed, aborted)
      invariant gw.openCount == old(gw.openCount) + 1 && gw.closeCount == old(gw.closeCount)
      decreases |byAccount| - n
    {
      var g := byAccount[n];
      var result := SendBatch(db, gw, g.accountId, g.batch, fate(g.accountId));
      match result {
        case Exported => exported := exported + |g.batch|;
        case Failed => failed := failed + |g.batch|;
        case Aborted => aborted := true;
      }
      n := n + 1;
    }
    AbortedStays(old(StateOf(db, gw)), groups, fate, n, |groups|);
    EveryRowIsCounted(old(StateOf(db, gw)), groups, fate, |groups|);
    assert groups[..|groups|] == groups;
    if !closeFails {
      gw.Close();
    }
    r := if aborted || closeFails then None else Some(Summary(exported, failed));
  }

  /** Each selected row is sent in exactly one batch, that of its account. */
  lemma EachRowInOneBatch(rows: seq<Row>, ids: seq<RowId>, groups: seq<Group>, i: RowId)
    requires InRows(rows, ids) && Grouped(rows, ids, groups)
    ensures i in ids <==> exists g :: 0 <= g < |groups| && i in groups[g].batch
    ensures forall g, h :: 0 <= g < |groups| && 0 <= h < |groups| && i in groups[g].batch && i in groups[h].batch ==>
              g == h
  {
    hide RowsOf, Total;
    if i in ids {
      var g :| 0 <= g < |groups| && groups[g].accountId == rows[i].accountId;
      assert i in RowsOf(rows, ids, groups[g].accountId);
    }
  }

  lemma GroupsAreInRows(rows: seq<Row>, ids: seq<RowId>, groups: seq<Group>)
    requires InRows(rows, ids) && Grouped(rows, ids, groups)
    ensures GroupsInRows(rows, groups)
  {
    forall g, k | 0 <= g < |groups| && 0 <= k < |groups[g].batch| ensures groups[g].batch[k] < |rows| {
      assert groups[g].batch[k] in groups[g].batch;
    }
  }

  lemma {:induction false} AbortedStays(s: Sys, groups: seq<Group>, fate: AccountId -> Fate, m: nat, n: nat)
    requires m <= n <= |groups| && GroupsInRows(s.rows, groups)
    ensures ExportAll(s, groups, fate, m).aborted ==>
              ExportAll(s, groups, fate, n) == ExportAll(s, groups, fate, m)
  {
    hide ExportNext;
    if m < n {
      AbortedStays(s, groups, fate, m, n - 1);
    }
  }

  /** On normal return every selected row is counted once, as exported or as failed. */
  lemma {:induction false} EveryRowIsCounted(s: Sys, groups: seq<Group>, fate: AccountId -> Fate, n: nat)
    requires n <= |groups| && GroupsInRows(s.rows, groups)
    ensures var r := ExportAll(s, groups, fate, n);
            !r.aborted ==> r.exported + r.failed == Total(groups[..n])
  {
    hide ExportBatch;
    if n > 0 {
      EveryRowIsCounted(s, groups, fate, n - 1);
      assert groups[..n][..n - 1] == groups[..n - 1];
    } else {
      assert groups[..0] == [];
    }
  }
}
