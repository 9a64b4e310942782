/** The dirty flag of the export (`import_status`, `updated_at > imported_at`; integrations/actual/export-service.ts)
    against what Actual holds: a live row the export would pass over is mirrored as it is now, whatever has
    failed. */
module MirrorCoherence {
  import opened Calendar
  import opened Domain
  import opened Export
  import opened Gateway
  import opened Store

  ghost predicate CoherentRow(s: Sys, mirror: map<RowId, Payload>, i: RowId)
    requires i < |s.rows|
  {
    var row := s.rows[i];
    && (row.importStatus == Imported ==> row.importedAt.Some?)
    && (row.Live() && !Selectable(row) ==>
          && row.accountId in s.links
          && i in mirror
          && mirror[i] == ToImport(s.links[row.accountId], i, row))
  }

  /** Mirror coherence. */
  ghost predicate Coherent(s: Sys) {
    forall i: RowId :: i < |s.rows| ==> CoherentRow(s, Mirror(s.actual.batches), i)
  }

  // ------------------------------------------------------ what Actual holds

  lemma {:induction false} OverlayAt(m: map<RowId, Payload>, txs: seq<Payload>, id: RowId)
    requires DistinctIds(txs)
    ensures (forall k :: 0 <= k < |txs| ==> txs[k].importedId != id) ==>
              (id in Overlay(m, txs) <==> id in m) && (id in m ==> Overlay(m, txs)[id] == m[id])
    ensures forall k :: 0 <= k < |txs| && txs[k].importedId == id ==>
              id in Overlay(m, txs) && Overlay(m, txs)[id] == txs[k]
  {
    if txs != [] {
      var init := txs[..|txs| - 1];
      assert forall k :: 0 <= k < |init| ==> init[k] == txs[k];
      OverlayAt(m, init, id);
    }
  }

  lemma MirrorAfterAccept(a: Actual, link: string, txs: seq<Payload>, id: RowId)
    requires DistinctIds(txs)
    ensures var m, m' := Mirror(a.batches), Mirror(Accept(a, link, txs).batches);
            && ((forall k :: 0 <= k < |txs| ==> txs[k].importedId != id) ==>
                  (id in m' <==> id in m) && (id in m ==> m'[id] == m[id]))
            && (forall k :: 0 <= k < |txs| && txs[k].importedId == id ==> id in m' && m'[id] == txs[k])
  {
    hide DedupAll, Overlay;
    var after := a.batches + [ImportedBatch(link, txs)];
    assert after[..|after| - 1] == a.batches;
    OverlayAt(Mirror(a.batches), txs, id);
  }

  // -------------------------------------------------------------- one batch

  /** A batch as the export builds it: selectable rows of one account, each once. */
  ghost predicate BatchOf(rows: seq<Row>, account: AccountId, batch: seq<RowId>) {
    && InRows(rows, batch)
    && Distinct(batch)
    && (forall k :: 0 <= k < |batch| ==> rows[batch[k]].accountId == account && Selectable(rows[batch[k]]))
  }

  /** Bookkeeping writes leave everything the bank reported alone. */
  predicate SameBankData(a: Row, b: Row) {
    b == a.(importStatus := b.importStatus, importedAt := b.importedAt, updatedAt := b.updatedAt,
            actualTransactionId := b.actualTransactionId)
  }

  lemma SameBankDataSamePayload(link: string, i: RowId, a: Row, b: Row)
    requires SameBankData(a, b)
    ensures ToImport(link, i, a) == ToImport(link, i, b)
    ensures a.Live() == b.Live() && a.accountId == b.accountId
  {
    hide IsoDay;
  }

  lemma {:induction false} MarkedAt(rows: seq<Row>, batch: seq<RowId>, added: seq<string>, f: Fate, n: nat, i: RowId)
    requires InRows(rows, batch) && n <= |batch| && i < |rows|
    requires Distinct(batch)
    ensures var r := Marked(rows, batch, added, f, n);
            && (i !in batch[..n] ==> r[i] == rows[i])
            && (forall k :: 0 <= k < n && batch[k] == i ==>
                  r[i] == MarkedRow(rows[i], Shift(added, k), f.importedAt(k), f.updatedAt(k)))
  {
    hide MarkedRow;
    if n > 0 {
      MarkedAt(rows, batch, added, f, n - 1, i);
      assert batch[..n] == batch[..n - 1] + [batch[n - 1]];
    }
  }

  /** What one batch does to one row, depending on the part of its work that succeeded. */
  lemma BatchAt(s: Sys, account: AccountId, batch: seq<RowId>, f: Fate, i: RowId)
    requires BatchOf(s.rows, account, batch) && i < |s.rows|
    ensures var s' := ExportBatch(s, account, batch, f).0;
            && |s'.rows| == |s.rows|
            && SameBankData(s.rows[i], s'.rows[i])
            && (i !in batch ==> s'.rows[i] == s.rows[i])
            && (i in batch ==>
                  || s'.rows[i] == s.rows[i]
                  || s'.rows[i].importStatus == ImportError
                  || (!f.stage.LinkFails? && !f.stage.ImportFails? && s'.rows[i].importStatus == Imported
                      && s'.rows[i].importedAt.Some?))
  {
    hide Selectable, ToImport, Accept, DedupAll, Payloads, Marked, MarkedRow;
    if !f.stage.LinkFails? && !f.stage.ImportFails? {
      var link := LinkOf(s, account, f.namesake);
      var actual := Linked(s, account, f.namesake).actual;
      var added := DedupAll(actual.seen, actual.nextId, Payloads(s.rows, link, batch), |batch|).added;
      var done := if f.stage.WriteFails? && f.stage.done < |batch| then f.stage.done else |batch|;
      MarkedSome(s.rows, batch, added, f, done, i);
    }
  }

  lemma MarkedSome(rows: seq<Row>, batch: seq<RowId>, added: seq<string>, f: Fate, n: nat, i: RowId)
    requires InRows(rows, batch) && n <= |batch| && i < |rows|
    requires Distinct(batch)
    ensures var r := Marked(rows, batch, added, f, n);
            && SameBankData(rows[i], r[i])
            && (i !in batch[..n] ==> r[i] == rows[i])
            && (i !in batch ==> r[i] == rows[i])
            && (r[i] == rows[i] || (r[i].importStatus == Imported && r[i].importedAt.Some?))
            && (n == |batch| && i in batch ==> r[i].importStatus == Imported)
  {
    hide Marked;
    MarkedAt(rows, batch, added, f, n, i);
    if i in batch[..n] {
      var k :| 0 <= k < n && batch[..n][k] == i;
      assert batch[k] == i;
    }
    assert batch[..|batch|] == batch;
  }

  /** What one batch does to the mirror: rows outside it are mirrored as before; once the import has
      answered, every row of the batch is mirrored with its current payload. */
  lemma BatchMirrors(s: Sys, account: AccountId, batch: seq<RowId>, f: Fate, i: RowId)
    requires BatchOf(s.rows, account, batch) && i < |s.rows|
    ensures var s' := ExportBatch(s, account, batch, f).0;
            var m, m' := Mirror(s.actual.batches), Mirror(s'.actual.batches);
            && (i !in batch ==> (i in m' <==> i in m) && (i in m ==> m'[i] == m[i]))
            && (i in batch && !f.stage.LinkFails? && !f.stage.ImportFails? ==>
                  account in s'.links && i in m' && m'[i] == ToImport(s'.links[account], i, s.rows[i]))
            && (forall a :: a in s.links ==> a in s'.links && s'.links[a] == s.links[a])
  {
    hide ToImport, Accept, Mirror, DedupAll, Marked, Errored, Payloads, Selectable;
    if !f.stage.LinkFails? {
      var link := LinkOf(s, account, f.namesake);
      var taken := if f.stage.ImportFails? && f.stage.taken < |batch| then f.stage.taken else |batch|;
      var txs := Payloads(s.rows, link, batch);
      assert txs[..|txs|] == txs;
      AcceptMirrors(Linked(s, account, f.namesake).actual, s.rows, account, link, batch, taken, i);
    }
  }

  /** The mirror after the first `taken` payloads of a batch. */
  lemma AcceptMirrors(a: Actual, rows: seq<Row>, account: AccountId, link: string, batch: seq<RowId>, taken: nat,
                      i: RowId)
    requires BatchOf(rows, account, batch) && taken <= |batch| && i < |rows|
    ensures var m, m' := Mirror(a.batches), Mirror(Accept(a, link, Payloads(rows, link, batch)[..taken]).batches);
            && (i !in batch ==> (i in m' <==> i in m) && (i in m ==> m'[i] == m[i]))
            && (i in batch && taken == |batch| ==> i in m' && m'[i] == ToImport(link, i, rows[i]))
  {
    hide ToImport, Accept, Mirror, Selectable;
    var txs := Payloads(rows, link, batch);
    PayloadIds(rows, link, batch);
    assert DistinctIds(txs[..taken]);
    MirrorAfterAccept(a, link, txs[..taken], i);
    if i in batch {
      var k :| 0 <= k < |batch| && batch[k] == i;
      assert taken == |txs| ==> txs[..taken][k].importedId == i;
    }
  }

  lemma PayloadIds(rows: seq<Row>, link: string, batch: seq<RowId>)
    requires InRows(rows, batch) && Distinct(batch)
    ensures DistinctIds(Payloads(rows, link, batch))
    ensures forall k :: 0 <= k < |batch| ==> Payloads(rows, link, batch)[k].importedId == batch[k]
  {
  }

  /** Whatever stage of a batch throws, coherence survives, and so do the batches still to come. */
  lemma BatchKeepsCoherence(s: Sys, account: AccountId, batch: seq<RowId>, f: Fate)
    requires Coherent(s) && BatchOf(s.rows, account, batch)
    ensures Coherent(ExportBatch(s, account, batch, f).0)
  {
    hide ExportBatch, ToImport, Mirror;
    var s' := ExportBatch(s, account, batch, f).0;
    forall i: RowId | i < |s'.rows| ensures CoherentRow(s', Mirror(s'.actual.batches), i) {
      assert CoherentRow(s, Mirror(s.actual.batches), i);
      BatchAt(s, account, batch, f, i);
      BatchMirrors(s, account, batch, f, i);
      var row, row' := s.rows[i], s'.rows[i];
      forall link { SameBankDataSamePayload(link, i, row, row'); }
    }
  }

  // ------------------------------------------------------- the whole export

  /** The batches still to be sent are as the query selected them. */
  ghost predicate Plan(rows: seq<Row>, groups: seq<Group>, n: nat)
    requires n <= |groups|
  {
    && (forall g :: n <= g < |groups| ==> BatchOf(rows, groups[g].accountId, groups[g].batch))
    && (forall g, h :: 0 <= g < h < |groups| ==> groups[g].accountId != groups[h].accountId)
  }

  lemma {:induction false} RowsOfDistinct(rows: seq<Row>, ids: seq<RowId>, account: AccountId)
    requires InRows(rows, ids) && Distinct(ids)
    ensures Distinct(RowsOf(rows, ids, account))
  {
    if ids != [] {
      var init, last := ids[..|ids| - 1], ids[|ids| - 1];
      RowsOfDistinct(rows, init, account);
      AppendDistinct(RowsOf(rows, init, account), last);
    }
  }

  lemma AppendDistinct(ids: seq<RowId>, last: RowId)
    requires Distinct(ids) && last !in ids
    ensures Distinct(ids + [last])
  {
  }

  lemma QueryIsPlan(rows: seq<Row>, accountIds: Option<set<AccountId>>, ids: seq<RowId>, groups: seq<Group>)
    requires PendingRows(rows, accountIds, ids) && Grouped(rows, ids, groups)
    ensures Plan(rows, groups, 0)
  {
    hide RowsOf;
    forall g | 0 <= g < |groups| ensures BatchOf(rows, groups[g].accountId, groups[g].batch) {
      RowsOfIsBatch(rows, accountIds, ids, groups[g].accountId);
    }
  }

  lemma RowsOfIsBatch(rows: seq<Row>, accountIds: Option<set<AccountId>>, ids: seq<RowId>, account: AccountId)
    requires PendingRows(rows, accountIds, ids)
    ensures BatchOf(rows, account, RowsOf(rows, ids, account))
  {
    hide RowsOf, Selectable;
    var batch := RowsOf(rows, ids, account);
    RowsOfDistinct(rows, ids, account);
    forall k | 0 <= k < |batch| ensures batch[k] in ids && rows[batch[k]].accountId == account {
      assert batch[k] in batch;
    }
  }

  /** Sending one batch leaves the other batches as they were selected. */
  lemma PlanAdvances(s: Sys, groups: seq<Group>, n: nat, f: Fate)
    requires n < |groups| && Plan(s.rows, groups, n)
    ensures Plan(ExportBatch(s, groups[n].accountId, groups[n].batch, f).0.rows, groups, n + 1)
  {
    hide ExportBatch, Selectable;
    var account, batch := groups[n].accountId, groups[n].batch;
    var s' := ExportBatch(s, account, batch, f).0;
    forall g | n + 1 <= g < |groups| ensures BatchOf(s'.rows, groups[g].accountId, groups[g].batch) {
      assert BatchOf(s.rows, groups[g].accountId, groups[g].batch);
      forall k | 0 <= k < |groups[g].batch| ensures s'.rows[groups[g].batch[k]] == s.rows[groups[g].batch[k]] {
        var i := groups[g].batch[k];
        assert i !in batch by {
          assert forall l :: 0 <= l < |batch| ==> s.rows[batch[l]].accountId == account;
        }
        BatchAt(s, account, batch, f, i);
      }
    }
  }

  /** Coherence survives every export, with any failures, up to wherever it stops. */
  lemma {:induction false} ExportKeepsCoherence(s: Sys, groups: seq<Group>, fate: AccountId -> Fate, n: nat)
    requires Coherent(s) && Plan(s.rows, groups, 0) && GroupsInRows(s.rows, groups) && n <= |groups|
    ensures var r := ExportAll(s, groups, fate, n);
            Coherent(r.s) && (!r.aborted ==> Plan(r.s.rows, groups, n))
  {
    hide ExportBatch, Coherent, Plan;
    if n > 0 {
      ExportKeepsCoherence(s, groups, fate, n - 1);
      var r := ExportAll(s, groups, fate, n - 1);
      if !r.aborted {
        var group := groups[n - 1];
        PlanHead(r.s.rows, groups, n - 1);
        BatchKeepsCoherence(r.s, group.accountId, group.batch, fate(group.accountId));
        PlanAdvances(r.s, groups, n - 1, fate(group.accountId));
      }
    }
  }

  lemma PlanHead(rows: seq<Row>, groups: seq<Group>, n: nat)
    requires n < |groups| && Plan(rows, groups, n)
    ensures BatchOf(rows, groups[n].accountId, groups[n].batch)
  {
  }

  /** The result of a batch can be read off its rows: sent, they are marked as imported, and otherwise, unless the write
      in the catch block throws too, every one of them is marked as failed. */
  lemma ResultIsInTheRows(s: Sys, account: AccountId, batch: seq<RowId>, f: Fate)
    requires BatchOf(s.rows, account, batch)
    ensures var (s', result) := ExportBatch(s, account, batch, f);
            var sent := f.stage == NothingFails || (f.stage.WriteFails? && f.stage.done >= |batch|);
            && |s'.rows| == |s.rows|
            && result == (if sent then Exported else if f.catchFails then Aborted else Failed)
            && (sent ==> forall i :: i in batch ==> i < |s'.rows| && s'.rows[i].importStatus == Imported)
            && (!sent && !f.catchFails ==>
                  forall i :: i in batch ==> i < |s'.rows| && s'.rows[i].importStatus == ImportError)
  {
    hide Selectable, ToImport, Accept, DedupAll, Payloads, Marked, MarkedRow;
    var link := LinkOf(s, account, f.namesake);
    var actual := Linked(s, account, f.namesake).actual;
    var added := DedupAll(actual.seen, actual.nextId, Payloads(s.rows, link, batch), |batch|).added;
    forall i | i in batch ensures i < |s.rows| {
    }
    forall i: RowId | i in batch ensures Marked(s.rows, batch, added, f, |batch|)[i].importStatus == Imported {
      MarkedSome(s.rows, batch, added, f, |batch|, i);
    }
  }

  /** What a batch leaves of its row `k`, wherever it throws: a row whose bookkeeping was written carries the two clock
      readings of its write; when the batch failed, the catch block then flags every row, with its own stamp and nothing
      else. What Actual calls the row is said by `RowsGetTheirOwnIds`. */
  lemma FateOfASentRow(s: Sys, account: AccountId, batch: seq<RowId>, f: Fate, k: nat)
    requires BatchOf(s.rows, account, batch) && k < |batch|
    ensures var row, after := s.rows[batch[k]], ExportBatch(s, account, batch, f).0.rows[batch[k]];
            var sent := f.stage == NothingFails || (f.stage.WriteFails? && f.stage.done >= |batch|);
            var written := sent || (f.stage.WriteFails? && k < f.stage.done);
            var left := if written
                        then row.(importStatus := Imported, importedAt := Some(f.importedAt(k)),
                                  updatedAt := f.updatedAt(k), actualTransactionId := after.actualTransactionId)
                        else row;
            && after == (if sent || f.catchFails then left
                         else left.(importStatus := ImportError, updatedAt := f.errorAt))
            && (!written ==> after.actualTransactionId == row.actualTransactionId)
            && (row.actualTransactionId.Some? ==> after.actualTransactionId.Some?)
  {
    hide Selectable, ToImport, Accept, DedupAll, Payloads, Marked;
    if !f.stage.LinkFails? && !f.stage.ImportFails? {
      var link := LinkOf(s, account, f.namesake);
      var actual := Linked(s, account, f.namesake).actual;
      var added := DedupAll(actual.seen, actual.nextId, Payloads(s.rows, link, batch), |batch|).added;
      var done := if f.stage.WriteFails? && f.stage.done < |batch| then f.stage.done else |batch|;
      MarkedAt(s.rows, batch, added, f, done, batch[k]);
      NotAmongOthers(batch, k, done);
    }
  }

  lemma NotAmongOthers(batch: seq<RowId>, k: nat, n: nat)
    requires Distinct(batch) && k < |batch| && n <= |batch|
    ensures batch[k] in batch[..n] <==> k < n
  {
    if k < n {
      assert batch[..n][k] == batch[k];
    }
  }

  /** The rows of the first `n` batches. */
  function SentRows(groups: seq<Group>, n: nat): set<RowId>
    requires n <= |groups|
  {
    if n == 0 then {} else SentRows(groups, n - 1) + Members(groups[n - 1].batch)
  }

  function Members(ids: seq<RowId>): set<RowId> {
    set i | i in ids
  }

  function WithStatus(rows: seq<Row>, ids: set<RowId>, status: ImportStatus): set<RowId> {
    set i | i in ids && i < |rows| && rows[i].importStatus == status
  }

  lemma {:induction false} SentAreOfTheirAccounts(rows: seq<Row>, groups: seq<Group>, n: nat, i: RowId)
    requires Plan(rows, groups, 0) && n <= |groups| && i in SentRows(groups, n)
    ensures i < |rows| && exists g :: 0 <= g < n && rows[i].accountId == groups[g].accountId
  {
    hide Selectable;
    if i in groups[n - 1].batch {
      PlanBatch(rows, groups, n - 1, i);
    } else {
      SentAreOfTheirAccounts(rows, groups, n - 1, i);
    }
  }

  lemma {:induction false} DistinctCard(ids: seq<RowId>)
    requires Distinct(ids)
    ensures |Members(ids)| == |ids|
  {
    if ids == [] {
      assert Members(ids) == {};
    } else {
      var init, last := ids[..|ids| - 1], ids[|ids| - 1];
      DistinctCard(init);
      assert last !in Members(init);
      assert Members(ids) == Members(init) + {last} by {
        assert ids == init + [last];
      }
    }
  }

  /** The counts of an export are counts of rows: `exported` of those it marked as imported, `failed` of those it marked
      as failed. */
  lemma {:induction false} CountsAreRows(s: Sys, groups: seq<Group>, fate: AccountId -> Fate, n: nat)
    requires Plan(s.rows, groups, 0) && GroupsInRows(s.rows, groups) && n <= |groups|
    ensures var r := ExportAll(s, groups, fate, n);
            !r.aborted ==>
              && Plan(r.s.rows, groups, n)
              && r.exported == |WithStatus(r.s.rows, SentRows(groups, n), Imported)|
              && r.failed == |WithStatus(r.s.rows, SentRows(groups, n), ImportError)|
  {
    hide ExportBatch, Plan, Distinct;
    if n > 0 {
      CountsAreRows(s, groups, fate, n - 1);
      var r, group := ExportAll(s, groups, fate, n - 1), groups[n - 1];
      if !r.aborted {
        PlanHead(r.s.rows, groups, n - 1);
        PlanAdvances(r.s, groups, n - 1, fate(group.accountId));
        forall i | i in SentRows(groups, n - 1) ensures i !in group.batch {
          SentIsElsewhere(s.rows, groups, n - 1, i);
        }
        CountsOfOneMore(r.s, group, fate(group.accountId), SentRows(groups, n - 1));
      }
    }
  }

  lemma SentIsElsewhere(rows: seq<Row>, groups: seq<Group>, n: nat, i: RowId)
    requires Plan(rows, groups, 0) && n < |groups| && i in SentRows(groups, n)
    ensures i !in groups[n].batch
  {
    hide Selectable;
    SentAreOfTheirAccounts(rows, groups, n, i);
    if i in groups[n].batch {
      PlanBatch(rows, groups, n, i);
    }
  }

  lemma CardOfOneMore(rows: seq<Row>, rows': seq<Row>, before: set<RowId>, more: set<RowId>, status: ImportStatus,
                      all: bool)
    requires before !! more && |rows'| == |rows|
    requires forall i :: i in before && i < |rows| ==> rows'[i] == rows[i]
    requires forall i :: i in more ==> i < |rows'| && (rows'[i].importStatus == status <==> all)
    ensures |WithStatus(rows', before + more, status)| ==
            |WithStatus(rows, before, status)| + (if all then |more| else 0)
  {
    var was, added := WithStatus(rows, before, status), if all then more else {};
    assert WithStatus(rows', before + more, status) == was + added;
    assert was !! added;
  }

  /** A batch that was sent adds its rows to those marked as imported, and one that failed to those marked as failed. */
  lemma CountsOfOneMore(s: Sys, group: Group, f: Fate, before: set<RowId>)
    requires BatchOf(s.rows, group.accountId, group.batch) && before !! Members(group.batch)
    ensures var (s', result) := ExportBatch(s, group.accountId, group.batch, f);
            forall status: ImportStatus :: result != Aborted && (status == Imported || status == ImportError) ==>
              |WithStatus(s'.rows, before + Members(group.batch), status)| == |WithStatus(s.rows, before, status)| +
                (if status == (if result == Exported then Imported else ImportError) then |group.batch| else 0)
  {
    hide ExportBatch, Distinct, Selectable, WithStatus;
    var (s', result) := ExportBatch(s, group.accountId, group.batch, f);
    var batch := Members(group.batch);
    assert |batch| == |group.batch| by {
      DistinctCard(group.batch);
    }
    ResultIsInTheRows(s, group.accountId, group.batch, f);
    forall i: RowId | i < |s.rows| && i in before ensures s'.rows[i] == s.rows[i] {
      BatchAt(s, group.accountId, group.batch, f, i);
    }
    forall status: ImportStatus | result != Aborted && (status == Imported || status == ImportError) {
      CardOfOneMore(s.rows, s'.rows, before, batch, status,
                    status == (if result == Exported then Imported else ImportError));
    }
  }

  /** Write `k` of batch `g` writes row `i`, and reads a later clock for `updated_at` than for `imported_at`. */
  predicate ClockMoved(groups: seq<Group>, fate: AccountId -> Fate, g: int, k: int, i: RowId) {
    && 0 <= g < |groups| && 0 <= k < |groups[g].batch| && groups[g].batch[k] == i
    && fate(groups[g].accountId).updatedAt(k) > fate(groups[g].accountId).importedAt(k)
  }

  lemma FlagAfterBatch(s: Sys, account: AccountId, batch: seq<RowId>, f: Fate, i: RowId)
    requires BatchOf(s.rows, account, batch) && i < |s.rows| && f.stage == NothingFails
    ensures var (s', result) := ExportBatch(s, account, batch, f);
            && result == Exported
            && (forall k :: 0 <= k < |batch| && batch[k] == i ==>
                  s'.rows[i].accountId == account && (Selectable(s'.rows[i]) <==> f.updatedAt(k) > f.importedAt(k)))
            && (i !in batch ==> s'.rows[i] == s.rows[i])
  {
    hide ToImport, Accept, DedupAll, Payloads, Marked;
    var link := LinkOf(s, account, f.namesake);
    var actual := Linked(s, account, f.namesake).actual;
    var added := DedupAll(actual.seen, actual.nextId, Payloads(s.rows, link, batch), |batch|).added;
    MarkedAt(s.rows, batch, added, f, |batch|, i);
    assert batch[..|batch|] == batch;
  }

  lemma {:induction false} FlagAfterExport(s: Sys, groups: seq<Group>, fate: AccountId -> Fate, n: nat, i: RowId)
    requires Plan(s.rows, groups, 0) && GroupsInRows(s.rows, groups) && n <= |groups| && i < |s.rows|
    requires forall g :: 0 <= g < |groups| ==> fate(groups[g].accountId).stage == NothingFails
    ensures var r := ExportAll(s, groups, fate, n);
            && !r.aborted && r.failed == 0 && Plan(r.s.rows, groups, n)
            && (forall g, k :: 0 <= g < n && 0 <= k < |groups[g].batch| && groups[g].batch[k] == i ==>
                  r.s.rows[i].accountId == groups[g].accountId &&
                  (Selectable(r.s.rows[i]) <==> ClockMoved(groups, fate, g, k, i)))
            && ((forall g :: 0 <= g < n ==> i !in groups[g].batch) ==> r.s.rows[i] == s.rows[i])
  {
    hide ExportBatch, Selectable, BatchOf;
    if n > 0 {
      FlagAfterExport(s, groups, fate, n - 1, i);
      var r, group := ExportAll(s, groups, fate, n - 1), groups[n - 1];
      PlanHead(r.s.rows, groups, n - 1);
      PlanAdvances(r.s, groups, n - 1, fate(group.accountId));
      FlagAfterBatch(r.s, group.accountId, group.batch, fate(group.accountId), i);
      if i in group.batch {
        BatchIsOfAccount(r.s.rows, group.accountId, group.batch, i);
      }
    }
  }

  /** An export in which nothing fails leaves every row it sent marked as imported. */
  lemma {:induction false} SentIsImported(s: Sys, groups: seq<Group>, fate: AccountId -> Fate, n: nat, g: nat, i: RowId)
    requires Plan(s.rows, groups, 0) && GroupsInRows(s.rows, groups) && g < n <= |groups| && i in groups[g].batch
    requires forall h :: 0 <= h < |groups| ==> fate(groups[h].accountId).stage == NothingFails
    ensures var r := ExportAll(s, groups, fate, n);
            !r.aborted && i < |r.s.rows| && r.s.rows[i].importStatus == Imported
  {
    hide ExportBatch, Plan, BatchOf;
    PlanBatch(s.rows, groups, g, i);
    FlagAfterExport(s, groups, fate, n - 1, i);
    var r, group := ExportAll(s, groups, fate, n - 1), groups[n - 1];
    PlanHead(r.s.rows, groups, n - 1);
    ResultIsInTheRows(r.s, group.accountId, group.batch, fate(group.accountId));
    if g < n - 1 {
      SentIsImported(s, groups, fate, n - 1, g, i);
      if i in group.batch {
        PlanBatch(s.rows, groups, n - 1, i);
        GroupsAreApart(s.rows, groups, g, n - 1);
      }
      BatchAt(r.s, group.accountId, group.batch, fate(group.accountId), i);
    }
  }

  lemma GroupsAreApart(rows: seq<Row>, groups: seq<Group>, g: nat, h: nat)
    requires Plan(rows, groups, 0) && g < h < |groups|
    ensures groups[g].accountId != groups[h].accountId
  {
  }

  lemma BatchIsOfAccount(rows: seq<Row>, account: AccountId, batch: seq<RowId>, i: RowId)
    requires BatchOf(rows, account, batch) && i in batch
    ensures i < |rows| && rows[i].accountId == account
  {
  }

  /** What the query selects right after an export in which nothing failed: exactly the rows whose bookkeeping write
      saw the clock move between its two readings. */
  lemma SecondExportSelects(s: Sys, accountIds: Option<set<AccountId>>, ids: seq<RowId>, groups: seq<Group>,
                            fate: AccountId -> Fate, again: seq<RowId>, i: RowId)
    requires PendingRows(s.rows, accountIds, ids) && Grouped(s.rows, ids, groups) && GroupsInRows(s.rows, groups)
    requires forall g :: 0 <= g < |groups| ==> fate(groups[g].accountId).stage == NothingFails
    requires PendingRows(ExportAll(s, groups, fate, |groups|).s.rows, accountIds, again)
    ensures i in again <==> exists g, k :: ClockMoved(groups, fate, g, k, i)
  {
    hide ExportAll, Grouped, Selectable;
    QueryIsPlan(s.rows, accountIds, ids, groups);
    var after := ExportAll(s, groups, fate, |groups|).s.rows;
    if i < |s.rows| {
      FlagAfterExport(s, groups, fate, |groups|, i);
      EachRowInOneBatch(s.rows, ids, groups, i);
      assert i in ids <==> Chosen(s.rows[i], accountIds);
      assert i in again <==> Chosen(after[i], accountIds);
      if i in ids {
        var g :| 0 <= g < |groups| && i in groups[g].batch;
        var k :| 0 <= k < |groups[g].batch| && groups[g].batch[k] == i;
        PlanBatch(s.rows, groups, g, i);
        assert Selectable(after[i]) <==> ClockMoved(groups, fate, g, k, i);
      }
    }
  }

  lemma PlanBatch(rows: seq<Row>, groups: seq<Group>, g: nat, i: RowId)
    requires Plan(rows, groups, 0) && g < |groups| && i in groups[g].batch
    ensures i < |rows| && rows[i].accountId == groups[g].accountId
  {
    BatchIsOfAccount(rows, groups[g].accountId, groups[g].batch, i);
  }

  /** The Actual id a row carries after its batch was exported is its own, for every row of the batch, exactly when the
      rows new to Actual stood first and the known ones carried their own ids before. */
  lemma RowsGetTheirOwnIds(s: Sys, account: AccountId, batch: seq<RowId>, f: Fate)
    requires BatchOf(s.rows, account, batch) && f.stage == NothingFails && OneToOne(s.actual.seen, s.actual.nextId)
    ensures var s' := ExportBatch(s, account, batch, f).0;
            && (forall k :: 0 <= k < |batch| ==> batch[k] in s'.actual.seen)
            && ((forall k :: 0 <= k < |batch| ==>
                   s'.rows[batch[k]].actualTransactionId == Some(s'.actual.seen[batch[k]])) <==>
                && NewFirst(s.actual.seen, batch)
                && (forall k :: 0 <= k < |batch| && batch[k] in s.actual.seen ==>
                      s.rows[batch[k]].actualTransactionId == Some(s.actual.seen[batch[k]])))
  {
    hide ToImport, DedupAll, Marked, NewFirst, OneToOne, DistinctIds;
    var link, actual := LinkOf(s, account, f.namesake), Linked(s, account, f.namesake).actual;
    var txs := Payloads(s.rows, link, batch);
    var d := DedupAll(actual.seen, actual.nextId, txs, |txs|);
    var s' := ExportBatch(s, account, batch, f).0;
    CreatedKeepsIds(s.actual);
    PayloadIds(s.rows, link, batch);
    assert Ids(txs) == batch;
    ShiftPairsCorrectly(actual, txs);
    NoDuplicates(actual.seen, actual.nextId, txs, |txs|);
    forall k: nat | k < |batch|
      ensures s'.rows[batch[k]].actualTransactionId ==
              if k < |d.added| then Some(d.added[k]) else s.rows[batch[k]].actualTransactionId
    {
      MarkedAt(s.rows, batch, d.added, f, |batch|, batch[k]);
    }
  }

  /** An export changes bookkeeping only, and nothing about a soft-deleted row; Actual ids are never reassigned. */
  lemma {:induction false} ExportKeepsBankData(s: Sys, groups: seq<Group>, fate: AccountId -> Fate, n: nat)
    requires Plan(s.rows, groups, 0) && GroupsInRows(s.rows, groups) && n <= |groups|
    requires OneToOne(s.actual.seen, s.actual.nextId)
    ensures var r := ExportAll(s, groups, fate, n);
            && (!r.aborted ==> Plan(r.s.rows, groups, n))
            && (forall i :: 0 <= i < |s.rows| ==>
                  SameBankData(s.rows[i], r.s.rows[i]) && (!s.rows[i].Live() ==> r.s.rows[i] == s.rows[i]))
            && OneToOne(r.s.actual.seen, r.s.actual.nextId) && Extends(s.actual.seen, r.s.actual.seen)
  {
    hide ExportBatch, Plan, OneToOne, SameBankData;
    if n == 0 {
      forall i | 0 <= i < |s.rows| ensures SameBankData(s.rows[i], s.rows[i]) {
        SameBankDataTransitive(s.rows[i], s.rows[i], s.rows[i]);
      }
    } else {
      ExportKeepsBankData(s, groups, fate, n - 1);
      var r := ExportAll(s, groups, fate, n - 1);
      if !r.aborted {
        var group := groups[n - 1];
        var next := ExportBatch(r.s, group.accountId, group.batch, fate(group.accountId)).0;
        PlanHead(r.s.rows, groups, n - 1);
        PlanAdvances(r.s, groups, n - 1, fate(group.accountId));
        BatchKeepsIds(r.s, group.accountId, group.batch, fate(group.accountId));
        forall i: RowId | i < |s.rows|
          ensures SameBankData(s.rows[i], next.rows[i]) && (!s.rows[i].Live() ==> next.rows[i] == s.rows[i])
        {
          BatchAt(r.s, group.accountId, group.batch, fate(group.accountId), i);
          if !r.s.rows[i].Live() {
            DeadAreNotSent(r.s.rows, group.accountId, group.batch, i);
          }
          SameBankDataTransitive(s.rows[i], r.s.rows[i], next.rows[i]);
        }
      }
    }
  }

  /** A row in no batch is not written. */
  lemma {:induction false} ExportOutside(s: Sys, groups: seq<Group>, fate: AccountId -> Fate, n: nat, i: RowId)
    requires Plan(s.rows, groups, 0) && GroupsInRows(s.rows, groups) && n <= |groups| && i < |s.rows|
    requires forall g :: 0 <= g < |groups| ==> i !in groups[g].batch
    ensures var r := ExportAll(s, groups, fate, n);
            (!r.aborted ==> Plan(r.s.rows, groups, n)) && r.s.rows[i] == s.rows[i]
  {
    hide ExportBatch, Plan, Selectable;
    if n > 0 {
      ExportOutside(s, groups, fate, n - 1, i);
      var r, group := ExportAll(s, groups, fate, n - 1), groups[n - 1];
      if !r.aborted {
        PlanHead(r.s.rows, groups, n - 1);
        PlanAdvances(r.s, groups, n - 1, fate(group.accountId));
        BatchAt(r.s, group.accountId, group.batch, fate(group.accountId), i);
      }
    }
  }

  lemma SameBankDataTransitive(a: Row, b: Row, c: Row)
    ensures SameBankData(a, a)
    ensures SameBankData(a, b) && SameBankData(b, c) ==> SameBankData(a, c)
    ensures SameBankData(a, b) ==> a.Live() == b.Live()
  {
  }

  lemma DeadAreNotSent(rows: seq<Row>, account: AccountId, batch: seq<RowId>, i: RowId)
    requires BatchOf(rows, account, batch) && i < |rows| && !rows[i].Live()
    ensures i !in batch
  {
  }

  lemma CreatedKeepsIds(a: Actual)
    requires OneToOne(a.seen, a.nextId)
    ensures OneToOne(AccountCreated(a).seen, AccountCreated(a).nextId)
  {
  }

  lemma BatchKeepsIds(s: Sys, account: AccountId, batch: seq<RowId>, f: Fate)
    requires InRows(s.rows, batch) && OneToOne(s.actual.seen, s.actual.nextId)
    ensures var s' := ExportBatch(s, account, batch, f).0;
            OneToOne(s'.actual.seen, s'.actual.nextId) && Extends(s.actual.seen, s'.actual.seen)
  {
    hide OneToOne, Marked, Errored, ToImport, DedupAll;
    CreatedKeepsIds(s.actual);
    ExtendsTransitive(s.actual.seen, s.actual.seen, s.actual.seen);
    if !f.stage.LinkFails? {
      var txs := Payloads(s.rows, LinkOf(s, account, f.namesake), batch);
      var taken := if f.stage.ImportFails? && f.stage.taken < |txs| then f.stage.taken else |txs|;
      var actual := Linked(s, account, f.namesake).actual;
      NoDuplicates(actual.seen, actual.nextId, txs[..taken], taken);
      NoDuplicates(actual.seen, actual.nextId, txs, |txs|);
    }
  }

  // -------------------------------------------------------- writes of a sync

  /** Writes of an upsert are stamped after everything imported from the account. */
  ghost predicate StampedLater(rows: seq<Row>, account: AccountId, stamp: nat -> int) {
    forall i: RowId, k: nat :: i < |rows| && rows[i].accountId == account && rows[i].importedAt.Some? ==>
      rows[i].importedAt.value < stamp(k)
  }

  /** An upsert keeps the mirror coherent: what it changes, it makes dirty. */
  lemma UpsertKeepsCoherence(s: Sys, account: AccountId, batch: seq<NormalizedTx>, stamp: nat -> int, n: nat)
    requires Coherent(s) && StampedLater(s.rows, account, stamp) && n <= |batch|
    ensures Coherent(s.(rows := Upsert(s.rows, account, batch, stamp, n).rows))
  {
    hide Upsert, ToImport, Mirror;
    var s' := s.(rows := Upsert(s.rows, account, batch, stamp, n).rows);
    UpsertConserves(s.rows, account, batch, stamp, n);
    forall i: RowId | i < |s'.rows| ensures CoherentRow(s', Mirror(s'.actual.batches), i) {
      if i < |s.rows| {
        assert CoherentRow(s, Mirror(s.actual.batches), i);
        assert UpsertKeeps(account, s.rows[i], s'.rows[i]);
        UpsertStamps(s.rows, account, batch, stamp, n, i);
      } else {
        assert FreshRow(account, s'.rows[i]);
      }
    }
  }

  /** The exact condition, write by write: an update that changes the payload of a clean, mirrored row keeps
      the mirror coherent if and only if its stamp is later than the row's `imported_at`. */
  lemma UpdateNeedsLaterStamp(s: Sys, i: RowId, tx: ProviderTx, stamp: int)
    requires i < |s.rows| && CoherentRow(s, Mirror(s.actual.batches), i)
    requires s.rows[i].Live() && !Selectable(s.rows[i])
    requires forall link :: ToImport(link, i, Overwritten(s.rows[i], tx)) != ToImport(link, i, s.rows[i])
    ensures var s' := s.(rows := s.rows[i := Overwritten(s.rows[i], tx).(updatedAt := stamp)]);
            CoherentRow(s', Mirror(s.actual.batches), i) <==> stamp > s.rows[i].importedAt.value
  {
    hide IsoDay, Mirror;
    var row := Overwritten(s.rows[i], tx);
    var link := s.links[row.accountId];
    assert ToImport(link, i, row.(updatedAt := stamp)) == ToImport(link, i, row);
  }
}
