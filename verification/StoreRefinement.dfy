/** The upsert loop against its simplest reading: a map from identity to bank data in which the last
    writer wins and a soft-deleted entry is never touched. The reference has no `hasChanges` test, no
    lookups by two different keys and no unique constraints. */
module StoreRefinement {
  import opened Domain
  import opened Normalize
  import opened Store

  /** The bank data of a row: everything except bookkeeping. */
  datatype Entry = Entry(
    providerTransactionId: Option<string>, timestamp: int, amountMinor: int, currency: string, live: bool,
    content: Content)

  /** The part of the bank data a provider may correct. */
  datatype Content = Content(
    status: Status, description: string, merchantName: Option<string>, category: Option<string>,
    transactionType: Option<string>, bookedDate: Option<int>, runningBalanceMinor: Option<int>)

  function EntryOf(row: Row): Entry {
    Entry(row.providerTransactionId, row.timestamp, row.amountMinor, row.currency, row.Live(),
          Content(row.status, row.description, row.merchantName, row.category, row.transactionType, row.bookedDate,
                  row.runningBalanceMinor))
  }

  function ContentOf(tx: ProviderTx): Content {
    Content(tx.status, tx.description, tx.merchantName, tx.category, tx.transactionType,
            Some(DayStart(tx.bookedDate)), tx.runningBalanceMinor)
  }

  function FreshEntry(tx: ProviderTx): Entry {
    Entry(tx.providerTransactionId, tx.timestamp, tx.amountMinor, tx.currency, true, ContentOf(tx))
  }

  type Ledger = map<string, Entry>

  function Assign(m: Ledger, ntx: NormalizedTx): Ledger {
    var h := ntx.rawHash;
    if h !in m then m[h := FreshEntry(ntx.tx)]
    else if m[h].live then m[h := m[h].(content := ContentOf(ntx.tx))]
    else m
  }

  function AssignAll(m: Ledger, batch: seq<NormalizedTx>, n: nat): Ledger
    requires n <= |batch|
  {
    if n == 0 then m else Assign(AssignAll(m, batch, n - 1), batch[n - 1])
  }

  predicate Holds(rows: seq<Row>, account: AccountId, hash: string, i: int) {
    0 <= i < |rows| && rows[i].accountId == account && rows[i].rawHash == hash
  }

  ghost predicate Stored(rows: seq<Row>, account: AccountId, hash: string) {
    exists i :: Holds(rows, account, hash, i)
  }

  /** `m` is what the table says about the account. */
  ghost predicate Represents(rows: seq<Row>, account: AccountId, m: Ledger) {
    && (forall h :: h in m <==> Stored(rows, account, h))
    && (forall h, i :: Holds(rows, account, h, i) && h in m ==> m[h] == EntryOf(rows[i]))
  }

  /** A valid table says something consistent about each account. */
  function View(rows: seq<Row>, account: AccountId): Ledger {
    if rows == [] then map[]
    else
      var row := rows[|rows| - 1];
      var m := View(rows[..|rows| - 1], account);
      if row.accountId == account then m[row.rawHash := EntryOf(row)] else m
  }

  lemma {:induction false} ViewRepresents(rows: seq<Row>, account: AccountId)
    requires ValidTable(rows)
    ensures Represents(rows, account, View(rows, account))
  {
    hide EntryOf, Identified, HoldsDay;
    if rows != [] {
      var rest := rows[..|rows| - 1];
      ViewRepresents(rest, account);
      var last := |rows| - 1;
      forall h ensures h in View(rows, account) <==> Stored(rows, account, h) {
        if Stored(rest, account, h) {
          var i :| Holds(rest, account, h, i);
          assert Holds(rows, account, h, i);
        }
        if rows[last].accountId == account && rows[last].rawHash == h {
          assert Holds(rows, account, h, last);
        } else if Stored(rows, account, h) {
          var i :| Holds(rows, account, h, i);
          assert Holds(rest, account, h, i);
        }
      }
      forall h, i | Holds(rows, account, h, i) && h in View(rows, account)
        ensures View(rows, account)[h] == EntryOf(rows[i])
      {
        if i < last {
          assert Holds(rest, account, h, i) && !Clashes(rows[i], rows[last]);
        }
      }
    }
  }

  // ------------------------------------------------------------ the refinement

  lemma FoundRow(rows: seq<Row>, account: AccountId, ntx: NormalizedTx, i: RowId)
    requires ValidTable(rows) && WellIdentified(account, ntx) && i < |rows|
    ensures Bears(rows[i], account, KeyOf(ntx)) <==> Holds(rows, account, ntx.rawHash, i)
  {
    if rows[i].accountId == account {
      IdentityIsTheHash(account, rows[i], ntx);
    }
  }

  /** The row a lookup finds is the one row that holds the identity. */
  lemma LookupIsByIdentity(rows: seq<Row>, account: AccountId, ntx: NormalizedTx)
    requires ValidTable(rows) && WellIdentified(account, ntx)
    ensures Find(rows, account, KeyOf(ntx)).Some? <==> Stored(rows, account, ntx.rawHash)
    ensures forall i :: Holds(rows, account, ntx.rawHash, i) ==> Find(rows, account, KeyOf(ntx)) == Some(i)
  {
    var f := Find(rows, account, KeyOf(ntx));
    forall i: nat | i < |rows| ensures Bears(rows[i], account, KeyOf(ntx)) <==> Holds(rows, account, ntx.rawHash, i) {
      FoundRow(rows, account, ntx, i);
    }
    forall i | Holds(rows, account, ntx.rawHash, i) ensures f == Some(i) {
      assert Holds(rows, account, ntx.rawHash, f.value);
      assert i < f.value ==> Clashes(rows[i], rows[f.value]);
      assert f.value < i ==> Clashes(rows[f.value], rows[i]);
    }
  }

  /** What the `hasChanges` test passes over: exactly the rows that already hold what would be written, when the date
      of the report is a midnight; a report with any other date is written every time. */
  lemma NoChangesMeansSameContent(row: Row, tx: ProviderTx)
    requires HoldsDay(row)
    ensures !HasChanges(row, tx) <==> tx.bookedDate % 86_400_000 == 0 && EntryOf(row).content == ContentOf(tx)
  {
  }

  lemma UpsertOneRefines(p: Progress, account: AccountId, ntx: NormalizedTx, stamp: int, m: Ledger)
    requires !p.failed && ValidTable(p.rows) && WellIdentified(account, ntx) && Represents(p.rows, account, m)
    ensures Represents(UpsertOne(p, account, ntx, stamp).rows, account, Assign(m, ntx))
  {
    var q := UpsertOne(p, account, ntx, stamp);
    var hash := ntx.rawHash;
    LookupIsByIdentity(p.rows, account, ntx);
    UpsertOneIsSafe(p, account, ntx, stamp);
    match Find(p.rows, account, KeyOf(ntx)) {
      case None => AppendRepresents(p.rows, account, NewRow(account, ntx, stamp), m);
      case Some(i) =>
        FoundRow(p.rows, account, ntx, i);
        NoChangesMeansSameContent(p.rows[i], ntx.tx);
        assert m[hash] == EntryOf(p.rows[i]);
        if p.rows[i].Live() {
          if HasChanges(p.rows[i], ntx.tx) {
            ReplaceRepresents(p.rows, account, i, q.rows[i], m);
          } else {
            assert Assign(m, ntx) == m;
          }
        }
    }
  }

  lemma AppendRepresents(rows: seq<Row>, account: AccountId, row: Row, m: Ledger)
    requires Represents(rows, account, m) && row.accountId == account && !Stored(rows, account, row.rawHash)
    ensures Represents(rows + [row], account, m[row.rawHash := EntryOf(row)])
  {
    hide EntryOf;
    var after, m' := rows + [row], m[row.rawHash := EntryOf(row)];
    forall h, i | Holds(after, account, h, i) ensures h in m' && m'[h] == EntryOf(after[i]) {
      if i < |rows| {
        assert Holds(rows, account, h, i);
      }
    }
    forall h | h in m' ensures Stored(after, account, h) {
      if h == row.rawHash {
        assert Holds(after, account, h, |rows|);
      } else {
        var i :| Holds(rows, account, h, i);
        assert Holds(after, account, h, i);
      }
    }
  }

  lemma ReplaceRepresents(rows: seq<Row>, account: AccountId, k: RowId, row: Row, m: Ledger)
    requires ValidTable(rows) && Represents(rows, account, m) && k < |rows| && rows[k].accountId == account
    requires row.accountId == account && row.rawHash == rows[k].rawHash
    ensures Represents(rows[k := row], account, m[row.rawHash := EntryOf(row)])
  {
    hide EntryOf, Identified;
    var after, m' := rows[k := row], m[row.rawHash := EntryOf(row)];
    forall h, i ensures Holds(after, account, h, i) <==> Holds(rows, account, h, i) {
    }
    forall h, i | Holds(after, account, h, i) ensures h in m' && m'[h] == EntryOf(after[i]) {
      assert Holds(rows, account, h, i);
      assert i < k ==> !Clashes(rows[i], rows[k]);
      assert k < i ==> !Clashes(rows[k], rows[i]);
    }
    forall h | h in m' ensures Stored(after, account, h) {
      assert Holds(rows, account, rows[k].rawHash, k);
      var i :| Holds(rows, account, h, i);
      assert Holds(after, account, h, i);
    }
  }

  /** The upsert loop refines the last-writer-wins fold. */
  lemma {:induction false} UpsertRefinesAssign(rows: seq<Row>, account: AccountId, batch: seq<NormalizedTx>,
                                               stamp: nat -> int, n: nat, m: Ledger)
    requires ValidTable(rows) && WellIdentifiedBatch(account, batch) && n <= |batch|
    requires Represents(rows, account, m)
    ensures Represents(Upsert(rows, account, batch, stamp, n).rows, account, AssignAll(m, batch, n))
  {
    hide UpsertOne, Assign, Represents;
    if n > 0 {
      UpsertRefinesAssign(rows, account, batch, stamp, n - 1, m);
      UpsertNeverViolates(rows, account, batch, stamp, n - 1);
      UpsertOneRefines(Upsert(rows, account, batch, stamp, n - 1), account, batch[n - 1], stamp(n - 1),
                       AssignAll(m, batch, n - 1));
    }
  }

  // ----------------------------------------------------- closed form of the fold

  /** The first and the last transaction of the batch prefix with a given identity. */
  function First(batch: seq<NormalizedTx>, n: nat, h: string): (r: Option<nat>)
    requires n <= |batch|
    ensures r.Some? ==> r.value < n && batch[r.value].rawHash == h
    ensures r.None? ==> forall k :: 0 <= k < n ==> batch[k].rawHash != h
  {
    if n == 0 then None
    else
      var r := First(batch, n - 1, h);
      if r.Some? then r else if batch[n - 1].rawHash == h then Some(n - 1) else None
  }

  function Last(batch: seq<NormalizedTx>, n: nat, h: string): (r: Option<nat>)
    requires n <= |batch|
    ensures r.Some? ==> r.value < n && batch[r.value].rawHash == h
    ensures r.None? ==> forall k :: 0 <= k < n ==> batch[k].rawHash != h
  {
    if n == 0 then None
    else if batch[n - 1].rawHash == h then Some(n - 1)
    else Last(batch, n - 1, h)
  }

  /** What the batch leaves under identity `h`: the immutable part comes from the old entry or else from
      the first transaction, the content from the last one, and a dead entry is left alone. */
  function Outcome(m: Ledger, batch: seq<NormalizedTx>, n: nat, h: string): Option<Entry>
    requires n <= |batch|
  {
    match Last(batch, n, h)
    case None => if h in m then Some(m[h]) else None
    case Some(k) =>
      var base := if h in m then m[h] else FreshEntry(batch[First(batch, n, h).value].tx);
      Some(if base.live then base.(content := ContentOf(batch[k].tx)) else base)
  }

  lemma {:induction false} LastWriterWins(m: Ledger, batch: seq<NormalizedTx>, n: nat, h: string)
    requires n <= |batch|
    ensures var r := AssignAll(m, batch, n);
            Outcome(m, batch, n, h) == if h in r then Some(r[h]) else None
  {
    if n > 0 {
      LastWriterWins(m, batch, n - 1, h);
    }
  }

  /** Ingesting a batch again changes no data, even when the batch repeats identities. */
  lemma AssignAllIsIdempotent(m: Ledger, batch: seq<NormalizedTx>)
    ensures var r := AssignAll(m, batch, |batch|); AssignAll(r, batch, |batch|) == r
  {
    var r := AssignAll(m, batch, |batch|);
    var again := AssignAll(r, batch, |batch|);
    forall h ensures h in again <==> h in r
             ensures h in r ==> again[h] == r[h]
    {
      LastWriterWins(m, batch, |batch|, h);
      LastWriterWins(r, batch, |batch|, h);
    }
  }

  // -------------------------------------------------- repeating a batch

  ghost predicate Midnights(batch: seq<NormalizedTx>) {
    forall k :: 0 <= k < |batch| ==> batch[k].tx.bookedDate % DAY_MS == 0
  }

  /** The loop has nothing to write for this transaction. */
  predicate Quiet(rows: seq<Row>, account: AccountId, ntx: NormalizedTx) {
    var f := Find(rows, account, KeyOf(ntx));
    f.Some? && (!rows[f.value].Live() || !HasChanges(rows[f.value], ntx.tx))
  }

  /** A pass writes nothing exactly when it has nothing to write for any of its transactions. */
  lemma {:induction false} QuietPass(rows: seq<Row>, account: AccountId, batch: seq<NormalizedTx>, stamp: nat -> int,
                                     n: nat)
    requires n <= |batch|
    ensures var p := Upsert(rows, account, batch, stamp, n);
            && ((!p.failed && p.counts.inserted == 0 && p.counts.updated == 0) <==>
                (forall k :: 0 <= k < n ==> Quiet(rows, account, batch[k])))
            && (!p.failed && p.counts.inserted == 0 && p.counts.updated == 0 ==>
                  p.rows == rows && p.counts.skipped == n)
  {
    hide UpsertOne, Quiet;
    if n > 0 {
      QuietPass(rows, account, batch, stamp, n - 1);
      if !Upsert(rows, account, batch, stamp, n - 1).failed {
        QuietStep(Upsert(rows, account, batch, stamp, n - 1), account, batch[n - 1], stamp(n - 1));
      }
    }
  }

  lemma QuietStep(p: Progress, account: AccountId, ntx: NormalizedTx, stamp: int)
    requires !p.failed
    ensures var q := UpsertOne(p, account, ntx, stamp);
            if Quiet(p.rows, account, ntx) then q == p.(counts := p.counts.(skipped := p.counts.skipped + 1))
            else q.failed || q.counts.inserted > p.counts.inserted || q.counts.updated > p.counts.updated
    ensures var q := UpsertOne(p, account, ntx, stamp);
            q.counts.inserted >= p.counts.inserted && q.counts.updated >= p.counts.updated
  {
    hide Find, HasChanges, ClashesWithAny, NewRow, Overwritten;
  }

  ghost predicate DeadIdentity(rows: seq<Row>, account: AccountId, h: string) {
    exists i :: Holds(rows, account, h, i) && !rows[i].Live()
  }

  /** No live identity is reported twice with different content. */
  ghost predicate Consistent(rows: seq<Row>, account: AccountId, batch: seq<NormalizedTx>) {
    forall j, k :: 0 <= j < |batch| && 0 <= k < |batch| && batch[j].rawHash == batch[k].rawHash ==>
      DeadIdentity(rows, account, batch[j].rawHash) || ContentOf(batch[j].tx) == ContentOf(batch[k].tx)
  }

  /** What the first pass leaves for the identity of its k-th transaction. */
  lemma AfterPass(rows: seq<Row>, account: AccountId, batch: seq<NormalizedTx>, stamp: nat -> int, k: nat)
    returns (i: RowId)
    requires ValidTable(rows) && WellIdentifiedBatch(account, batch) && k < |batch|
    ensures var after := Upsert(rows, account, batch, stamp, |batch|).rows;
            var h := batch[k].rawHash;
            && ValidTable(after) && Holds(after, account, h, i)
            && (!after[i].Live() <==> DeadIdentity(rows, account, h))
            && (after[i].Live() ==> EntryOf(after[i]).content == ContentOf(batch[Last(batch, |batch|, h).value].tx))
  {
    hide UpsertOne, Assign, EntryOf, ContentOf, Upsert;
    var h := batch[k].rawHash;
    var after := Upsert(rows, account, batch, stamp, |batch|).rows;
    var m := View(rows, account);
    ViewRepresents(rows, account);
    UpsertRefinesAssign(rows, account, batch, stamp, |batch|, m);
    UpsertNeverViolates(rows, account, batch, stamp, |batch|);
    LastWriterWins(m, batch, |batch|, h);
    i :| Holds(after, account, h, i);
    EntryLive(after[i]);
    assert DeadIdentity(rows, account, h) <==> h in m && !m[h].live by { DeadIsNotLive(rows, account, h, m); }
  }

  lemma EntryLive(row: Row)
    ensures EntryOf(row).live == row.Live()
  {
  }

  lemma DeadIsNotLive(rows: seq<Row>, account: AccountId, h: string, m: Ledger)
    requires Represents(rows, account, m)
    ensures DeadIdentity(rows, account, h) <==> h in m && !m[h].live
  {
    if h in m && !m[h].live {
      var i :| Holds(rows, account, h, i);
      assert !rows[i].Live();
    }
  }

  /** Repeating a batch writes nothing exactly when the batch does not contradict itself on a live identity. */
  lemma RepeatWritesNothing(rows: seq<Row>, account: AccountId, batch: seq<NormalizedTx>,
                            s1: nat -> int, s2: nat -> int)
    requires ValidTable(rows) && WellIdentifiedBatch(account, batch) && Midnights(batch)
    ensures var p1 := Upsert(rows, account, batch, s1, |batch|);
            var p2 := Upsert(p1.rows, account, batch, s2, |batch|);
            && (p2.counts.inserted == 0 && p2.counts.updated == 0 <==> Consistent(rows, account, batch))
            && (Consistent(rows, account, batch) ==> p2.rows == p1.rows && p2.counts.skipped == |batch|)
  {
    hide Upsert, Find, HasChanges, ContentOf, EntryOf;
    var p1 := Upsert(rows, account, batch, s1, |batch|);
    UpsertNeverViolates(rows, account, batch, s1, |batch|);
    UpsertNeverViolates(p1.rows, account, batch, s2, |batch|);
    QuietPass(p1.rows, account, batch, s2, |batch|);
    forall k: nat | k < |batch|
      ensures Quiet(p1.rows, account, batch[k]) <==>
              DeadIdentity(rows, account, batch[k].rawHash) ||
              ContentOf(batch[k].tx) == ContentOf(batch[Last(batch, |batch|, batch[k].rawHash).value].tx)
    {
      var i := AfterPass(rows, account, batch, s1, k);
      LookupIsByIdentity(p1.rows, account, batch[k]);
      NoChangesMeansSameContent(p1.rows[i], batch[k].tx);
    }
  }

  lemma DistinctIdsAreConsistent(rows: seq<Row>, account: AccountId, batch: seq<NormalizedTx>)
    requires forall j, k :: 0 <= j < k < |batch| ==> batch[j].rawHash != batch[k].rawHash
    ensures Consistent(rows, account, batch)
  {
  }

  // ---------------------------------------------------------- what is stored

  /** After any prefix of a batch the stored identities are the old ones and those of the prefix. */
  lemma {:induction false} StoredAfter(rows: seq<Row>, account: AccountId, batch: seq<NormalizedTx>, stamp: nat -> int,
                                       n: nat, other: AccountId, h: string)
    requires ValidTable(rows) && WellIdentifiedBatch(account, batch) && n <= |batch|
    ensures Stored(Upsert(rows, account, batch, stamp, n).rows, other, h) <==>
            Stored(rows, other, h) || (other == account && exists k :: 0 <= k < n && batch[k].rawHash == h)
  {
    hide UpsertOne;
    if n > 0 {
      StoredAfter(rows, account, batch, stamp, n - 1, other, h);
      UpsertNeverViolates(rows, account, batch, stamp, n - 1);
      StoredStep(Upsert(rows, account, batch, stamp, n - 1), account, batch[n - 1], stamp(n - 1), other, h);
    }
  }

  lemma StoredStep(p: Progress, account: AccountId, ntx: NormalizedTx, stamp: int, other: AccountId, h: string)
    requires !p.failed && ValidTable(p.rows) && WellIdentified(account, ntx)
    ensures Stored(UpsertOne(p, account, ntx, stamp).rows, other, h) <==>
            Stored(p.rows, other, h) || (other == account && ntx.rawHash == h)
  {
    hide HasChanges;
    var q := UpsertOne(p, account, ntx, stamp);
    LookupIsByIdentity(p.rows, account, ntx);
    UpsertOneIsSafe(p, account, ntx, stamp);
    UpsertOneKeeps(p, account, ntx, stamp);
    forall i: nat | i < |p.rows| ensures Holds(q.rows, other, h, i) <==> Holds(p.rows, other, h, i) {
      assert UpsertKeeps(account, p.rows[i], q.rows[i]);
    }
    if Stored(p.rows, other, h) {
      var i :| Holds(p.rows, other, h, i);
      assert Holds(q.rows, other, h, i);
    }
    if |q.rows| > |p.rows| {
      assert Holds(q.rows, account, ntx.rawHash, |p.rows|);
    }
  }

  ghost predicate IsNewRows(rows: seq<Row>, account: AccountId, batch: seq<NormalizedTx>, stamp: nat -> int, n: nat) {
    |rows| == n <= |batch| && forall i: nat :: i < n ==> rows[i] == NewRow(account, batch[i], stamp(i))
  }

  /** A batch of distinct identities ingested into an empty table: one new row each, in order. */
  lemma {:induction false} DistinctAreInserted(account: AccountId, batch: seq<NormalizedTx>, stamp: nat -> int, n: nat)
    requires WellIdentifiedBatch(account, batch) && n <= |batch|
    requires forall j, k :: 0 <= j < k < |batch| ==> batch[j].rawHash != batch[k].rawHash
    ensures IsNewRows(Upsert([], account, batch, stamp, n).rows, account, batch, stamp, n)
  {
    hide ValidTable, UpsertOne, IsNewRows, WellIdentified, Stored;
    EmptyTableIsValid();
    if n == 0 {
      NoNewRows(account, batch, stamp);
    } else {
      var p, h := Upsert([], account, batch, stamp, n - 1), batch[n - 1].rawHash;
      DistinctAreInserted(account, batch, stamp, n - 1);
      UpsertNeverViolates([], account, batch, stamp, n - 1);
      StoredAfter([], account, batch, stamp, n - 1, account, h);
      NothingIsStored(account, h);
      NewIdentityIsInserted(p, account, batch[n - 1], stamp(n - 1));
      OneMoreNewRow(p.rows, account, batch, stamp, n - 1);
    }
  }

  lemma NoNewRows(account: AccountId, batch: seq<NormalizedTx>, stamp: nat -> int)
    ensures IsNewRows([], account, batch, stamp, 0)
  {
  }

  lemma OneMoreNewRow(rows: seq<Row>, account: AccountId, batch: seq<NormalizedTx>, stamp: nat -> int, n: nat)
    requires IsNewRows(rows, account, batch, stamp, n) && n < |batch|
    ensures IsNewRows(rows + [NewRow(account, batch[n], stamp(n))], account, batch, stamp, n + 1)
  {
    hide NewRow;
  }

  lemma NothingIsStored(account: AccountId, h: string)
    ensures !Stored([], account, h)
  {
  }

  lemma NewIdentityIsInserted(p: Progress, account: AccountId, ntx: NormalizedTx, stamp: int)
    requires !p.failed && ValidTable(p.rows) && WellIdentified(account, ntx) && !Stored(p.rows, account, ntx.rawHash)
    ensures var q := UpsertOne(p, account, ntx, stamp);
            !q.failed && q.rows == p.rows + [NewRow(account, ntx, stamp)]
  {
    hide NewRow, HasChanges, ClashesWithAny, Stored;
    UpsertOneIsSafe(p, account, ntx, stamp);
    LookupIsByIdentity(p.rows, account, ntx);
  }

  lemma EmptyTableIsValid()
    ensures ValidTable([])
  {
  }
}
