/** The `transactions` table and the upsert of a normalised batch (services/sync/transaction-store.ts,
    prisma/schema.prisma). */
module Store {
  import opened Domain
  import opened Normalize

  datatype Counts = Counts(received: nat, inserted: nat, updated: nat, skipped: nat)

  /** The two unique lookups of the table. */
  datatype Key = ById(id: string) | ByHash(hash: string)

  function KeyOf(tx: NormalizedTx): Key {
    if HasId(tx.tx) then ById(tx.tx.providerTransactionId.value) else ByHash(tx.rawHash)
  }

  predicate Bears(row: Row, account: AccountId, key: Key) {
    && row.accountId == account
    && match key
       case ById(id) => row.providerTransactionId == Some(id)
       case ByHash(hash) => row.rawHash == hash
  }

  function Find(rows: seq<Row>, account: AccountId, key: Key): (r: Option<RowId>)
    ensures r.Some? ==> r.value < |rows| && Bears(rows[r.value], account, key)
    ensures r.None? ==> forall i :: 0 <= i < |rows| ==> !Bears(rows[i], account, key)
  {
    if rows == [] then None
    else if Bears(rows[|rows| - 1], account, key) then Some(|rows| - 1)
    else Find(rows[..|rows| - 1], account, key)
  }

  /** UNIQUE(account, provider transaction id) and UNIQUE(account, raw hash); a missing id equals no id. */
  predicate Clashes(a: Row, b: Row) {
    && a.accountId == b.accountId
    && (a.rawHash == b.rawHash
        || (a.providerTransactionId.Some? && a.providerTransactionId == b.providerTransactionId))
  }

  predicate ClashesWithAny(rows: seq<Row>, row: Row) {
    exists i :: 0 <= i < |rows| && Clashes(rows[i], row)
  }

  function NewRow(account: AccountId, ntx: NormalizedTx, stamp: int): Row {
    var tx := ntx.tx;
    Row(account, tx.providerTransactionId, tx.status, tx.timestamp, Some(DayStart(tx.bookedDate)), tx.amountMinor,
        tx.currency, tx.description, tx.merchantName, tx.transactionType, tx.category, tx.runningBalanceMinor,
        ntx.rawHash, NotImported, None, None, None, stamp)
  }

  predicate HasChanges(row: Row, tx: ProviderTx) {
    || row.status != tx.status
    || row.description != tx.description
    || row.merchantName != tx.merchantName
    || row.category != tx.category
    || row.transactionType != tx.transactionType
    || row.bookedDate != Some(tx.bookedDate)
    || row.runningBalanceMinor != tx.runningBalanceMinor
  }

  /** The columns an update writes. `booked_date` is a DATE column: it keeps the day only. */
  function Overwritten(row: Row, tx: ProviderTx): Row {
    row.(status := tx.status, description := tx.description, merchantName := tx.merchantName,
         category := tx.category, transactionType := tx.transactionType,
         bookedDate := Some(DayStart(tx.bookedDate)), runningBalanceMinor := tx.runningBalanceMinor)
  }

  datatype Progress = Progress(rows: seq<Row>, counts: Counts, failed: bool)

  /** One turn of the loop; `failed` is a unique constraint refusing the create. */
  function UpsertOne(p: Progress, account: AccountId, ntx: NormalizedTx, stamp: int): Progress {
    match Find(p.rows, account, KeyOf(ntx))
    case None =>
      var row := NewRow(account, ntx, stamp);
      if ClashesWithAny(p.rows, row) then p.(failed := true)
      else p.(rows := p.rows + [row], counts := p.counts.(inserted := p.counts.inserted + 1))
    case Some(i) =>
      if !p.rows[i].Live() || !HasChanges(p.rows[i], ntx.tx)
      then p.(counts := p.counts.(skipped := p.counts.skipped + 1))
      else p.(rows := p.rows[i := Overwritten(p.rows[i], ntx.tx).(updatedAt := stamp)],
              counts := p.counts.(updated := p.counts.updated + 1))
  }

  /** The state after the first `n` transactions; `stamp(k)` is the clock at the k-th write. */
  function Upsert(rows: seq<Row>, account: AccountId, batch: seq<NormalizedTx>, stamp: nat -> int, n: nat): Progress
    requires n <= |batch|
  {
    if n == 0 then Progress(rows, Counts(|batch|, 0, 0, 0), false)
    else
      var p := Upsert(rows, account, batch, stamp, n - 1);
      if p.failed then p else UpsertOne(p, account, batch[n - 1], stamp(n - 1))
  }

  datatype BalanceReading = BalanceReading(currentMinor: int, availableMinor: Option<int>, currency: string)

  /** A row of `balances`; rows are only ever appended. */
  datatype BalanceRow = BalanceRow(accountId: AccountId, reading: BalanceReading, observedAt: int)

  class Database {
    var transactions: seq<Row>
    var balances: seq<BalanceRow>
    /** `actual_account_links`, keyed by the local account. */
    var links: map<AccountId, string>
    /** `accounts.last_successful_sync`, where it is set. */
    var cursors: map<AccountId, int>

    method FindUnique(account: AccountId, key: Key) returns (r: Option<RowId>)
      ensures r == Find(transactions, account, key)
    {
      r := Find(transactions, account, key);
    }

    method Create(row: Row) returns (ok: bool)
      modifies this`transactions
      ensures ok == !ClashesWithAny(old(transactions), row)
      ensures transactions == if ok then old(transactions) + [row] else old(transactions)
    {
      ok := !ClashesWithAny(transactions, row);
      if ok {
        transactions := transactions + [row];
      }
    }

    method Update(id: RowId, row: Row)
      requires id < |transactions|
      modifies this`transactions
      ensures transactions == old(transactions)[id := row]
    {
      transactions := transactions[id := row];
    }
  }

  /** How far a loop over `n` items gets that the database breaks off after `breaksAt` of them, if at all. */
  function Reached(breaksAt: Option<nat>, n: nat): (r: nat)
    ensures r <= n
  {
    if breaksAt.Some? && breaksAt.value < n then breaksAt.value else n
  }

  /** `None` is an exception: a refused create, or a database failure after `breaksAt` transactions. The rows
      written before it stay. */
  method UpsertTransactions(db: Database, account: AccountId, batch: seq<NormalizedTx>, stamp: nat -> int,
                            breaksAt: Option<nat>)
    returns (result: Option<Counts>)
    modifies db`transactions
    ensures var p := Upsert(old(db.transactions), account, batch, stamp, Reached(breaksAt, |batch|));
            db.transactions == p.rows && result == (if p.failed || breaksAt.Some? then None else Some(p.counts))
  {
    hide Find, KeyOf, HasChanges, ClashesWithAny, NewRow, Overwritten, Upsert;
    var counts := Counts(|batch|, 0, 0, 0);
    UpsertNone(db.transactions, account, batch, stamp);
    for n := 0 to |batch|
      invariant Upsert(old(db.transactions), account, batch, stamp, n) == Progress(db.transactions, counts, false)
      invariant breaksAt.Some? ==> n <= breaksAt.value
    {
      if breaksAt == Some(n) {
        return None;
      }
      var ntx := batch[n];
      UpsertNext(old(db.transactions), account, batch, stamp, n);
      var found := db.FindUnique(account, KeyOf(ntx));
      if found == None {
        var ok := db.Create(NewRow(account, ntx, stamp(n)));
        if !ok {
          UpsertStaysFailed(old(db.transactions), account, batch, stamp, n + 1, Reached(breaksAt, |batch|));
          return None;
        }
        counts := counts.(inserted := counts.inserted + 1);
      } else {
        var existing := db.transactions[found.value];
        if !existing.Live() || !HasChanges(existing, ntx.tx) {
          counts := counts.(skipped := counts.skipped + 1);
        } else {
          db.Update(found.value, Overwritten(existing, ntx.tx).(updatedAt := stamp(n)));
          counts := counts.(updated := counts.updated + 1);
        }
      }
    }
    result := if breaksAt.Some? then None else Some(counts);
  }

  lemma UpsertNone(rows: seq<Row>, account: AccountId, batch: seq<NormalizedTx>, stamp: nat -> int)
    ensures Upsert(rows, account, batch, stamp, 0) == Progress(rows, Counts(|batch|, 0, 0, 0), false)
  {
  }

  lemma UpsertNext(rows: seq<Row>, account: AccountId, batch: seq<NormalizedTx>, stamp: nat -> int, n: nat)
    requires n < |batch| && !Upsert(rows, account, batch, stamp, n).failed
    ensures Upsert(rows, account, batch, stamp, n + 1) ==
            UpsertOne(Upsert(rows, account, batch, stamp, n), account, batch[n], stamp(n))
  {
    hide UpsertOne;
  }

  lemma {:induction false} UpsertStaysFailed(rows: seq<Row>, account: AccountId, batch: seq<NormalizedTx>,
                                             stamp: nat -> int, m: nat, n: nat)
    requires m <= n <= |batch| && Upsert(rows, account, batch, stamp, m).failed
    ensures Upsert(rows, account, batch, stamp, n) == Upsert(rows, account, batch, stamp, m)
  {
    hide UpsertOne;
    if m < n {
      UpsertStaysFailed(rows, account, batch, stamp, m, n - 1);
    }
  }

  // --------------------------------------------------- accounting and history

  /** What no later write of the ledger changes about a row; a soft-deleted row is frozen. */
  predicate Keeps(before: Row, after: Row) {
    && after.accountId == before.accountId
    && after.providerTransactionId == before.providerTransactionId
    && after.timestamp == before.timestamp
    && after.amountMinor == before.amountMinor
    && after.currency == before.currency
    && after.rawHash == before.rawHash
    && (!before.Live() ==> after == before)
  }

  /** What an upsert may do to a row it finds. */
  predicate UpsertKeeps(account: AccountId, before: Row, after: Row) {
    && Keeps(before, after)
    && after.importStatus == before.importStatus
    && after.importedAt == before.importedAt
    && after.actualTransactionId == before.actualTransactionId
    && after.deletedAt == before.deletedAt
    && (before.accountId != account ==> after == before)
  }

  predicate FreshRow(account: AccountId, row: Row) {
    row.accountId == account && row.Live() && row.importStatus == NotImported && row.importedAt.None?
  }

  lemma UpsertOneKeeps(p: Progress, account: AccountId, ntx: NormalizedTx, stamp: int)
    ensures var q := UpsertOne(p, account, ntx, stamp);
            && |p.rows| <= |q.rows| <= |p.rows| + 1
            && (forall i :: 0 <= i < |p.rows| ==> UpsertKeeps(account, p.rows[i], q.rows[i]))
            && (forall i :: 0 <= i < |p.rows| && q.rows[i] != p.rows[i] ==> q.rows[i].updatedAt == stamp)
            && (forall i :: |p.rows| <= i < |q.rows| ==> FreshRow(account, q.rows[i]))
            && q.counts.received == p.counts.received
            && q.counts.inserted == p.counts.inserted + |q.rows| - |p.rows|
            && (!q.failed ==> q.counts.inserted + q.counts.updated + q.counts.skipped
                              == p.counts.inserted + p.counts.updated + p.counts.skipped + 1)
  {
    hide Find, HasChanges, ClashesWithAny;
  }

  /** Conservation: no row is lost or has its bank identity changed, the table grows by `inserted`,
      and every transaction received is inserted, updated or skipped. */
  lemma {:induction false} UpsertConserves(rows: seq<Row>, account: AccountId, batch: seq<NormalizedTx>,
                                           stamp: nat -> int, n: nat)
    requires n <= |batch|
    ensures var p := Upsert(rows, account, batch, stamp, n);
            && |p.rows| == |rows| + p.counts.inserted
            && (forall i :: 0 <= i < |rows| ==> UpsertKeeps(account, rows[i], p.rows[i]))
            && (forall i :: |rows| <= i < |p.rows| ==> FreshRow(account, p.rows[i]))
            && p.counts.received == |batch|
            && (!p.failed ==> p.counts.inserted + p.counts.updated + p.counts.skipped == n)
  {
    hide UpsertOne;
    if n > 0 {
      UpsertConserves(rows, account, batch, stamp, n - 1);
      UpsertOneKeeps(Upsert(rows, account, batch, stamp, n - 1), account, batch[n - 1], stamp(n - 1));
    }
  }

  /** A row an upsert changes was live, and carries the clock of one of its writes. */
  lemma {:induction false} UpsertStamps(rows: seq<Row>, account: AccountId, batch: seq<NormalizedTx>,
                                        stamp: nat -> int, n: nat, i: RowId)
    requires n <= |batch| && i < |rows|
    ensures var p := Upsert(rows, account, batch, stamp, n);
            && |rows| <= |p.rows|
            && (p.rows[i] == rows[i] || exists k: nat :: k < n && p.rows[i].updatedAt == stamp(k))
  {
    hide UpsertOne;
    if n > 0 {
      UpsertStamps(rows, account, batch, stamp, n - 1, i);
      UpsertOneKeeps(Upsert(rows, account, batch, stamp, n - 1), account, batch[n - 1], stamp(n - 1));
    }
  }

  // ----------------------------------------------------- unique constraints

  /** Every stored hash is the id form of the row's own id, or a fingerprint form. */
  predicate Identified(account: AccountId, id: Option<string>, hash: string) {
    match id
    case Some(v) => v != "" && hash == PtidHash(account, v)
    case None => IsFingerprintForm(account, hash)
  }

  ghost predicate ValidTable(rows: seq<Row>) {
    && (forall i, j :: 0 <= i < j < |rows| ==> !Clashes(rows[i], rows[j]))
    && (forall i :: 0 <= i < |rows| ==> Identified(rows[i].accountId, rows[i].providerTransactionId, rows[i].rawHash))
    && (forall i :: 0 <= i < |rows| ==> HoldsDay(rows[i]))
  }

  /** A DATE column holds a day. */
  predicate HoldsDay(row: Row) {
    row.bookedDate.Some? ==> row.bookedDate.value % DAY_MS == 0
  }

  predicate WellIdentified(account: AccountId, ntx: NormalizedTx) {
    Identified(account, ntx.tx.providerTransactionId, ntx.rawHash)
  }

  ghost predicate WellIdentifiedBatch(account: AccountId, batch: seq<NormalizedTx>) {
    forall i :: 0 <= i < |batch| ==> WellIdentified(account, batch[i])
  }

  /** The provider boundary never yields an empty id (see Mapper.MapTransaction). */
  predicate NoEmptyIds(batch: seq<ProviderTx>) {
    forall i :: 0 <= i < |batch| ==> batch[i].providerTransactionId != Some("")
  }

  lemma NormalizedIsIdentified(rt: Runtime, account: AccountId, batch: seq<ProviderTx>)
    requires NoEmptyIds(batch)
    ensures WellIdentifiedBatch(account, Normalized(rt, account, batch))
  {
    forall i | 0 <= i < |batch| ensures WellIdentified(account, Normalized(rt, account, batch)[i]) {
      if !HasId(batch[i]) {
        FingerprintHashForm(rt, account, batch[i],
                            Numbering.Occurrence(ByFingerprint(rt, account), batch, i));
      }
    }
  }

  /** Two identified transactions have the same hash exactly when they have the same lookup key. */
  lemma IdentityIsTheHash(account: AccountId, row: Row, ntx: NormalizedTx)
    requires row.accountId == account && Identified(account, row.providerTransactionId, row.rawHash)
    requires WellIdentified(account, ntx)
    ensures Bears(row, account, KeyOf(ntx)) <==> row.rawHash == ntx.rawHash
    ensures row.rawHash == ntx.rawHash ==> row.providerTransactionId == ntx.tx.providerTransactionId
    ensures row.providerTransactionId.Some? && row.providerTransactionId == ntx.tx.providerTransactionId
            ==> row.rawHash == ntx.rawHash
  {
    match (row.providerTransactionId, ntx.tx.providerTransactionId) {
      case (Some(a), Some(b)) =>
        if row.rawHash == ntx.rawHash {
          PtidHashInjective(account, a, b);
        }
      case (Some(a), None) => FormsAreDisjoint(account, a);
      case (None, Some(b)) => FormsAreDisjoint(account, b);
      case (None, None) =>
    }
  }

  lemma UpsertOneIsSafe(p: Progress, account: AccountId, ntx: NormalizedTx, stamp: int)
    requires !p.failed && ValidTable(p.rows) && WellIdentified(account, ntx)
    ensures !UpsertOne(p, account, ntx, stamp).failed
    ensures ValidTable(UpsertOne(p, account, ntx, stamp).rows)
  {
    forall i | 0 <= i < |p.rows| && p.rows[i].accountId == account
      ensures Bears(p.rows[i], account, KeyOf(ntx)) <==> Clashes(p.rows[i], NewRow(account, ntx, stamp))
    {
      IdentityIsTheHash(account, p.rows[i], ntx);
    }
  }

  /** Uniqueness is inductive: from a valid table, no create of an upsert is ever refused, whatever the
      batch repeats, and the table stays valid. */
  lemma {:induction false} UpsertNeverViolates(rows: seq<Row>, account: AccountId, batch: seq<NormalizedTx>,
                                               stamp: nat -> int, n: nat)
    requires ValidTable(rows) && WellIdentifiedBatch(account, batch) && n <= |batch|
    ensures !Upsert(rows, account, batch, stamp, n).failed
    ensures ValidTable(Upsert(rows, account, batch, stamp, n).rows)
  {
    if n > 0 {
      UpsertNeverViolates(rows, account, batch, stamp, n - 1);
      UpsertOneIsSafe(Upsert(rows, account, batch, stamp, n - 1), account, batch[n - 1], stamp(n - 1));
    }
  }

  /** Without the guarantee the constraint does refuse: two new transactions with an empty id. */
  lemma EmptyIdsViolate(account: AccountId, a: NormalizedTx, b: NormalizedTx, stamp: nat -> int)
    requires a.tx.providerTransactionId == Some("") && b.tx.providerTransactionId == Some("")
    requires a.rawHash != b.rawHash
    ensures Upsert([], account, [a, b], stamp, 2).failed
  {
    var p := Upsert([], account, [a, b], stamp, 1);
    assert p == UpsertOne(Upsert([], account, [a, b], stamp, 0), account, a, stamp(0));
    assert p.rows == [NewRow(account, a, stamp(0))];
    assert Clashes(p.rows[0], NewRow(account, b, stamp(1)));
  }

  // ---------------------------------------------------- steps on the table

  /** What a step may do to a row: identity and bank amounts stay, a dead row is frozen, and only pendings die. */
  predicate RowStep(before: Row, after: Row) {
    && Keeps(before, after)
    && (HoldsDay(before) ==> HoldsDay(after))
    && (before.Live() && !after.Live() ==> after.status == before.status == Pending)
  }

  ghost predicate TableStep(before: seq<Row>, after: seq<Row>) {
    && |before| <= |after|
    && (forall i :: 0 <= i < |before| ==> RowStep(before[i], after[i]))
    && (forall i :: |before| <= i < |after| ==> after[i].Live())
  }

  ghost predicate OnlyPendingsDie(rows: seq<Row>) {
    forall i :: 0 <= i < |rows| && !rows[i].Live() ==> rows[i].status == Pending
  }

  lemma IngestStep(rt: Runtime, rows: seq<Row>, account: AccountId, batch: seq<ProviderTx>, stamp: nat -> int, n: nat)
    requires ValidTable(rows) && NoEmptyIds(batch) && n <= |batch|
    ensures var p := Upsert(rows, account, Normalized(rt, account, batch), stamp, n);
            !p.failed && ValidTable(p.rows) && TableStep(rows, p.rows)
  {
    hide Upsert, Normalized;
    var b := Normalized(rt, account, batch);
    NormalizedIsIdentified(rt, account, batch);
    UpsertNeverViolates(rows, account, b, stamp, n);
    UpsertConserves(rows, account, b, stamp, n);
    var p := Upsert(rows, account, b, stamp, n);
    forall i | 0 <= i < |rows| ensures RowStep(rows[i], p.rows[i]) {
      assert UpsertKeeps(account, rows[i], p.rows[i]);
    }
    forall i | |rows| <= i < |p.rows| ensures p.rows[i].Live() {
      assert FreshRow(account, p.rows[i]);
    }
  }

  /** The columns the unique constraints and the DATE column look at, and the status. */
  predicate SameKey(a: Row, b: Row) {
    && a.accountId == b.accountId && a.providerTransactionId == b.providerTransactionId
    && a.rawHash == b.rawHash && a.bookedDate == b.bookedDate && a.status == b.status
  }

  lemma SameKeysSameValidity(before: seq<Row>, after: seq<Row>)
    requires ValidTable(before) && |after| == |before|
    requires forall i :: 0 <= i < |before| ==> SameKey(before[i], after[i])
    ensures ValidTable(after)
  {
    hide Identified;
    forall i, j | 0 <= i < j < |after| ensures !Clashes(after[i], after[j]) {
      assert !Clashes(before[i], before[j]);
    }
    forall i | 0 <= i < |after|
      ensures Identified(after[i].accountId, after[i].providerTransactionId, after[i].rawHash) && HoldsDay(after[i])
    {
      assert Identified(before[i].accountId, before[i].providerTransactionId, before[i].rawHash) && HoldsDay(before[i]);
    }
  }

  lemma DeadStayPending(before: seq<Row>, after: seq<Row>)
    requires OnlyPendingsDie(before) && TableStep(before, after)
    ensures OnlyPendingsDie(after)
  {
    forall i | 0 <= i < |after| && !after[i].Live() ensures after[i].status == Pending {
      assert i < |before| ==> RowStep(before[i], after[i]);
    }
  }
}
