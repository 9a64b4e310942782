/** Runs of the ingestion protocol: any sequence of ingests, reconciliations and exports, each of which may
    be cut short anywhere by a failure, starting from an empty database. */
module Protocol {
  import opened Convergence
  import opened Domain
  import opened Export
  import opened Gateway
  import opened MirrorCoherence
  import opened Normalize
  import opened Numbering
  import opened Reconciler
  import opened Store
  import opened StoreRefinement

  /** `done` is how far the step got: the number of transactions, pendings or accounts it worked through. */
  datatype Step =
    | Ingest(account: AccountId, batch: seq<ProviderTx>, stamp: nat -> int, done: nat)
    | Reconcile(account: AccountId, ps: seq<RowId>, ss: seq<RowId>, o: Options, done: nat)
    | ExportTo(accountIds: Option<set<AccountId>>, ids: seq<RowId>, groups: seq<Group>, fate: AccountId -> Fate,
               done: nat)

  /** The step is one the code can take: its queries were answered truthfully, and the provider boundary
      yields no empty ids. */
  ghost predicate Enabled(s: Sys, step: Step) {
    match step
    case Ingest(_, batch, _, done) => NoEmptyIds(batch) && done <= |batch|
    case Reconcile(account, ps, ss, _, done) =>
      Answer(s.rows, account, Pending, ps) && Answer(s.rows, account, Settled, ss) && done <= |ps|
    case ExportTo(accountIds, ids, groups, _, done) =>
      && PendingRows(s.rows, accountIds, ids) && Grouped(s.rows, ids, groups)
      && GroupsInRows(s.rows, groups) && done <= |groups|
  }

  ghost function Next(rt: Runtime, s: Sys, step: Step): Sys
    requires Enabled(s, step)
  {
    match step
    case Ingest(account, batch, stamp, done) =>
      s.(rows := Upsert(s.rows, account, Normalized(rt, account, batch), stamp, done).rows)
    case Reconcile(account, ps, ss, o, done) => s.(rows := Reconciled(rt, s.rows, ps, ss, o, done))
    case ExportTo(accountIds, ids, groups, fate, done) => ExportAll(s, groups, fate, done).s
  }

  const EMPTY := Sys([], map[], Actual(map[], 1, []))

  /** Each state leads to the next by its step. */
  ghost predicate Path(rt: Runtime, states: seq<Sys>, steps: seq<Step>) {
    && |states| == |steps| + 1
    && (forall i :: 0 <= i < |steps| ==> Enabled(states[i], steps[i]) && states[i + 1] == Next(rt, states[i], steps[i]))
  }

  /** `states` is a run: the empty system, and after each step the system the step leads to. */
  ghost predicate Run(rt: Runtime, states: seq<Sys>, steps: seq<Step>) {
    Path(rt, states, steps) && states[0] == EMPTY
  }

  // ------------------------------------------------------------ every step

  ghost predicate Sound(s: Sys) {
    && ValidTable(s.rows)
    && OnlyPendingsDie(s.rows)
    && OneToOne(s.actual.seen, s.actual.nextId)
  }

  /** Every step keeps the table valid, removes nothing, revives nothing and reassigns no Actual id. */
  lemma StepIsSafe(rt: Runtime, s: Sys, step: Step)
    requires Sound(s) && Enabled(s, step)
    ensures Sound(Next(rt, s, step))
    ensures TableStep(s.rows, Next(rt, s, step).rows)
    ensures Extends(s.actual.seen, Next(rt, s, step).actual.seen)
  {
    hide ValidTable, OneToOne, OnlyPendingsDie, TableStep, ExportAll, Reconciled, Upsert;
    var s' := Next(rt, s, step);
    match step {
      case Ingest(account, batch, stamp, done) =>
        IngestStep(rt, s.rows, account, batch, stamp, done);
      case Reconcile(account, ps, ss, o, done) =>
        ReconcileStep(rt, s.rows, account, ps, ss, o, done);
        SameKeysSameValidity(s.rows, s'.rows);
      case ExportTo(accountIds, ids, groups, fate, done) =>
        QueryIsPlan(s.rows, accountIds, ids, groups);
        ExportKeepsBankData(s, groups, fate, done);
        SameBankDataSteps(s.rows, s'.rows);
        SameKeysSameValidity(s.rows, s'.rows);
    }
    DeadStayPending(s.rows, s'.rows);
  }

  lemma SameBankDataSteps(before: seq<Row>, after: seq<Row>)
    requires |before| == |after|
    requires forall i :: 0 <= i < |before| ==>
               SameBankData(before[i], after[i]) && (!before[i].Live() ==> after[i] == before[i])
    ensures TableStep(before, after)
    ensures forall i :: 0 <= i < |before| ==> SameKey(before[i], after[i])
  {
  }

  /** The accounts a step works on. */
  predicate Touches(step: Step, account: AccountId) {
    match step
    case Ingest(a, _, _, _) => account == a
    case Reconcile(a, _, _, _, _) => account == a
    case ExportTo(accountIds, _, _, _, _) => accountIds.Some? ==> account in accountIds.value
  }

  /** A step leaves the rows of all other accounts alone: runs of different connections share no row. */
  lemma StepIsLocal(rt: Runtime, s: Sys, step: Step, i: RowId)
    requires Sound(s) && Enabled(s, step) && i < |s.rows| && !Touches(step, s.rows[i].accountId)
    ensures i < |Next(rt, s, step).rows| && Next(rt, s, step).rows[i] == s.rows[i]
  {
    hide ValidTable, ExportAll, Reconciled, Upsert, Normalized, Removed, ByTimestamp;
    StepIsSafe(rt, s, step);
    match step {
      case Ingest(account, batch, stamp, done) =>
        UpsertConserves(s.rows, account, Normalized(rt, account, batch), stamp, done);
        assert UpsertKeeps(account, s.rows[i], Next(rt, s, step).rows[i]);
      case Reconcile(account, ps, ss, o, done) =>
        RowsAfter(rt, s.rows, ps, ss, o, done, i);
        if i in Removed(rt, s.rows, ps, ss, o, done) {
          PrefixIsSelected(s.rows, account, ps, done, i);
        }
      case ExportTo(accountIds, ids, groups, fate, done) =>
        QueryIsPlan(s.rows, accountIds, ids, groups);
        assert i !in ids;
        EachRowInOneBatch(s.rows, ids, groups, i);
        ExportOutside(s, groups, fate, done, i);
    }
  }

  // -------------------------------------------------------------- every run

  /** Safety over whole runs: unique constraints hold, only pendings are ever soft-deleted, and local and
      Actual transactions correspond one to one. */
  lemma {:induction false} RunIsSound(rt: Runtime, states: seq<Sys>, steps: seq<Step>, n: nat)
    requires Run(rt, states, steps) && n <= |steps|
    ensures Sound(states[n])
  {
    hide Next, Sound;
    if n == 0 {
      EmptyIsSound();
    } else {
      RunIsSound(rt, states, steps, n - 1);
      StepIsSafe(rt, states[n - 1], steps[n - 1]);
    }
  }

  lemma EmptyIsSound()
    ensures Sound(EMPTY)
  {
  }

  /** History safety: between any two moments of a run no row is removed or loses its bank identity, a
      soft-deleted row is frozen, and no local id is given another Actual transaction. */
  lemma {:induction false} HistoryIsSafe(rt: Runtime, states: seq<Sys>, steps: seq<Step>, m: nat, n: nat)
    requires Run(rt, states, steps) && m <= n <= |steps|
    ensures |states[m].rows| <= |states[n].rows|
    ensures forall i :: 0 <= i < |states[m].rows| ==> Keeps(states[m].rows[i], states[n].rows[i])
    ensures Extends(states[m].actual.seen, states[n].actual.seen)
  {
    hide Next, Sound;
    if m < n {
      HistoryIsSafe(rt, states, steps, m, n - 1);
      RunIsSound(rt, states, steps, n - 1);
      StepIsSafe(rt, states[n - 1], steps[n - 1]);
      assert forall i :: 0 <= i < |states[n - 1].rows| ==> RowStep(states[n - 1].rows[i], states[n].rows[i]);
    }
  }

  /** The writes of each ingest are stamped after everything exported from its account. */
  ghost predicate Timely(states: seq<Sys>, steps: seq<Step>)
    requires |states| == |steps| + 1
  {
    forall i :: 0 <= i < |steps| && steps[i].Ingest? ==> StampedLater(states[i].rows, steps[i].account, steps[i].stamp)
  }

  /** Mirror coherence over every run with arbitrary failures: a live row the export would pass over is held
      by Actual exactly as it is. */
  lemma {:induction false} RunIsCoherent(rt: Runtime, states: seq<Sys>, steps: seq<Step>, n: nat)
    requires Run(rt, states, steps) && Timely(states, steps) && n <= |steps|
    ensures Coherent(states[n])
  {
    hide Coherent, Next, Enabled, StampedLater;
    if n == 0 {
      EmptyIsCoherent();
    } else {
      RunIsCoherent(rt, states, steps, n - 1);
      StepKeepsCoherence(rt, states[n - 1], steps[n - 1]);
    }
  }

  /** Mirror coherence survives every step, cut short anywhere. */
  lemma StepKeepsCoherence(rt: Runtime, s: Sys, step: Step)
    requires Coherent(s) && Enabled(s, step)
    requires step.Ingest? ==> StampedLater(s.rows, step.account, step.stamp)
    ensures Coherent(Next(rt, s, step))
  {
    hide Coherent, ExportAll, Reconciled, Upsert, StampedLater, Normalized, Answer, PendingRows, Grouped;
    match step {
      case Ingest(account, batch, stamp, done) =>
        UpsertKeepsCoherence(s, account, Normalized(rt, account, batch), stamp, done);
      case Reconcile(account, ps, ss, o, done) =>
        ReconcileKeepsCoherence(rt, s, account, ps, ss, o, done);
      case ExportTo(accountIds, ids, groups, fate, done) =>
        QueryIsPlan(s.rows, accountIds, ids, groups);
        ExportKeepsCoherence(s, groups, fate, done);
    }
  }

  lemma EmptyIsCoherent()
    ensures Coherent(EMPTY)
  {
  }

  lemma ReconcileKeepsCoherence(rt: Runtime, s: Sys, account: AccountId, ps: seq<RowId>, ss: seq<RowId>, o: Options,
                                n: nat)
    requires Coherent(s) && Answer(s.rows, account, Pending, ps) && Answer(s.rows, account, Settled, ss) && n <= |ps|
    ensures Coherent(s.(rows := Reconciled(rt, s.rows, ps, ss, o, n)))
  {
    hide Reconciled, Removed, ByTimestamp, ToImport, Mirror;
    var s' := s.(rows := Reconciled(rt, s.rows, ps, ss, o, n));
    forall i: RowId | i < |s'.rows| ensures CoherentRow(s', Mirror(s'.actual.batches), i) {
      assert CoherentRow(s, Mirror(s.actual.batches), i);
      RowsAfter(rt, s.rows, ps, ss, o, n, i);
    }
  }

  // -------------------------------------------------------- high-water mark

  function Max(a: nat, b: nat): nat { if a < b then b else a }

  /** The largest number of rows with fingerprint `key` in one batch of the account, among the first `n`
      steps; with `completed`, counting only batches that were ingested to the end. */
  ghost function HighWater(rt: Runtime, steps: seq<Step>, n: nat, account: AccountId, key: string, completed: bool): nat
    requires n <= |steps|
  {
    if n == 0 then 0
    else
      var before := HighWater(rt, steps, n - 1, account, key, completed);
      match steps[n - 1]
      case Ingest(a, batch, _, done) =>
        if a == account && (completed ==> done == |batch|)
        then Max(before, KeyCount(ByFingerprint(rt, account), batch, key)) else before
      case _ => before
  }

  /** The hashes a batch prefix brings for one fingerprint. */
  lemma HashesOfKey(rt: Runtime, account: AccountId, batch: seq<ProviderTx>, n: nat, tx: ProviderTx, o: nat)
    requires Collates(rt) && n <= |batch|
    ensures var key := FingerprintKey(rt, account, tx);
            var h := FingerprintHash(key, o);
            var count := KeyCount(ByFingerprint(rt, account), batch, key);
            && ((exists k :: 0 <= k < n && Normalized(rt, account, batch)[k].rawHash == h) ==> o < count)
            && (n == |batch| && o < count ==> exists k :: 0 <= k < n && Normalized(rt, account, batch)[k].rawHash == h)
  {
    hide FingerprintKey, FingerprintHash, Occurrence, KeyCount;
    var key := FingerprintKey(rt, account, tx);
    var h := FingerprintHash(key, o);
    var s := ByFingerprint(rt, account);
    ComparatorIsPreorder(rt, account);
    if k :| 0 <= k < n && Normalized(rt, account, batch)[k].rawHash == h {
      HashNamesOccurrence(rt, account, batch, k, tx, o);
      OccurrenceBelowCount(s, batch, key, k);
    }
    if o < KeyCount(s, batch, key) {
      OccurrenceIsTaken(s, batch, key, o);
      var k :| k in Carriers(s, batch, key) && Occurrence(s, batch, k) == o;
      assert Normalized(rt, account, batch)[k].rawHash == h;
    }
  }

  lemma HashNamesOccurrence(rt: Runtime, account: AccountId, batch: seq<ProviderTx>, k: nat, tx: ProviderTx, o: nat)
    requires k < |batch| && StableHash(rt, account, batch, k) == FingerprintHash(FingerprintKey(rt, account, tx), o)
    ensures k in Carriers(ByFingerprint(rt, account), batch, FingerprintKey(rt, account, tx))
    ensures Occurrence(ByFingerprint(rt, account), batch, k) == o
  {
    hide FingerprintKey, Occurrence;
    FingerprintHashForm(rt, account, tx, o);
    if HasId(batch[k]) {
      FormsAreDisjoint(account, batch[k].providerTransactionId.value);
    } else {
      FingerprintHashInjective(FingerprintKey(rt, account, batch[k]), Occurrence(ByFingerprint(rt, account), batch, k),
                               FingerprintKey(rt, account, tx), o);
    }
  }

  /** Only ingests create rows or write the key columns and the booked date. */
  lemma OnlyIngestsTouchKeys(rt: Runtime, s: Sys, step: Step)
    requires Sound(s) && Enabled(s, step) && !step.Ingest?
    ensures |Next(rt, s, step).rows| == |s.rows|
    ensures forall i :: 0 <= i < |s.rows| ==> SameKey(s.rows[i], Next(rt, s, step).rows[i])
  {
    hide ValidTable, ExportAll, Reconciled;
    match step {
      case Reconcile(a, ps, ss, o, done) => ReconcileStep(rt, s.rows, a, ps, ss, o, done);
      case ExportTo(accountIds, ids, groups, fate, done) =>
        QueryIsPlan(s.rows, accountIds, ids, groups);
        ExportKeepsBankData(s, groups, fate, done);
        SameBankDataSteps(s.rows, Next(rt, s, step).rows);
    }
  }

  /** Only ingests change which identities are stored. */
  lemma StoredAfterStep(rt: Runtime, s: Sys, step: Step, account: AccountId, h: string)
    requires Sound(s) && Enabled(s, step)
    ensures Stored(Next(rt, s, step).rows, account, h) <==>
            Stored(s.rows, account, h) ||
            (step.Ingest? && step.account == account &&
             exists k :: 0 <= k < step.done && Normalized(rt, account, step.batch)[k].rawHash == h)
  {
    hide ValidTable, ExportAll, Reconciled, Upsert, Normalized;
    if step.Ingest? {
      NormalizedIsIdentified(rt, step.account, step.batch);
      StoredAfter(s.rows, step.account, Normalized(rt, step.account, step.batch), step.stamp, step.done, account, h);
    } else {
      OnlyIngestsTouchKeys(rt, s, step);
      SameKeysSameStored(s.rows, Next(rt, s, step).rows, account, h);
    }
  }

  lemma SameKeysSameStored(before: seq<Row>, after: seq<Row>, account: AccountId, h: string)
    requires |after| == |before| && forall i :: 0 <= i < |before| ==> SameKey(before[i], after[i])
    ensures Stored(after, account, h) <==> Stored(before, account, h)
  {
    assert forall i :: Holds(after, account, h, i) <==> Holds(before, account, h, i);
  }

  /** High-water mark: for every fingerprint, the stored occurrences include 0 .. m - 1 for the largest count
      m seen in one completely ingested batch, and none beyond the largest count of any batch. When no
      ingest was cut short the two marks agree and the stored occurrences are exactly 0 .. m - 1. */
  lemma {:induction false} HighWaterMark(rt: Runtime, states: seq<Sys>, steps: seq<Step>, n: nat, account: AccountId,
                                         tx: ProviderTx, o: nat)
    requires Collates(rt) && Run(rt, states, steps) && n <= |steps|
    ensures var key := FingerprintKey(rt, account, tx);
            var stored := Stored(states[n].rows, account, FingerprintHash(key, o));
            && (o < HighWater(rt, steps, n, account, key, true) ==> stored)
            && (stored ==> o < HighWater(rt, steps, n, account, key, false))
  {
    hide FingerprintKey, FingerprintHash, KeyCount, Next, Sound, Normalized;
    var key := FingerprintKey(rt, account, tx);
    if n > 0 {
      HighWaterMark(rt, states, steps, n - 1, account, tx, o);
      RunIsSound(rt, states, steps, n - 1);
      StoredAfterStep(rt, states[n - 1], steps[n - 1], account, FingerprintHash(key, o));
      if steps[n - 1].Ingest? && steps[n - 1].account == account {
        assert Enabled(states[n - 1], steps[n - 1]);
        HashesOfKey(rt, account, steps[n - 1].batch, steps[n - 1].done, tx, o);
      }
    } else {
      NothingStored(account, FingerprintHash(key, o));
    }
  }

  lemma NothingStored(account: AccountId, h: string)
    ensures !Stored(EMPTY.rows, account, h)
  {
  }

  lemma {:induction false} MarksAgree(rt: Runtime, steps: seq<Step>, n: nat, account: AccountId, key: string)
    requires n <= |steps| && forall i :: 0 <= i < n && steps[i].Ingest? ==> steps[i].done == |steps[i].batch|
    ensures HighWater(rt, steps, n, account, key, true) == HighWater(rt, steps, n, account, key, false)
  {
    hide KeyCount;
    if n > 0 {
      MarksAgree(rt, steps, n - 1, account, key);
    }
  }

  /** Step `i` reports more than `o` rows of the fingerprint in one batch. */
  ghost predicate ReportsTogether(rt: Runtime, steps: seq<Step>, i: int, account: AccountId, key: string, o: nat,
                                  completed: bool) {
    && 0 <= i < |steps| && steps[i].Ingest? && steps[i].account == account
    && (completed ==> steps[i].done == |steps[i].batch|)
    && o < KeyCount(ByFingerprint(rt, account), steps[i].batch, key)
  }

  lemma {:induction false} HighWaterExceeds(rt: Runtime, steps: seq<Step>, n: nat, account: AccountId, key: string,
                                            completed: bool, o: nat)
    requires n <= |steps|
    ensures o < HighWater(rt, steps, n, account, key, completed) <==>
            exists i :: i < n && ReportsTogether(rt, steps, i, account, key, o, completed)
  {
    hide KeyCount;
    if n > 0 {
      HighWaterExceeds(rt, steps, n - 1, account, key, completed, o);
      if o < HighWater(rt, steps, n, account, key, completed) &&
         !(o < HighWater(rt, steps, n - 1, account, key, completed)) {
        assert ReportsTogether(rt, steps, n - 1, account, key, o, completed);
      }
    }
  }

  /** Rows that look alike survive side by side exactly when one batch reports as many of them at once: rows
      reported one at a time all get occurrence 0 and fall together. */
  lemma SurviveTogetherExactlyWhen(rt: Runtime, states: seq<Sys>, steps: seq<Step>, n: nat, account: AccountId,
                                   tx: ProviderTx, o: nat)
    requires Collates(rt) && Run(rt, states, steps) && n <= |steps|
    requires forall i :: 0 <= i < n && steps[i].Ingest? ==> steps[i].done == |steps[i].batch|
    ensures var key := FingerprintKey(rt, account, tx);
            Stored(states[n].rows, account, FingerprintHash(key, o)) <==>
            exists i :: i < n && ReportsTogether(rt, steps, i, account, key, o, true)
  {
    hide FingerprintKey, FingerprintHash, HighWater, ReportsTogether, Run;
    var key := FingerprintKey(rt, account, tx);
    HighWaterMark(rt, states, steps, n, account, tx, o);
    MarksAgree(rt, steps, n, account, key);
    HighWaterExceeds(rt, steps, n, account, key, true, o);
  }

  /** Each stored identity is stored once. */
  lemma StoredOnce(rt: Runtime, states: seq<Sys>, steps: seq<Step>, n: nat, account: AccountId, h: string,
                   i: nat, j: nat)
    requires Run(rt, states, steps) && n <= |steps|
    requires Holds(states[n].rows, account, h, i) && Holds(states[n].rows, account, h, j)
    ensures i == j
  {
    RunIsSound(rt, states, steps, n);
    var rows := states[n].rows;
    assert Clashes(rows[i], rows[j]) && Clashes(rows[j], rows[i]);
  }
}
