/** When the row of an identity is live: only pendings are ever soft-deleted, and nothing revives them. */
module Liveness {
  import opened Domain
  import opened Export
  import opened Normalize
  import opened Origins
  import opened Protocol
  import opened Reconciler
  import opened Store
  import opened StoreRefinement

  /** The row of the identity, if there is one and it is live, is settled. */
  ghost predicate SettledIfLive(rows: seq<Row>, account: AccountId, h: string) {
    forall r :: Holds(rows, account, h, r) && rows[r].Live() ==> rows[r].status == Settled
  }

  /** The step does not ingest a report of the identity as pending. */
  ghost predicate NoPendingIn(rt: Runtime, step: Step, account: AccountId, h: string) {
    step.Ingest? && step.account == account ==>
      forall k: nat | k < step.done && k < |step.batch| && StableHash(rt, account, step.batch, k) == h ::
        step.batch[k].status == Settled
  }

  /** From step `m` on and before step `n`, the identity is not reported as pending. */
  ghost predicate NoPendingReport(rt: Runtime, steps: seq<Step>, m: nat, n: nat, account: AccountId, h: string) {
    n <= |steps| && forall j :: m <= j < n ==> NoPendingIn(rt, steps[j], account, h)
  }

  // ------------------------------------------------------------- one ingest

  lemma {:induction false} UpsertKeepsSettled(rt: Runtime, rows: seq<Row>, writer: AccountId, batch: seq<ProviderTx>,
                                              stamp: nat -> int, n: nat, account: AccountId, h: string, i: RowId)
    requires ValidTable(rows) && NoEmptyIds(batch) && n <= |batch| && SettledIfLive(rows, account, h)
    requires writer == account ==>
               forall k: nat | k < n && StableHash(rt, writer, batch, k) == h :: batch[k].status == Settled
    requires Holds(Upsert(rows, writer, Normalized(rt, writer, batch), stamp, n).rows, account, h, i)
    requires Upsert(rows, writer, Normalized(rt, writer, batch), stamp, n).rows[i].Live()
    ensures Upsert(rows, writer, Normalized(rt, writer, batch), stamp, n).rows[i].status == Settled
  {
    hide UpsertOne, ValidTable, StableHash, WellIdentifiedBatch;
    if n > 0 {
      var b := Normalized(rt, writer, batch);
      var p := Upsert(rows, writer, b, stamp, n - 1);
      NormalizedIsIdentified(rt, writer, batch);
      UpsertNeverViolates(rows, writer, b, stamp, n - 1);
      InBatch(writer, b, n - 1);
      TurnOfRow(p, writer, b[n - 1], stamp(n - 1), i);
      if i < |p.rows| {
        assert Holds(p.rows, account, h, i);
        UpsertKeepsSettled(rt, rows, writer, batch, stamp, n - 1, account, h, i);
      }
    }
  }

  /** An ingest soft-deletes nothing and revives nothing. */
  lemma IngestKeepsTheDead(rows: seq<Row>, writer: AccountId, batch: seq<NormalizedTx>, stamp: nat -> int, n: nat,
                           account: AccountId, h: string)
    requires n <= |batch|
    ensures DeadIdentity(Upsert(rows, writer, batch, stamp, n).rows, account, h) <==> DeadIdentity(rows, account, h)
  {
    hide Upsert;
    var after := Upsert(rows, writer, batch, stamp, n).rows;
    UpsertConserves(rows, writer, batch, stamp, n);
    forall i | 0 <= i < |after|
      ensures Holds(after, account, h, i) && !after[i].Live() <==> Holds(rows, account, h, i) && !rows[i].Live()
    {
      if i < |rows| {
        assert UpsertKeeps(writer, rows[i], after[i]);
      } else {
        assert FreshRow(writer, after[i]);
      }
    }
  }

  // --------------------------------------------------------------- every run

  lemma StepKeepsLiveness(rt: Runtime, s: Sys, step: Step, account: AccountId, h: string)
    requires Sound(s) && Enabled(s, step) && SettledIfLive(s.rows, account, h) && NoPendingIn(rt, step, account, h)
    ensures SettledIfLive(Next(rt, s, step).rows, account, h)
    ensures DeadIdentity(Next(rt, s, step).rows, account, h) <==> DeadIdentity(s.rows, account, h)
  {
    hide Upsert, Reconciled, ExportAll, ValidTable, StableHash, Normalized;
    var after := Next(rt, s, step).rows;
    SoundIsValid(s);
    if step.Ingest? {
      IngestKeepsTheDead(s.rows, step.account, Normalized(rt, step.account, step.batch), step.stamp,
                       step.done, account, h);
      forall i | Holds(after, account, h, i) && after[i].Live() ensures after[i].status == Settled {
        UpsertKeepsSettled(rt, s.rows, step.account, step.batch, step.stamp, step.done, account, h, i);
      }
    } else {
      OnlyIngestsTouchKeys(rt, s, step);
      StepIsSafe(rt, s, step);
      SettledRowsStay(s.rows, after, account, h);
    }
  }

  lemma SettledRowsStay(before: seq<Row>, after: seq<Row>, account: AccountId, h: string)
    requires |after| == |before| && TableStep(before, after) && SettledIfLive(before, account, h)
    requires forall i :: 0 <= i < |before| ==> SameKey(before[i], after[i])
    ensures SettledIfLive(after, account, h)
    ensures DeadIdentity(after, account, h) <==> DeadIdentity(before, account, h)
  {
    forall i | 0 <= i < |before|
      ensures Holds(after, account, h, i) <==> Holds(before, account, h, i)
      ensures Holds(before, account, h, i) ==> after[i].Live() == before[i].Live()
    {
      assert RowStep(before[i], after[i]) && SameKey(before[i], after[i]);
    }
  }

  /** Between two moments of a run in which an identity, settled if live, is not reported as pending, its row neither
      dies nor comes back. */
  lemma {:induction false} LivenessIsKept(rt: Runtime, states: seq<Sys>, steps: seq<Step>, m: nat, n: nat,
                                          account: AccountId, h: string)
    requires Run(rt, states, steps) && m <= n <= |steps|
    requires SettledIfLive(states[m].rows, account, h) && NoPendingReport(rt, steps, m, n, account, h)
    ensures SettledIfLive(states[n].rows, account, h)
    ensures DeadIdentity(states[n].rows, account, h) <==> DeadIdentity(states[m].rows, account, h)
  {
    hide Next, Enabled, Sound, SettledIfLive, DeadIdentity, NoPendingIn;
    if m < n {
      LivenessIsKept(rt, states, steps, m, n - 1, account, h);
      RunIsSound(rt, states, steps, n - 1);
      StepKeepsLiveness(rt, states[n - 1], steps[n - 1], account, h);
    }
  }

  /** An identity that was never reported as pending is never soft-deleted. */
  lemma NeverPendingNeverDead(rt: Runtime, states: seq<Sys>, steps: seq<Step>, n: nat, account: AccountId, h: string)
    requires Run(rt, states, steps) && n <= |steps| && NoPendingReport(rt, steps, 0, n, account, h)
    ensures !DeadIdentity(states[n].rows, account, h) && SettledIfLive(states[n].rows, account, h)
  {
    hide Next, NoPendingReport;
    LivenessIsKept(rt, states, steps, 0, n, account, h);
  }

  /** The row of a report, right after its ingest: live exactly when its identity was not dead before. */
  lemma LiveAfterIngest(rt: Runtime, states: seq<Sys>, steps: seq<Step>, s: nat, account: AccountId, h: string,
                        r: RowId)
    requires Run(rt, states, steps) && s < |steps| && steps[s].Ingest?
    requires Holds(states[s + 1].rows, account, h, r)
    ensures states[s + 1].rows[r].Live() <==> !DeadIdentity(states[s].rows, account, h)
  {
    hide Upsert, Normalized, ValidTable;
    var Ingest(a, batch, stamp, done) := steps[s];
    IngestKeepsTheDead(states[s].rows, a, Normalized(rt, a, batch), stamp, done, account, h);
    DeadExactlyWhenItsRowIs(rt, states, steps, s + 1, account, h, r);
  }

  /** There is one row per identity. */
  lemma DeadExactlyWhenItsRowIs(rt: Runtime, states: seq<Sys>, steps: seq<Step>, n: nat, account: AccountId,
                                h: string, r: RowId)
    requires Run(rt, states, steps) && n <= |steps| && Holds(states[n].rows, account, h, r)
    ensures states[n].rows[r].Live() <==> !DeadIdentity(states[n].rows, account, h)
  {
    hide Next, Enabled;
    if i :| Holds(states[n].rows, account, h, i) && !states[n].rows[i].Live() {
      StoredOnce(rt, states, steps, n, account, h, r, i);
    }
  }

  /** What is known of the row after step `s` holds on: it is settled if live, and not reported as pending since. */
  ghost predicate SettledSince(rt: Runtime, states: seq<Sys>, steps: seq<Step>, s: nat, n: nat, account: AccountId,
                               h: string)
  {
    s < |states| && SettledIfLive(states[s].rows, account, h) && NoPendingReport(rt, steps, s, n, account, h)
  }

  /** Exactly when the row of an ingested report is live, then and later. */
  lemma LiveExactlyWhen(rt: Runtime, states: seq<Sys>, steps: seq<Step>, s: nat, n: nat, account: AccountId, h: string,
                        r: RowId)
    requires Run(rt, states, steps) && s < n <= |steps| && steps[s].Ingest? && Holds(states[s + 1].rows, account, h, r)
    requires n == s + 1 || SettledSince(rt, states, steps, s + 1, n, account, h)
    ensures Holds(states[n].rows, account, h, r)
    ensures states[n].rows[r].Live() <==> !DeadIdentity(states[s].rows, account, h)
  {
    hide Next, Enabled, SettledIfLive, NoPendingReport, DeadIdentity;
    LiveAfterIngest(rt, states, steps, s, account, h, r);
    HistoryIsSafe(rt, states, steps, s + 1, n);
    assert Keeps(states[s + 1].rows[r], states[n].rows[r]);
    if n > s + 1 {
      LivenessIsKept(rt, states, steps, s + 1, n, account, h);
      DeadExactlyWhenItsRowIs(rt, states, steps, s + 1, account, h, r);
      DeadExactlyWhenItsRowIs(rt, states, steps, n, account, h, r);
    }
  }
}
