/** One synchronisation run, whatever fails in it or makes it break off, is a path of protocol steps: what holds of
    all runs of the protocol holds of the tables that the method SyncEngine.RunSync leaves behind. */
module SyncRuns {
  import opened Domain
  import opened Export
  import opened MirrorCoherence
  import opened Normalize
  import opened Protocol
  import opened Reconciler
  import opened Store
  import opened SyncEngine
  import opened SyncWindow

  /** There is a path from `s` to `s'`. */
  ghost predicate Leads(rt: Runtime, s: Sys, s': Sys) {
    exists states, steps :: PathBetween(rt, states, steps, s, s')
  }

  ghost predicate PathBetween(rt: Runtime, states: seq<Sys>, steps: seq<Step>, s: Sys, s': Sys) {
    Path(rt, states, steps) && states[0] == s && states[|steps|] == s'
  }

  lemma LeadsToItself(rt: Runtime, s: Sys)
    ensures Leads(rt, s, s)
  {
    assert PathBetween(rt, [s], [], s, s);
  }

  lemma StepLeads(rt: Runtime, s: Sys, step: Step)
    requires Enabled(s, step)
    ensures Leads(rt, s, Next(rt, s, step))
  {
    hide Enabled, Next;
    assert PathBetween(rt, [s, Next(rt, s, step)], [step], s, Next(rt, s, step));
  }

  lemma PathsJoin(rt: Runtime, states: seq<Sys>, steps: seq<Step>, more: seq<Sys>, moreSteps: seq<Step>)
    requires Path(rt, states, steps) && Path(rt, more, moreSteps) && states[|steps|] == more[0]
    ensures Path(rt, states + more[1..], steps + moreSteps)
  {
    hide Enabled, Next;
    var all, allSteps := states + more[1..], steps + moreSteps;
    forall i | 0 <= i < |allSteps|
      ensures Enabled(all[i], allSteps[i]) && all[i + 1] == Next(rt, all[i], allSteps[i])
    {
      if i >= |steps| {
        assert all[i] == more[i - |steps|] && all[i + 1] == more[i - |steps| + 1];
      }
    }
  }

  lemma JoinBetween(rt: Runtime, states: seq<Sys>, steps: seq<Step>, more: seq<Sys>, moreSteps: seq<Step>,
                    a: Sys, b: Sys, c: Sys)
    requires PathBetween(rt, states, steps, a, b) && PathBetween(rt, more, moreSteps, b, c)
    ensures |more| > 0 && PathBetween(rt, states + more[1..], steps + moreSteps, a, c)
  {
    hide Path;
    PathLength(rt, states, steps);
    PathLength(rt, more, moreSteps);
    PathsJoin(rt, states, steps, more, moreSteps);
  }

  lemma LeadsOn(rt: Runtime, a: Sys, b: Sys, c: Sys)
    requires Leads(rt, a, b) && Leads(rt, b, c)
    ensures Leads(rt, a, c)
  {
    hide PathBetween;
    var states, steps :| PathBetween(rt, states, steps, a, b);
    var more, moreSteps :| PathBetween(rt, more, moreSteps, b, c);
    JoinBetween(rt, states, steps, more, moreSteps, a, b, c);
  }

  lemma PathLength(rt: Runtime, states: seq<Sys>, steps: seq<Step>)
    requires Path(rt, states, steps)
    ensures |states| == |steps| + 1
  {
  }

  /** The provider boundary yields no empty ids (see Mapper.BoundaryGuarantees). */
  ghost predicate BoundaryHolds(w: Outside) {
    forall from, to | w.provider(from, to).Reply? ::
      NoEmptyIds(w.provider(from, to).settled + w.provider(from, to).pending)
  }

  /** Syncing one account is nothing, an ingest, or an ingest and a reconciliation, each perhaps cut short. */
  lemma AccountSyncLeads(rt: Runtime, account: AccountId, c: Config, cursor: Option<int>, w: Outside, a: Tables,
                         b: Tables, result: AccountResult, s: Sys)
    requires AccountSync(rt, account, c, cursor, w, a, b, result) && BoundaryHolds(w) && s.rows == a.rows
    ensures Leads(rt, s, s.(rows := b.rows))
  {
    hide Upsert, Normalized, Reconciled, Answer, Leads, NoEmptyIds;
    LeadsToItself(rt, s);
    if w.balance.BalanceIs? && !w.breaks.atBalance {
      var from := WindowStart(c, cursor, w.t.startedAt);
      match w.provider(from, w.t.to) {
        case ProviderThrows(_) =>
        case Reply(settled, pending) =>
          assert NoEmptyIds(settled + pending);
          var step := Ingest(account, settled + pending, w.t.stamp, Reached(w.breaks.upsertAt, |settled + pending|));
          var s1 := Next(rt, s, step);
          StepLeads(rt, s, step);
          if b.rows != s1.rows {
            var o := w.o.(seenPendingIds := SeenPendingIds(pending));
            var ps, ss :| IsCallUpTo(rt, account, o, w.breaks.reconcileAt, s1.rows, b.rows, ps, ss);
            var step1 := Reconcile(account, ps, ss, o, Reached(w.breaks.reconcileAt, |ps|));
            StepLeads(rt, s1, step1);
            LeadsOn(rt, s, s1, Next(rt, s1, step1));
          }
      }
    }
  }

  lemma {:induction false} SyncTraceLeads(rt: Runtime, accounts: seq<AccountId>, c: Config, world: nat -> Outside,
                                          trace: seq<Tables>, results: seq<AccountResult>, n: nat, s: Sys)
    requires IsSyncTrace(rt, accounts, c, world, trace, results) && n <= |results| && s.rows == trace[0].rows
    requires forall i: nat :: BoundaryHolds(world(i))
    ensures Leads(rt, s, s.(rows := trace[n].rows))
  {
    hide Leads, AccountSync, BoundaryHolds;
    if n == 0 {
      LeadsToItself(rt, s);
    } else {
      var s' := s.(rows := trace[n - 1].rows);
      SyncTraceLeads(rt, accounts, c, world, trace, results, n - 1, s);
      assert SyncTurn(rt, accounts, c, world, trace, results, n - 1);
      AccountSyncLeads(rt, accounts[n - 1], c, CursorOf(trace[0].cursors, accounts[n - 1]), world(n - 1),
                       trace[n - 1], trace[n], results[n - 1], s');
      LeadsOn(rt, s, s', s'.(rows := trace[n].rows));
    }
  }

  lemma ExportLeads(rt: Runtime, accounts: seq<AccountId>, x: Exporter, processed: nat, s: Sys, after: Sys,
                    actualError: bool)
    requires ExportAtEnd(accounts, x, processed, s, after, actualError)
    ensures Leads(rt, s, after)
  {
    hide Leads, ExportAll, Grouped, PendingRows;
    LeadsToItself(rt, s);
    if after != s {
      var ids, groups, summary :| ExportOutcome(s, Some(Among(accounts)), ids, groups, x.fate, x.openFails,
                                                x.closeFails, after, summary);
      StepLeads(rt, s, ExportTo(Some(Among(accounts)), ids, groups, x.fate, |groups|));
    }
  }

  /** What the export at the end of a run reaches: no row of another account is touched, and when an account was synced,
      the budget opens and nothing fails, every live row of the run's accounts that was never imported, failed before or
      was written since is marked as imported. */
  lemma ExportReachesTheRun(accounts: seq<AccountId>, x: Exporter, processed: nat, s: Sys, after: Sys,
                            actualError: bool, i: RowId)
    requires ExportAtEnd(accounts, x, processed, s, after, actualError) && i < |s.rows|
    ensures |after.rows| == |s.rows|
    ensures s.rows[i].accountId !in accounts ==> after.rows[i] == s.rows[i]
    ensures var row := s.rows[i];
            && x != NoExporter && processed > 0 && !x.openFails
            && (forall a :: a in accounts ==> x.fate(a).stage == NothingFails)
            && row.accountId in accounts && row.deletedAt == None
            && (row.importStatus != Imported || (row.importedAt.Some? && row.updatedAt > row.importedAt.value)) ==>
              after.rows[i].importStatus == Imported
  {
    hide ExportAll, Grouped;
    if x != NoExporter && processed > 0 {
      var chosen := Some(Among(accounts));
      var ids, groups: seq<Group>, summary :|
        ExportOutcome(s, chosen, ids, groups, x.fate, x.openFails, x.closeFails, after, summary);
      QueryIsPlan(s.rows, chosen, ids, groups);
      EachRowInOneBatch(s.rows, ids, groups, i);
      if i in ids {
        GroupsAreChosen(s.rows, chosen, ids, groups);
        var g: nat :| g < |groups| && i in groups[g].batch;
        if !x.openFails && forall a :: a in accounts ==> x.fate(a).stage == NothingFails {
          SentIsImported(s, groups, x.fate, |groups|, g, i);
        }
      } else {
        ExportOutside(s, groups, x.fate, |groups|, i);
      }
    }
  }

  lemma GroupsAreChosen(rows: seq<Row>, chosen: Option<set<AccountId>>, ids: seq<RowId>, groups: seq<Group>)
    requires PendingRows(rows, chosen, ids) && Grouped(rows, ids, groups) && chosen.Some?
    ensures forall g :: 0 <= g < |groups| ==> groups[g].accountId in chosen.value
  {
    hide RowsOf, Total, Selectable;
    forall g | 0 <= g < |groups| ensures groups[g].accountId in chosen.value {
      assert groups[g].batch[0] in groups[g].batch;
    }
  }

  /** A whole run, as the method RunSync leaves it. */
  lemma RunSyncLeads(rt: Runtime, accounts: seq<AccountId>, c: Config, world: nat -> Outside, x: Exporter, e: Escape,
                     run: Option<RunRecord>, results: seq<AccountResult>, trace: seq<Tables>, before: Sys, after: Sys)
    requires IsRun(rt, accounts, c, world, x, e, run, results, trace, before, after)
    requires forall i: nat :: BoundaryHolds(world(i))
    ensures Leads(rt, before, after)
  {
    hide Leads, ExportAtEnd, BoundaryHolds, Reports, EndsRun;
    LeadsToItself(rt, before);
    var synced := before.(rows := trace[|results|].rows);
    SyncTraceLeads(rt, accounts, c, world, trace, results, |results|, before);
    if e != AtStart && !Escaped(e, results) {
      var record :| Recorded(record, accounts, x, e, run, results, synced, after);
      ExportLeads(rt, accounts, x, record.accountsProcessed, synced, after, record.actualError);
      LeadsOn(rt, before, synced, after);
    }
  }

  /** The system can be reached from the empty one. */
  ghost predicate Reachable(rt: Runtime, s: Sys) {
    Leads(rt, EMPTY, s)
  }

  /** Runs of the method lead from reachable systems to reachable ones, so every theorem about runs of the protocol
      holds after any number of them; here the constraints. */
  lemma RunSyncIsSound(rt: Runtime, accounts: seq<AccountId>, c: Config, world: nat -> Outside, x: Exporter, e: Escape,
                       run: Option<RunRecord>, results: seq<AccountResult>, trace: seq<Tables>, before: Sys, after: Sys)
    requires IsRun(rt, accounts, c, world, x, e, run, results, trace, before, after)
    requires forall i: nat :: BoundaryHolds(world(i))
    requires Reachable(rt, before)
    ensures Reachable(rt, after) && Sound(after)
  {
    hide Sound, IsRun, BoundaryHolds, Path;
    RunSyncLeads(rt, accounts, c, world, x, e, run, results, trace, before, after);
    LeadsOn(rt, EMPTY, before, after);
    var states, steps :| PathBetween(rt, states, steps, EMPTY, after);
    RunIsSound(rt, states, steps, |steps|);
  }
}
