/** Which account of Actual a local account is linked to (integrations/actual/account-linker.ts). */
module AccountLinks {
  import opened Domain
  import opened Export
  import opened Gateway
  import opened MirrorCoherence
  import opened Protocol
  import opened Reconciler
  import opened Text

  /** One of the ids that Actual's counter handed out between two of its values. */
  ghost predicate Drawn(id: string, from: nat, to: nat) {
    exists k: nat :: from <= k < to && id == ActualAccountId(k)
  }

  /** The link of account `a` over a stretch of work: one that was there stays, and a new one goes to the open account
      of the name, or where there is none to an account created meanwhile. */
  ghost predicate LinkStep(s: Sys, s': Sys, a: AccountId, namesake: Option<string>) {
    && s.actual.nextId <= s'.actual.nextId
    && (a in s.links ==> a in s'.links && s'.links[a] == s.links[a])
    && (a !in s.links && a in s'.links ==>
          match namesake
          case Some(id) => s'.links[a] == id
          case None => Drawn(s'.links[a], s.actual.nextId, s'.actual.nextId))
  }

  lemma {:induction false} CounterGrows(seen: map<RowId, string>, nextId: nat, txs: seq<Payload>, n: nat)
    requires n <= |txs|
    ensures nextId <= DedupAll(seen, nextId, txs, n).nextId
  {
    if n > 0 {
      CounterGrows(seen, nextId, txs, n - 1);
    }
  }

  lemma LinkOfBatch(s: Sys, account: AccountId, batch: seq<RowId>, f: Fate, a: AccountId)
    requires InRows(s.rows, batch)
    ensures var s' := ExportBatch(s, account, batch, f).0;
            && LinkStep(s, s', a, f.namesake)
            && (a in s'.links <==> a in s.links || (a == account && !f.stage.LinkFails?))
  {
    hide DedupAll, Marked, Payloads, Errored, ActualAccountId;
    if !f.stage.LinkFails? {
      var link, linked := LinkOf(s, account, f.namesake), Linked(s, account, f.namesake);
      var txs := Payloads(s.rows, link, batch);
      var sent := if f.stage.ImportFails? && f.stage.taken < |txs| then txs[..f.stage.taken] else txs;
      CounterGrows(linked.actual.seen, linked.actual.nextId, sent, |sent|);
      assert txs[..|txs|] == txs;
      assert ExportBatch(s, account, batch, f).0.links == linked.links;
      assert ExportBatch(s, account, batch, f).0.actual == Accept(linked.actual, link, sent);
    }
  }

  lemma LinkStepsCompose(s: Sys, t: Sys, u: Sys, a: AccountId, namesake: Option<string>)
    requires LinkStep(s, t, a, namesake) && LinkStep(t, u, a, namesake)
    ensures LinkStep(s, u, a, namesake)
  {
  }

  predicate IsLinkedIn(groups: seq<Group>, fate: AccountId -> Fate, g: int, a: AccountId) {
    0 <= g < |groups| && groups[g].accountId == a && !fate(a).stage.LinkFails?
  }

  /** An export links exactly the accounts whose link it gets to, and keeps every link there was. */
  lemma {:induction false} LinksOfExport(s: Sys, groups: seq<Group>, fate: AccountId -> Fate, n: nat, a: AccountId)
    requires GroupsInRows(s.rows, groups) && n <= |groups|
    ensures var r := ExportAll(s, groups, fate, n);
            && LinkStep(s, r.s, a, fate(a).namesake)
            && (a in r.s.links ==> a in s.links || exists g :: g < n && IsLinkedIn(groups, fate, g, a))
            && (!r.aborted && (exists g :: g < n && IsLinkedIn(groups, fate, g, a)) ==> a in r.s.links)
  {
    hide ExportBatch, Drawn;
    if n > 0 {
      LinksOfExport(s, groups, fate, n - 1, a);
      var r, group := ExportAll(s, groups, fate, n - 1), groups[n - 1];
      if !r.aborted {
        var after := ExportBatch(r.s, group.accountId, group.batch, fate(group.accountId)).0;
        LinkOfBatch(r.s, group.accountId, group.batch, fate(group.accountId), a);
        LinkStepsCompose(s, r.s, after, a, fate(a).namesake);
        if group.accountId == a && !fate(a).stage.LinkFails? {
          assert IsLinkedIn(groups, fate, n - 1, a);
        }
      }
    }
  }

  /** A link is made once: between any two moments of a run it stays as it is. */
  lemma {:induction false} LinkedOnce(rt: Runtime, states: seq<Sys>, steps: seq<Step>, m: nat, n: nat, a: AccountId)
    requires Path(rt, states, steps) && m <= n <= |steps| && a in states[m].links
    ensures a in states[n].links && states[n].links[a] == states[m].links[a]
  {
    hide Next, Enabled;
    if m < n {
      LinkedOnce(rt, states, steps, m, n - 1, a);
      StepKeepsLink(rt, states[n - 1], steps[n - 1], a);
    }
  }

  lemma StepKeepsLink(rt: Runtime, s: Sys, step: Step, a: AccountId)
    requires Enabled(s, step) && a in s.links
    ensures a in Next(rt, s, step).links && Next(rt, s, step).links[a] == s.links[a]
  {
    hide ExportAll, Answer, PendingRows, Grouped;
    if step.ExportTo? {
      LinksOfExport(s, step.groups, step.fate, step.done, a);
    }
  }

  // ------------------------------------------------- an account of its own

  lemma ActualAccountIdInjective(a: nat, b: nat)
    requires ActualAccountId(a) == ActualAccountId(b)
    ensures a == b
  {
    assert DecNat(a) == ActualAccountId(a)[11..] && DecNat(b) == ActualAccountId(b)[11..];
    ValueOfDecNat(a);
    ValueOfDecNat(b);
  }

  /** No account of Actual has the name of a local one when it is linked. */
  ghost predicate NoNamesakes(step: Step) {
    step.ExportTo? ==> forall a: AccountId :: step.fate(a).namesake == None
  }

  /** No two local accounts share an account of Actual. */
  ghost predicate Separate(s: Sys) {
    && (forall a :: a in s.links ==> Drawn(s.links[a], 0, s.actual.nextId))
    && (forall a, b :: a in s.links && b in s.links && s.links[a] == s.links[b] ==> a == b)
  }

  lemma DrawnApart(x: string, y: string, at: nat, to: nat)
    requires Drawn(x, 0, at) && Drawn(y, at, to)
    ensures x != y && Drawn(x, 0, to) && Drawn(y, 0, to)
  {
    hide ActualAccountId;
    var j: nat :| j < at && x == ActualAccountId(j);
    var k: nat :| at <= k < to && y == ActualAccountId(k);
    if x == y {
      ActualAccountIdInjective(j, k);
    }
  }

  lemma BatchKeepsSeparate(s: Sys, account: AccountId, batch: seq<RowId>, f: Fate)
    requires InRows(s.rows, batch) && Separate(s) && f.namesake == None
    ensures Separate(ExportBatch(s, account, batch, f).0)
  {
    hide ExportBatch, Drawn;
    var s' := ExportBatch(s, account, batch, f).0;
    forall a: AccountId
      ensures LinkStep(s, s', a, None)
      ensures a in s'.links <==> a in s.links || (a == account && !f.stage.LinkFails?)
    {
      LinkOfBatch(s, account, batch, f, a);
    }
    forall a | a in s.links
      ensures Drawn(s'.links[a], 0, s'.actual.nextId)
      ensures account !in s.links && account in s'.links ==> s'.links[a] != s'.links[account]
      ensures account !in s.links && account in s'.links ==> Drawn(s'.links[account], 0, s'.actual.nextId)
    {
      DrawnLater(s.links[a], 0, s.actual.nextId, s'.actual.nextId);
      if account !in s.links && account in s'.links {
        DrawnApart(s.links[a], s'.links[account], s.actual.nextId, s'.actual.nextId);
      }
    }
    if account !in s.links && account in s'.links {
      DrawnLater(s'.links[account], s.actual.nextId, s'.actual.nextId, s'.actual.nextId);
    }
  }

  lemma DrawnLater(x: string, from: nat, to: nat, later: nat)
    requires Drawn(x, from, to) && to <= later
    ensures Drawn(x, 0, later)
  {
    hide ActualAccountId;
  }

  lemma {:induction false} ExportKeepsSeparate(s: Sys, groups: seq<Group>, fate: AccountId -> Fate, n: nat)
    requires GroupsInRows(s.rows, groups) && n <= |groups| && Separate(s)
    requires forall a: AccountId :: fate(a).namesake == None
    ensures Separate(ExportAll(s, groups, fate, n).s)
  {
    hide ExportBatch, Separate;
    if n > 0 {
      ExportKeepsSeparate(s, groups, fate, n - 1);
      var r, group := ExportAll(s, groups, fate, n - 1), groups[n - 1];
      if !r.aborted {
        BatchKeepsSeparate(r.s, group.accountId, group.batch, fate(group.accountId));
      }
    }
  }

  /** In every run in which no account of Actual has the name of a local one when it is linked, no two local accounts
      share an account of Actual. */
  lemma {:induction false} EachHasItsOwn(rt: Runtime, states: seq<Sys>, steps: seq<Step>, n: nat)
    requires Run(rt, states, steps) && n <= |steps| && forall i :: 0 <= i < n ==> NoNamesakes(steps[i])
    ensures Separate(states[n])
  {
    hide Next, Enabled, NoNamesakes, Separate;
    if n == 0 {
      EmptyIsSeparate();
    } else {
      EachHasItsOwn(rt, states, steps, n - 1);
      StepKeepsSeparate(rt, states[n - 1], steps[n - 1]);
    }
  }

  lemma EmptyIsSeparate()
    ensures Separate(EMPTY)
  {
  }

  lemma StepKeepsSeparate(rt: Runtime, s: Sys, step: Step)
    requires Enabled(s, step) && Separate(s) && NoNamesakes(step)
    ensures Separate(Next(rt, s, step))
  {
    hide ExportAll, Answer, PendingRows, Grouped, Drawn;
    if step.ExportTo? {
      ExportKeepsSeparate(s, step.groups, step.fate, step.done);
    }
  }

  /** A namesake can make two accounts share one: two local accounts of one name linked to the same account. */
  lemma NamesakesCanShare(s: Sys, a: AccountId, b: AccountId, f: Fate)
    requires a != b && a !in s.links && b !in s.links && f.namesake.Some? && f.stage == NothingFails
    ensures var s' := ExportBatch(ExportBatch(s, a, [], f).0, b, [], f).0;
            a in s'.links && b in s'.links && s'.links[a] == s'.links[b] == f.namesake.value
  {
    LinkOfBatch(s, a, [], f, a);
    LinkOfBatch(s, a, [], f, b);
    var t := ExportBatch(s, a, [], f).0;
    LinkOfBatch(t, b, [], f, a);
    LinkOfBatch(t, b, [], f, b);
  }
}
