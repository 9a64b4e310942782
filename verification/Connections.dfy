/** Authorisation sessions and account discovery (services/connections/connection-service.ts). Code between
    two awaits runs alone; callbacks interleave at every await. */
module Connections {
  import opened Domain

  const STATE_TTL_MS: int := 10 * 60 * 1000

  /** The stored value of an `auth_state:` setting. */
  datatype AuthState = AuthState(connectionId: Option<nat>, createdAt: int)

  /** Where a callback for one state stands. `Looked` has read the setting and not yet deleted it; `Consumed`
      has passed `consumeState`; `Succeeded` has written its connection. */
  datatype Callback =
    | Looked(state: string, value: AuthState)
    | Consumed(state: string, value: AuthState)
    | Succeeded(state: string, connectionId: nat, created: bool)
    | Refused(state: string)

  /** `settings` are the unconsumed sessions, `issued` the states ever handed out, `connections` the number of
      connection rows (row ids are handed out in order and no row is removed). */
  datatype Service = Service(settings: map<string, AuthState>, issued: set<string>, connections: nat,
                             callbacks: seq<Callback>)

  /** A session is created; a callback begins, deletes its setting, or writes its connection. `exchangeOk` is
      whether the token exchange, and the connection write after it, succeed. */
  datatype Event =
    | CreateSession(state: string, connectionId: Option<nat>, now: int)
    | Lookup(state: string)
    | Delete(callback: nat, now: int)
    | Finish(callback: nat, exchangeOk: bool)

  /** States are random and fresh; a reauthorisation targets an existing connection row. */
  predicate Possible(w: Service, e: Event) {
    match e
    case CreateSession(state, connectionId, _) =>
      state !in w.issued && (connectionId.Some? ==> connectionId.value < w.connections)
    case Lookup(_) => true
    case Delete(k, _) => k < |w.callbacks| && w.callbacks[k].Looked?
    case Finish(k, _) => k < |w.callbacks| && w.callbacks[k].Consumed?
  }

  predicate Expired(value: AuthState, now: int) { now - value.createdAt > STATE_TTL_MS }

  function Next(w: Service, e: Event): Service
    requires Possible(w, e)
  {
    match e
    case CreateSession(state, connectionId, now) =>
      w.(settings := w.settings[state := AuthState(connectionId, now)], issued := w.issued + {state})
    case Lookup(state) =>
      if state in w.settings then w.(callbacks := w.callbacks + [Looked(state, w.settings[state])])
      else w.(callbacks := w.callbacks + [Refused(state)])
    case Delete(k, now) =>
      var c := w.callbacks[k];
      if c.state !in w.settings then w.(callbacks := w.callbacks[k := Refused(c.state)])
      else
        w.(settings := w.settings - {c.state},
           callbacks :=
             w.callbacks[k := if Expired(c.value, now) then Refused(c.state) else Consumed(c.state, c.value)])
    case Finish(k, exchangeOk) =>
      var c := w.callbacks[k];
      if !exchangeOk then w.(callbacks := w.callbacks[k := Refused(c.state)])
      else match c.value.connectionId
           case Some(id) => w.(callbacks := w.callbacks[k := Succeeded(c.state, id, false)])
           case None => w.(connections := w.connections + 1,
                           callbacks := w.callbacks[k := Succeeded(c.state, w.connections, true)])
  }

  ghost predicate History(worlds: seq<Service>, events: seq<Event>) {
    && |worlds| == |events| + 1 && worlds[0] == Service(map[], {}, 0, [])
    && (forall i :: 0 <= i < |events| ==> Possible(worlds[i], events[i]) && worlds[i + 1] == Next(worlds[i], events[i]))
  }

  predicate Past(c: Callback) { c.Consumed? || c.Succeeded? }

  predicate UsedBy(w: Service, k: int, state: string) {
    0 <= k < |w.callbacks| && Past(w.callbacks[k]) && w.callbacks[k].state == state
  }

  /** A state got past `consumeState` at most once, and is then gone from the settings for good. */
  ghost predicate SingleUse(w: Service) {
    && (forall j, k, s :: UsedBy(w, j, s) && UsedBy(w, k, s) ==> j == k)
    && (forall k, s :: UsedBy(w, k, s) ==> s !in w.settings && s in w.issued)
    && (forall s :: s in w.settings ==> s in w.issued)
    && (forall k :: 0 <= k < |w.callbacks| && w.callbacks[k].Looked? ==> w.callbacks[k].state in w.issued)
  }

  /** Connection rows were created one by one, each by its own callback of a session without a target. */
  ghost predicate RowsAccounted(w: Service) {
    && |Creators(w)| == w.connections
    && (forall s :: s in w.settings && w.settings[s].connectionId.Some? ==>
          w.settings[s].connectionId.value < w.connections)
    && (forall k :: 0 <= k < |w.callbacks| && Targets(w.callbacks[k]).Some? ==>
          Targets(w.callbacks[k]).value < w.connections)
    && (forall k :: 0 <= k < |w.callbacks| && w.callbacks[k].Succeeded? ==> w.callbacks[k].connectionId < w.connections)
  }

  /** The connection a callback still underway will write to, if its session named one. */
  function Targets(c: Callback): Option<nat> {
    if c.Looked? || c.Consumed? then c.value.connectionId else None
  }

  ghost function Creators(w: Service): set<nat> {
    set k: nat | k < |w.callbacks| && w.callbacks[k].Succeeded? && w.callbacks[k].created
  }

  lemma SingleUseStep(w: Service, e: Event)
    requires SingleUse(w) && Possible(w, e)
    ensures SingleUse(Next(w, e))
  {
    hide Expired;
    var w' := Next(w, e);
    forall k, s | UsedBy(w', k, s) && !UsedBy(w, k, s)
      ensures e.Delete? && k == e.callback && s in w.settings && s !in w'.settings
    {
    }
  }

  lemma CreatorsStep(w: Service, e: Event)
    requires Possible(w, e)
    ensures var created := e.Finish? && e.exchangeOk && w.callbacks[e.callback].value.connectionId.None?;
            |Creators(Next(w, e))| == |Creators(w)| + (if created then 1 else 0)
  {
    hide Expired;
    var w' := Next(w, e);
    if e.Finish? && e.exchangeOk && w.callbacks[e.callback].value.connectionId.None? {
      assert Creators(w') == Creators(w) + {e.callback};
    } else {
      assert Creators(w') == Creators(w);
    }
  }

  lemma RowsAccountedStep(w: Service, e: Event)
    requires RowsAccounted(w) && Possible(w, e)
    ensures RowsAccounted(Next(w, e))
    ensures w.connections <= Next(w, e).connections
  {
    hide Expired, Creators;
    CreatorsStep(w, e);
  }

  /** Single-use authorisation and row accounting in every interleaving of callbacks. */
  lemma {:induction false} SessionsAreSingleUse(worlds: seq<Service>, events: seq<Event>, n: nat)
    requires History(worlds, events) && n <= |events|
    ensures SingleUse(worlds[n])
    ensures RowsAccounted(worlds[n])
  {
    hide Next, SingleUse, RowsAccounted;
    if n == 0 {
      NothingYet();
    } else {
      SessionsAreSingleUse(worlds, events, n - 1);
      SingleUseStep(worlds[n - 1], events[n - 1]);
      RowsAccountedStep(worlds[n - 1], events[n - 1]);
    }
  }

  lemma NothingYet()
    ensures SingleUse(Service(map[], {}, 0, [])) && RowsAccounted(Service(map[], {}, 0, []))
  {
    assert Creators(Service(map[], {}, 0, [])) == {};
  }

  /** Two callbacks for one state never both succeed. */
  lemma NoDoubleSuccess(worlds: seq<Service>, events: seq<Event>, n: nat, j: nat, k: nat)
    requires History(worlds, events) && n <= |events|
    requires j < |worlds[n].callbacks| && k < |worlds[n].callbacks|
    requires worlds[n].callbacks[j].Succeeded? && worlds[n].callbacks[k].Succeeded?
    requires worlds[n].callbacks[j].state == worlds[n].callbacks[k].state
    ensures j == k
  {
    SessionsAreSingleUse(worlds, events, n);
    assert UsedBy(worlds[n], j, worlds[n].callbacks[j].state) && UsedBy(worlds[n], k, worlds[n].callbacks[j].state);
  }

  /** A reauthorisation adds no connection row: it lands on the row its session named, which existed. */
  lemma ReauthAddsNoRow(worlds: seq<Service>, events: seq<Event>, n: nat)
    requires History(worlds, events) && n < |events|
    requires events[n].Finish? && worlds[n].callbacks[events[n].callback].value.connectionId.Some?
    ensures worlds[n + 1].connections == worlds[n].connections
    ensures events[n].exchangeOk ==>
              var c := worlds[n + 1].callbacks[events[n].callback];
              && c.Succeeded? && !c.created && c.connectionId < worlds[n].connections
              && Some(c.connectionId) == worlds[n].callbacks[events[n].callback].value.connectionId
  {
    hide SingleUse;
    SessionsAreSingleUse(worlds, events, n);
  }

  // ------------------------------------------- where a callback ends up, and why

  /** One of the first `n` events created the session. */
  ghost predicate Issued(events: seq<Event>, n: nat, state: string, target: Option<nat>, at: int) {
    exists m: nat :: m < n && m < |events| && events[m] == CreateSession(state, target, at)
  }

  /** One of the first `n` events deleted the setting for callback `k`, within ten minutes of its creation. */
  ghost predicate InTime(events: seq<Event>, n: nat, k: nat, at: int) {
    exists d: nat, now: int :: DeletedAt(events, n, d, k, now) && now - at <= 600_000
  }

  predicate DeletedAt(events: seq<Event>, n: nat, d: nat, k: nat, now: int) {
    d < n && d < |events| && events[d] == Delete(k, now)
  }

  /** The session of the state, with its target and its time, explains where callback `k` stands. */
  ghost predicate Explains(events: seq<Event>, n: nat, k: nat, c: Callback, target: Option<nat>, at: int) {
    && Issued(events, n, c.state, target, at)
    && match c
       case Looked(_, value) => value == AuthState(target, at)
       case Consumed(_, value) => value == AuthState(target, at) && InTime(events, n, k, at)
       case Succeeded(_, connectionId, created) =>
         && InTime(events, n, k, at)
         && (if target.Some? then connectionId == target.value && !created else created)
       case Refused(_) => true
  }

  ghost predicate Explained(events: seq<Event>, n: nat, k: nat, c: Callback) {
    !c.Refused? ==> exists target, at :: Explains(events, n, k, c, target, at)
  }

  ghost predicate AllExplained(w: Service, events: seq<Event>, n: nat) {
    && (forall s :: s in w.settings ==> Issued(events, n, s, w.settings[s].connectionId, w.settings[s].createdAt))
    && (forall k: nat :: k < |w.callbacks| ==> Explained(events, n, k, w.callbacks[k]))
  }

  lemma StillExplained(events: seq<Event>, n: nat, k: nat, c: Callback)
    requires Explained(events, n, k, c)
    ensures Explained(events, n + 1, k, c)
  {
    if !c.Refused? {
      var target, at :| Explains(events, n, k, c, target, at);
      StillIssued(events, n, c.state, target, at);
      if InTime(events, n, k, at) {
        var d, now :| DeletedAt(events, n, d, k, now) && now - at <= 600_000;
        assert DeletedAt(events, n + 1, d, k, now);
      }
      assert Explains(events, n + 1, k, c, target, at);
    }
  }

  lemma StillIssued(events: seq<Event>, n: nat, state: string, target: Option<nat>, at: int)
    requires Issued(events, n, state, target, at)
    ensures Issued(events, n + 1, state, target, at)
  {
  }

  /** The callback an event moves on. */
  lemma MovedIsExplained(w: Service, events: seq<Event>, n: nat, k: nat)
    requires AllExplained(w, events, n) && n < |events| && Possible(w, events[n])
    requires k < |Next(w, events[n]).callbacks|
    requires k < |w.callbacks| ==> w.callbacks[k] != Next(w, events[n]).callbacks[k]
    ensures Explained(events, n + 1, k, Next(w, events[n]).callbacks[k])
  {
    hide Issued, InTime;
    var e, c := events[n], Next(w, events[n]).callbacks[k];
    if !c.Refused? {
      match e {
        case Lookup(state) =>
          StillIssued(events, n, state, w.settings[state].connectionId, w.settings[state].createdAt);
          assert Explains(events, n + 1, k, c, w.settings[state].connectionId, w.settings[state].createdAt);
        case Delete(_, now) =>
          var target, at :| Explains(events, n, k, w.callbacks[k], target, at);
          StillIssued(events, n, c.state, target, at);
          JustInTime(events, n, k, now, at);
          assert Explains(events, n + 1, k, c, target, at);
        case Finish(_, _) =>
          var target, at :| Explains(events, n, k, w.callbacks[k], target, at);
          StillIssued(events, n, c.state, target, at);
          StillInTime(events, n, k, at);
          assert Explains(events, n + 1, k, c, target, at);
      }
    }
  }

  lemma JustInTime(events: seq<Event>, n: nat, k: nat, now: int, at: int)
    requires n < |events| && events[n] == Delete(k, now) && now - at <= 600_000
    ensures InTime(events, n + 1, k, at)
  {
    assert DeletedAt(events, n + 1, n, k, now);
  }

  lemma StillInTime(events: seq<Event>, n: nat, k: nat, at: int)
    requires InTime(events, n, k, at)
    ensures InTime(events, n + 1, k, at)
  {
    var d, now :| DeletedAt(events, n, d, k, now) && now - at <= 600_000;
    assert DeletedAt(events, n + 1, d, k, now);
  }

  lemma {:induction false} EverythingIsExplained(worlds: seq<Service>, events: seq<Event>, n: nat)
    requires History(worlds, events) && n <= |events|
    ensures AllExplained(worlds[n], events, n)
  {
    hide Explained, Issued;
    if n > 0 {
      var w, e := worlds[n - 1], events[n - 1];
      EverythingIsExplained(worlds, events, n - 1);
      forall k: nat | k < |worlds[n].callbacks| ensures Explained(events, n, k, worlds[n].callbacks[k]) {
        if k < |w.callbacks| && w.callbacks[k] == worlds[n].callbacks[k] {
          StillExplained(events, n - 1, k, w.callbacks[k]);
        } else {
          MovedIsExplained(w, events, n - 1, k);
        }
      }
      forall s | s in worlds[n].settings
        ensures Issued(events, n, s, worlds[n].settings[s].connectionId, worlds[n].settings[s].createdAt)
      {
        if s in w.settings && w.settings[s] == worlds[n].settings[s] {
          StillIssued(events, n - 1, s, w.settings[s].connectionId, w.settings[s].createdAt);
        } else {
          JustIssued(events, n - 1);
        }
      }
    }
  }

  lemma JustIssued(events: seq<Event>, n: nat)
    requires n < |events| && events[n].CreateSession?
    ensures Issued(events, n + 1, events[n].state, events[n].connectionId, events[n].now)
  {
  }

  /** States are handed out once. */
  lemma {:induction false} IssuedStays(worlds: seq<Service>, events: seq<Event>, m: nat, n: nat)
    requires History(worlds, events) && m < n <= |events| && events[m].CreateSession?
    ensures events[m].state in worlds[n].issued
  {
    if m + 1 < n {
      IssuedStays(worlds, events, m, n - 1);
    }
  }

  lemma IssuedOnce(worlds: seq<Service>, events: seq<Event>, i: nat, j: nat)
    requires History(worlds, events) && i < |events| && j < |events|
    requires events[i].CreateSession? && events[j].CreateSession? && events[i].state == events[j].state
    ensures i == j
  {
    if i < j {
      IssuedStays(worlds, events, i, j);
    } else if j < i {
      IssuedStays(worlds, events, j, i);
    }
  }

  /** A callback lands where its session said: there is a session of its state, created at most ten minutes before
      the callback deleted it; when the session named a connection the callback wrote to that one, and otherwise it
      created one. */
  lemma CallbackLandsWhereItsSessionSaid(worlds: seq<Service>, events: seq<Event>, n: nat, k: nat) returns (m: nat)
    requires History(worlds, events) && n <= |events| && k < |worlds[n].callbacks| && worlds[n].callbacks[k].Succeeded?
    ensures var c := worlds[n].callbacks[k];
            && m < n && events[m].CreateSession? && events[m].state == c.state
            && (match events[m].connectionId
                case Some(id) => c.connectionId == id && !c.created
                case None => c.created)
            && (exists d: nat, now: int :: DeletedAt(events, n, d, k, now) && now - events[m].now <= 600_000)
            && forall i :: 0 <= i < |events| && events[i].CreateSession? && events[i].state == c.state ==> i == m
  {
    hide Next, Possible;
    EverythingIsExplained(worlds, events, n);
    var c := worlds[n].callbacks[k];
    assert Explained(events, n, k, c);
    var target, at :| Explains(events, n, k, c, target, at);
    m :| m < n && m < |events| && events[m] == CreateSession(c.state, target, at);
    forall i | 0 <= i < |events| && events[i].CreateSession? && events[i].state == c.state ensures i == m {
      IssuedOnce(worlds, events, i, m);
    }
  }

  /** A connection that a callback creates is new: no callback that succeeded before was given its number. */
  lemma CreatedIsNew(worlds: seq<Service>, events: seq<Event>, n: nat, k: nat)
    requires History(worlds, events) && n < |events| && events[n] == Finish(k, true)
    requires worlds[n + 1].callbacks[k].Succeeded? && worlds[n + 1].callbacks[k].created
    ensures forall j :: 0 <= j < |worlds[n].callbacks| && worlds[n].callbacks[j].Succeeded? ==>
              worlds[n].callbacks[j].connectionId != worlds[n + 1].callbacks[k].connectionId
    ensures worlds[n + 1].connections == worlds[n].connections + 1
  {
    hide SingleUse;
    SessionsAreSingleUse(worlds, events, n);
  }

  /** A callback gets past its session exactly when the setting is still there and at most ten minutes old. */
  lemma ConsumedExactlyWhenFresh(worlds: seq<Service>, events: seq<Event>, n: nat, k: nat, now: int, m: nat)
    requires History(worlds, events) && n < |events| && events[n] == Delete(k, now)
    requires m < |events| && events[m].CreateSession? && events[m].state == worlds[n].callbacks[k].state
    ensures worlds[n + 1].callbacks[k].Consumed? <==>
            worlds[n].callbacks[k].state in worlds[n].settings && now - events[m].now <= 600_000
    ensures worlds[n].callbacks[k].state !in worlds[n + 1].settings
  {
    EverythingIsExplained(worlds, events, n);
    var c := worlds[n].callbacks[k];
    assert Explained(events, n, k, c);
    var target, at :| Explains(events, n, k, c, target, at);
    var i: nat :| i < n && i < |events| && events[i] == CreateSession(c.state, target, at);
    IssuedOnce(worlds, events, i, m);
  }

  /** A callback ends with its exchange, for good: a failed one is refused, and one that went through has succeeded,
      whatever happens afterwards. */
  lemma {:induction false} FinishedForGood(worlds: seq<Service>, events: seq<Event>, m: nat, n: nat)
    requires History(worlds, events) && m < n <= |events| && events[m].Finish?
    ensures events[m].callback < |worlds[n].callbacks|
    ensures var c := worlds[n].callbacks[events[m].callback];
            if events[m].exchangeOk then c.Succeeded? else c.Refused?
  {
    if m + 1 < n {
      FinishedForGood(worlds, events, m, n - 1);
    }
  }

  // ------------------------------------------------------- discovering accounts

  datatype RemoteAccount = RemoteAccount(providerAccountId: string, name: string, currency: string)

  /** A row of `accounts`; `cursor` is `last_successful_sync`, the transaction sync cursor. */
  datatype AccountRow = AccountRow(connectionId: nat, providerAccountId: string, name: string, currency: string,
                                   active: bool, cursor: Option<int>)

  predicate IsAccount(row: AccountRow, connectionId: nat, providerAccountId: string) {
    row.connectionId == connectionId && row.providerAccountId == providerAccountId
  }

  function FindAccount(rows: seq<AccountRow>, connectionId: nat, id: string): (r: Option<nat>)
    ensures r.Some? ==> r.value < |rows| && IsAccount(rows[r.value], connectionId, id)
    ensures r.None? ==> forall i :: 0 <= i < |rows| ==> !IsAccount(rows[i], connectionId, id)
  {
    if rows == [] then None
    else if IsAccount(rows[|rows| - 1], connectionId, id) then Some(|rows| - 1)
    else FindAccount(rows[..|rows| - 1], connectionId, id)
  }

  /** `account.upsert` */
  function UpsertAccount(rows: seq<AccountRow>, connectionId: nat, remote: RemoteAccount): seq<AccountRow> {
    match FindAccount(rows, connectionId, remote.providerAccountId)
    case Some(i) => rows[i := rows[i].(name := remote.name, currency := remote.currency, active := true)]
    case None => rows + [AccountRow(connectionId, remote.providerAccountId, remote.name, remote.currency, true, None)]
  }

  function Discovered(rows: seq<AccountRow>, connectionId: nat, remotes: seq<RemoteAccount>, n: nat): seq<AccountRow>
    requires n <= |remotes|
  {
    if n == 0 then rows
    else UpsertAccount(Discovered(rows, connectionId, remotes, n - 1), connectionId, remotes[n - 1])
  }

  datatype Balance = Balance(accountId: nat, observedAt: int)

  /** How a discovery goes: to the end; an exception before the upsert of account `k`, which for 0 is also one in
      fetching the token or the list; or one between that upsert and its balance, in fetching or writing it. */
  datatype DiscoveryFate = Completes | BeforeUpsert(k: nat) | BeforeBalance(k: nat)
  class AccountTables {
    var accounts: seq<AccountRow>
    var balances: seq<Balance>

    /** `None` is an exception; the writes before it stay, an upsert without its balance among them. */
    method DiscoverAccounts(connectionId: nat, remotes: seq<RemoteAccount>, syncedAt: int, f: DiscoveryFate)
      returns (count: Option<nat>)
      modifies this
      ensures var reached := if f.Completes? || f.k >= |remotes| then |remotes| else f.k;
              && |balances| == |old(balances)| + reached
              && accounts == Discovered(old(accounts), connectionId, remotes,
                                        if f.BeforeBalance? && f.k < |remotes| then reached + 1 else reached)
      ensures balances[..|old(balances)|] == old(balances)
      ensures forall k :: |old(balances)| <= k < |balances| ==>
                balances[k].accountId < |accounts| && balances[k].observedAt == syncedAt &&
                IsAccount(accounts[balances[k].accountId], connectionId, remotes[k - |old(balances)|].providerAccountId)
      ensures count == if f.Completes? then Some(|remotes|) else None
    {
      hide FindAccount;
      var n := 0;
      while n < |remotes|
        invariant 0 <= n <= |remotes| && (f.Completes? || n <= f.k)
        invariant accounts == Discovered(old(accounts), connectionId, remotes, n)
        invariant |balances| == |old(balances)| + n && balances[..|old(balances)|] == old(balances)
        invariant forall k :: |old(balances)| <= k < |balances| ==>
                    balances[k].accountId < |accounts| && balances[k].observedAt == syncedAt &&
                    IsAccount(accounts[balances[k].accountId], connectionId,
                              remotes[k - |old(balances)|].providerAccountId)
      {
        if f == BeforeUpsert(n) {
          return None;
        }
        ghost var before := accounts;
        var found := FindAccount(accounts, connectionId, remotes[n].providerAccountId);
        accounts := UpsertAccount(accounts, connectionId, remotes[n]);
        var id := if found.Some? then found.value else |accounts| - 1;
        AccountStays(before, connectionId, remotes[n]);
        if f == BeforeBalance(n) {
          return None;
        }
        balances := balances + [Balance(id, syncedAt)];
        n := n + 1;
      }
      count := if f.Completes? then Some(|remotes|) else None;
    }
  }

  lemma AccountStays(rows: seq<AccountRow>, connectionId: nat, remote: RemoteAccount)
    ensures var after := UpsertAccount(rows, connectionId, remote);
            && |rows| <= |after|
            && (forall i :: 0 <= i < |rows| ==>
                  && IsAccount(after[i], rows[i].connectionId, rows[i].providerAccountId)
                  && after[i].cursor == rows[i].cursor)
  {
  }

  // ------------------------------------------------- any number of discoveries

  /** What happens to the accounts table, one write at a time: a discovery of a connection reports an account, or a
      sync moves a cursor. Discoveries and syncs that overlap interleave these writes in any way. */
  datatype AccountEvent = Reported(connectionId: nat, remote: RemoteAccount) | CursorMoved(row: nat, at: int)

  function Apply(rows: seq<AccountRow>, e: AccountEvent): seq<AccountRow> {
    match e
    case Reported(connectionId, remote) => UpsertAccount(rows, connectionId, remote)
    case CursorMoved(i, at) => if i < |rows| then rows[i := rows[i].(cursor := Some(at))] else rows
  }

  /** The table after the first `n` events, from an empty one. */
  function AfterEvents(events: seq<AccountEvent>, n: nat): seq<AccountRow>
    requires n <= |events|
  {
    if n == 0 then [] else Apply(AfterEvents(events, n - 1), events[n - 1])
  }

  function ReportsOf(connectionId: nat, remotes: seq<RemoteAccount>): (r: seq<AccountEvent>)
    ensures |r| == |remotes| && forall k :: 0 <= k < |r| ==> r[k] == Reported(connectionId, remotes[k])
  {
    seq(|remotes|, k requires 0 <= k < |remotes| => Reported(connectionId, remotes[k]))
  }

  lemma {:induction false} EventsOfPrefix(events: seq<AccountEvent>, more: seq<AccountEvent>, n: nat)
    requires n <= |events|
    ensures AfterEvents(events + more, n) == AfterEvents(events, n)
  {
    hide Apply;
    if n > 0 {
      EventsOfPrefix(events, more, n - 1);
    }
  }

  /** A discovery that is not interrupted is the sequence of its reports. */
  lemma {:induction false} DiscoveryIsReports(events: seq<AccountEvent>, connectionId: nat, remotes: seq<RemoteAccount>,
                                              n: nat)
    requires n <= |remotes|
    ensures AfterEvents(events + ReportsOf(connectionId, remotes), |events| + n) ==
            Discovered(AfterEvents(events, |events|), connectionId, remotes, n)
  {
    hide UpsertAccount;
    if n == 0 {
      EventsOfPrefix(events, ReportsOf(connectionId, remotes), |events|);
    } else {
      DiscoveryIsReports(events, connectionId, remotes, n - 1);
    }
  }

  /** The last report of an account among the first `n` events. */
  function LastReport(events: seq<AccountEvent>, n: nat, connectionId: nat, id: string): Option<RemoteAccount>
    requires n <= |events|
  {
    if n == 0 then None
    else match events[n - 1]
         case Reported(c, remote) =>
           if c == connectionId && remote.providerAccountId == id then Some(remote)
           else LastReport(events, n - 1, connectionId, id)
         case CursorMoved(_, _) => LastReport(events, n - 1, connectionId, id)
  }

  ghost predicate OneRowEach(rows: seq<AccountRow>) {
    forall i, j :: SameAccount(rows, i, j) ==> i == j
  }

  predicate SameAccount(rows: seq<AccountRow>, i: int, j: int) {
    0 <= i < |rows| && 0 <= j < |rows| && IsAccount(rows[j], rows[i].connectionId, rows[i].providerAccountId)
  }

  /** The row of an account shows its last report; an account never reported has no row. */
  predicate Shows(rows: seq<AccountRow>, connectionId: nat, id: string, last: Option<RemoteAccount>) {
    match FindAccount(rows, connectionId, id)
    case None => last.None?
    case Some(i) =>
      last.Some? && rows[i].name == last.value.name && rows[i].currency == last.value.currency && rows[i].active
  }

  lemma FoundIsTheRow(rows: seq<AccountRow>, i: nat)
    requires OneRowEach(rows) && i < |rows|
    ensures FindAccount(rows, rows[i].connectionId, rows[i].providerAccountId) == Some(i)
  {
    hide FindAccount;
    var f := FindAccount(rows, rows[i].connectionId, rows[i].providerAccountId);
    assert SameAccount(rows, f.value, i);
  }

  /** An event neither adds a second row for an account nor takes one away, and leaves every cursor but the one it
      moves. */
  lemma EventStep(rows: seq<AccountRow>, e: AccountEvent)
    requires OneRowEach(rows)
    ensures var after := Apply(rows, e);
            && OneRowEach(after) && |rows| <= |after|
            && (forall i :: 0 <= i < |rows| ==>
                  && IsAccount(after[i], rows[i].connectionId, rows[i].providerAccountId)
                  && (!(e.CursorMoved? && e.row == i) ==> after[i].cursor == rows[i].cursor))
            && (forall i :: |rows| <= i < |after| ==> after[i].cursor.None?)
  {
    hide FindAccount;
    var after := Apply(rows, e);
    forall i, j | SameAccount(after, i, j) ensures i == j {
      assert i < |rows| && j < |rows| ==> SameAccount(rows, i, j);
    }
  }

  lemma ReportShows(rows: seq<AccountRow>, e: AccountEvent, connectionId: nat, id: string, last: Option<RemoteAccount>)
    requires OneRowEach(rows) && Shows(rows, connectionId, id, last)
    ensures Shows(Apply(rows, e), connectionId, id,
                  if e.Reported? && e.connectionId == connectionId && e.remote.providerAccountId == id
                  then Some(e.remote) else last)
  {
    hide FindAccount, OneRowEach;
    EventStep(rows, e);
    var after := Apply(rows, e);
    var f, g := FindAccount(rows, connectionId, id), FindAccount(after, connectionId, id);
    if f.Some? {
      FoundIsTheRow(after, f.value);
    } else if |after| > |rows| {
      FoundIsTheRow(after, |rows|);
    }
  }

  /** Over every sequence of discoveries and syncs, interleaved in any way, from an empty table: there is one row per
      connection and provider account, exactly the accounts ever reported have one, and it shows the last report. */
  lemma {:induction false} DiscoveriesKeepOneRowEach(events: seq<AccountEvent>, n: nat, connectionId: nat, id: string)
    requires n <= |events|
    ensures OneRowEach(AfterEvents(events, n))
    ensures Shows(AfterEvents(events, n), connectionId, id, LastReport(events, n, connectionId, id))
  {
    hide Apply, OneRowEach, Shows;
    if n == 0 {
      EmptyShows(connectionId, id);
    } else {
      DiscoveriesKeepOneRowEach(events, n - 1, connectionId, id);
      EventStep(AfterEvents(events, n - 1), events[n - 1]);
      ReportShows(AfterEvents(events, n - 1), events[n - 1], connectionId, id,
                  LastReport(events, n - 1, connectionId, id));
    }
  }

  lemma EmptyShows(connectionId: nat, id: string)
    ensures OneRowEach([]) && Shows([], connectionId, id, None)
  {
  }

  /** Between any two moments no row is lost, moved to another account or, unless a sync does it, given another
      cursor: discovery leaves the transaction cursors alone, and a new row has none. */
  lemma {:induction false} DiscoveriesMoveNoCursor(events: seq<AccountEvent>, m: nat, n: nat, i: nat)
    requires m <= n <= |events| && i < |AfterEvents(events, n)|
    requires forall k :: m <= k < n ==> !(events[k].CursorMoved? && events[k].row == i)
    ensures OneRowEach(AfterEvents(events, n))
    ensures |AfterEvents(events, m)| <= |AfterEvents(events, n)|
    ensures var before, after := AfterEvents(events, m), AfterEvents(events, n);
            if i < |before| then
              && IsAccount(after[i], before[i].connectionId, before[i].providerAccountId)
              && after[i].cursor == before[i].cursor
            else after[i].cursor.None?
  {
    hide Apply, OneRowEach;
    DiscoveriesKeepOneRowEach(events, n, 0, "");
    if m < n {
      DiscoveriesKeepOneRowEach(events, n - 1, 0, "");
      EventStep(AfterEvents(events, n - 1), events[n - 1]);
      if i < |AfterEvents(events, n - 1)| {
        DiscoveriesMoveNoCursor(events, m, n - 1, i);
      } else {
        RowsGrow(events, m, n - 1);
      }
    }
  }

  /** The cursor of an account is where the last sync of it moved it, whatever was discovered since. */
  lemma CursorIsTheLastMove(events: seq<AccountEvent>, k: nat, n: nat, i: nat)
    requires k < n <= |events| && events[k].CursorMoved? && events[k].row == i < |AfterEvents(events, k)|
    requires forall l :: k < l < n ==> !(events[l].CursorMoved? && events[l].row == i)
    ensures i < |AfterEvents(events, n)| && AfterEvents(events, n)[i].cursor == Some(events[k].at)
  {
    hide OneRowEach;
    RowsGrow(events, k + 1, n);
    DiscoveriesMoveNoCursor(events, k + 1, n, i);
  }

  lemma {:induction false} RowsGrow(events: seq<AccountEvent>, m: nat, n: nat)
    requires m <= n <= |events|
    ensures |AfterEvents(events, m)| <= |AfterEvents(events, n)|
  {
    hide Apply, OneRowEach;
    if m < n {
      RowsGrow(events, m, n - 1);
      DiscoveriesKeepOneRowEach(events, n - 1, 0, "");
      EventStep(AfterEvents(events, n - 1), events[n - 1]);
    }
  }
}
