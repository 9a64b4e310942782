/** The per-connection lock (services/sync/sync-engine.ts, syncConnection) under every interleaving of
    concurrent calls. Code between two awaits runs alone, so a call is two atomic pieces: everything up to
    the first await, and everything from the end of `runSync` on. */
module SyncLock {

  type ConnectionId = string

  datatype Call =
    | Inside(connectionId: ConnectionId)
    | Rejected(connectionId: ConnectionId)
    | Left(connectionId: ConnectionId)

  /** `running` is the engine's set; `calls` are the calls made so far, in order. */
  datatype World = World(running: set<ConnectionId>, calls: seq<Call>)

  /** A new call arrives, or the call with the given number finishes `runSync`, normally or by throwing. */
  datatype Event = Enter(connectionId: ConnectionId) | Finish(call: nat, threw: bool)

  predicate Possible(w: World, e: Event) {
    e.Finish? ==> e.call < |w.calls| && w.calls[e.call].Inside?
  }

  class Engine {
    var running: set<ConnectionId>

    constructor ()
      ensures running == {}
    {
      running := {};
    }

    /** Up to the first await: the check and the add are not interrupted. */
    method Begin(connectionId: ConnectionId) returns (call: Call)
      modifies this
      ensures World(running, [call]) == Next(World(old(running), []), Enter(connectionId))
    {
      if connectionId in running {
        return Rejected(connectionId);
      }
      running := running + {connectionId};
      call := Inside(connectionId);
    }

    /** The finally block. */
    method End(connectionId: ConnectionId)
      modifies this
      ensures forall threw :: running == Next(World(old(running), [Inside(connectionId)]), Finish(0, threw)).running
    {
      running := running - {connectionId};
    }
  }

  function Next(w: World, e: Event): World
    requires Possible(w, e)
  {
    match e
    case Enter(c) =>
      if c in w.running then World(w.running, w.calls + [Rejected(c)])
      else World(w.running + {c}, w.calls + [Inside(c)])
    case Finish(call, _) =>
      var c := w.calls[call].connectionId;
      World(w.running - {c}, w.calls[call := Left(c)])
  }

  ghost predicate Interleaving(worlds: seq<World>, events: seq<Event>) {
    && |worlds| == |events| + 1 && worlds[0] == World({}, [])
    && (forall i :: 0 <= i < |events| ==> Possible(worlds[i], events[i]) && worlds[i + 1] == Next(worlds[i], events[i]))
  }

  predicate Runs(w: World, call: int, c: ConnectionId) {
    0 <= call < |w.calls| && w.calls[call] == Inside(c)
  }

  /** At most one call per connection is inside `runSync`, and `running` names exactly those connections. */
  ghost predicate Exclusive(w: World) {
    && (forall j, k, c :: Runs(w, j, c) && Runs(w, k, c) ==> j == k)
    && (forall c :: c in w.running <==> exists k :: Runs(w, k, c))
  }

  lemma ExclusiveStep(w: World, e: Event)
    requires Exclusive(w) && Possible(w, e)
    ensures Exclusive(Next(w, e))
  {
    var w' := Next(w, e);
    match e {
      case Enter(c) =>
        forall k, d ensures Runs(w', k, d) <==> Runs(w, k, d) || (c !in w.running && k == |w.calls| && d == c) {
        }
        if c !in w.running {
          assert Runs(w', |w.calls|, c);
        }
        forall d ensures d in w'.running <==> exists k :: Runs(w', k, d) {
          if k :| Runs(w, k, d) {
            assert Runs(w', k, d);
          }
        }
      case Finish(call, _) =>
        var c := w.calls[call].connectionId;
        assert Runs(w, call, c);
        forall k, d ensures Runs(w', k, d) <==> Runs(w, k, d) && k != call {
        }
        forall d ensures d in w'.running <==> exists k :: Runs(w', k, d) {
          if d != c && d in w.running {
            var k :| Runs(w, k, d);
            assert Runs(w', k, d);
          }
        }
    }
  }

  /** Mutual exclusion in every interleaving. */
  lemma {:induction false} MutualExclusion(worlds: seq<World>, events: seq<Event>, n: nat)
    requires Interleaving(worlds, events) && n <= |events|
    ensures Exclusive(worlds[n])
  {
    hide Next, Exclusive;
    if n == 0 {
      NobodyRuns();
    } else {
      MutualExclusion(worlds, events, n - 1);
      ExclusiveStep(worlds[n - 1], events[n - 1]);
    }
  }

  lemma NobodyRuns()
    ensures Exclusive(World({}, []))
  {
  }

  /** In every interleaving: a rejected call changes no lock, an accepted one takes only its own, and an exit,
      normal or exceptional, releases its own connection and no other. */
  lemma LocksAreOwn(worlds: seq<World>, events: seq<Event>, n: nat)
    requires Interleaving(worlds, events) && n < |events|
    ensures var before, after := worlds[n].running, worlds[n + 1].running;
            match events[n]
            case Enter(c) =>
              && after == before + {c}
              && worlds[n + 1].calls == worlds[n].calls + [if c in before then Rejected(c) else Inside(c)]
            case Finish(call, _) =>
              var c := worlds[n].calls[call].connectionId;
              c in before && c !in after && after + {c} == before
  {
    MutualExclusion(worlds, events, n);
    if events[n].Finish? {
      var c := worlds[n].calls[events[n].call].connectionId;
      assert Runs(worlds[n], events[n].call, c);
    }
  }
}
