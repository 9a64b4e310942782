/** The cursor and the fetch window of one account (services/sync/sync-engine.ts, syncOneAccount). */
module SyncWindow {
  import opened Domain

  /** One attempt: the clock readings for an initial window, for `to`, and, when it succeeds, the reading
      written to the cursor. An attempt that throws anywhere leaves the cursor alone. */
  datatype Attempt = Attempt(startedAt: int, to: int, ok: bool, cursor: int)

  /** In milliseconds. */
  datatype Config = Config(overlap: int, initial: int)

  /** The last successful attempt before attempt `n`. */
  function LastOk(h: seq<Attempt>, n: nat): (r: Option<nat>)
    requires n <= |h|
    ensures r.Some? ==> r.value < n && h[r.value].ok && forall k :: r.value < k < n ==> !h[k].ok
    ensures r.None? ==> forall k :: 0 <= k < n ==> !h[k].ok
  {
    if n == 0 then None
    else if h[n - 1].ok then Some(n - 1)
    else LastOk(h, n - 1)
  }

  /** The cursor after the first `n` attempts: only a successful attempt writes it. */
  function CursorAfter(h: seq<Attempt>, n: nat): Option<int>
    requires n <= |h|
  {
    match LastOk(h, n)
    case Some(j) => Some(h[j].cursor)
    case None => None
  }

  /** The window rule: an overlap before the cursor, or a deep first fetch. */
  function WindowStart(c: Config, cursor: Option<int>, startedAt: int): int {
    if cursor.Some? then cursor.value - c.overlap else startedAt - c.initial
  }

  /** The start of the window attempt `i` asks the provider for. */
  function From(c: Config, h: seq<Attempt>, i: nat): int
    requires i < |h|
  {
    WindowStart(c, CursorAfter(h, i), h[i].startedAt)
  }

  /** One clock, and at most `delay` from sampling `to` to writing the cursor. */
  ghost predicate History(h: seq<Attempt>, delay: int) {
    && (forall k :: 0 <= k < |h| ==> h[k].startedAt <= h[k].to)
    && (forall k :: 0 <= k < |h| && h[k].ok ==> h[k].to <= h[k].cursor <= h[k].to + delay)
    && (forall j, k :: 0 <= j < k < |h| ==>
          h[j].to <= h[k].startedAt && (h[j].ok ==> h[j].cursor <= h[k].startedAt))
  }

  /** Attempt `i` is the first to succeed once the transaction is visible. */
  ghost predicate FirstChance(h: seq<Attempt>, i: nat, visibleAt: int) {
    && i < |h| && h[i].ok && visibleAt <= h[i].to
    && (forall k :: 0 <= k < i && h[k].ok ==> h[k].to < visibleAt)
  }

  /** The transaction is not older than the first window. */
  ghost predicate RecentEnough(c: Config, h: seq<Attempt>, i: nat, timestamp: int)
    requires i < |h|
  {
    LastOk(h, i).None? ==> h[i].startedAt - c.initial <= timestamp
  }

  ghost predicate InWindow(c: Config, h: seq<Attempt>, i: nat, timestamp: int)
    requires i < |h|
  {
    From(c, h, i) <= timestamp <= h[i].to
  }

  /** A transaction that shows up at most `latency` after its timestamp lies in the window of the first
      successful attempt after it shows up. */
  ghost predicate AlwaysInWindow(c: Config, latency: int, delay: int) {
    forall h: seq<Attempt>, i: nat, timestamp: int, visibleAt: int |
      && History(h, delay) && FirstChance(h, i, visibleAt) && RecentEnough(c, h, i, timestamp)
      && timestamp <= visibleAt <= timestamp + latency :: InWindow(c, h, i, timestamp)
  }

  lemma InFirstWindow(c: Config, latency: int, delay: int, h: seq<Attempt>, i: nat, timestamp: int, visibleAt: int)
    requires latency + delay <= c.overlap + 1
    requires History(h, delay) && FirstChance(h, i, visibleAt) && RecentEnough(c, h, i, timestamp)
    requires timestamp <= visibleAt <= timestamp + latency
    ensures InWindow(c, h, i, timestamp)
  {
    match LastOk(h, i) {
      case None =>
      case Some(j) => assert h[j].to < visibleAt && h[j].cursor <= h[j].to + delay;
    }
  }

  /** The missed transaction: visible one millisecond after a sync sampled `to`, that sync being slow. */
  lemma MissedOne(c: Config, latency: int, delay: int) returns (h: seq<Attempt>)
    requires latency >= 0 && delay >= 0 && latency + delay > c.overlap + 1
    ensures History(h, delay) && FirstChance(h, 1, latency) && RecentEnough(c, h, 1, 0)
    ensures !InWindow(c, h, 1, 0)
  {
    var first := Attempt(latency - 1, latency - 1, true, latency - 1 + delay);
    var t := if first.cursor < latency then latency else first.cursor;
    h := [first, Attempt(t, t, true, t)];
    assert LastOk(h, 1) == Some(0);
  }

  /** Exactly when the overlap suffices: visibility latency plus the delay from sampling `to` to writing the
      cursor must not exceed the overlap by more than the one millisecond the clock resolves. */
  lemma OverlapSufficesExactlyWhen(c: Config, latency: int, delay: int)
    requires latency >= 0 && delay >= 0
    ensures AlwaysInWindow(c, latency, delay) <==> latency + delay <= c.overlap + 1
  {
    if latency + delay <= c.overlap + 1 {
      forall h: seq<Attempt>, i: nat, timestamp: int, visibleAt: int |
        History(h, delay) && FirstChance(h, i, visibleAt) && RecentEnough(c, h, i, timestamp) &&
        timestamp <= visibleAt <= timestamp + latency
        ensures InWindow(c, h, i, timestamp)
      {
        InFirstWindow(c, latency, delay, h, i, timestamp, visibleAt);
      }
    } else {
      var h := MissedOne(c, latency, delay);
    }
  }

  /** Successive successful windows leave no gap, whatever fails between them, when the delay fits the overlap. */
  lemma WindowsOverlap(c: Config, h: seq<Attempt>, delay: int, j: nat, i: nat)
    requires History(h, delay) && delay <= c.overlap
    requires j < i < |h| && LastOk(h, i) == Some(j)
    ensures From(c, h, i) <= h[j].to
  {
  }
}
