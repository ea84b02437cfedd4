/** The request limiter: a fixed window per key, anchored at the first request,
    with pruning of old entries once the map has grown past a threshold.

    Instants are nanoseconds. Requests are taken in lock order. */
module RateLimiter {
  import opened Wrappers

  const NANOS_PER_SECOND: nat := 1_000_000_000

  datatype Config = Config(enabled: bool, maxRequests: nat, windowSeconds: nat, cleanupThreshold: nat)
  {
    function Window(): nat {
      windowSeconds * NANOS_PER_SECOND
    }
  }

  datatype Entry = Entry(count: nat, windowStart: nat)

  type Entries = map<string, Entry>

  datatype Decision = Admitted | Limited(retryAfter: nat)

  /** `Instant::duration_since`, which saturates at zero. */
  function Elapsed(now: nat, since: nat): nat {
    if now >= since then now - since else 0
  }

  // ---------------------------------------------------------------------------
  // What one request does to its own key
  // ---------------------------------------------------------------------------

  /** The entry if its window is still running at `now`. */
  function Live(entry: Option<Entry>, window: nat, now: nat): Option<Entry> {
    if entry.Some? && Elapsed(now, entry.value.windowStart) < window then entry else None
  }

  /** The entry after counting a request at `now`, given the entry that was live. */
  function Counted(live: Option<Entry>, now: nat): Entry {
    match live
    case None => Entry(1, now)
    case Some(e) => Entry(e.count + 1, e.windowStart)
  }

  function Verdict(config: Config, entry: Entry, now: nat): Decision {
    if entry.count <= config.maxRequests then Admitted
    else
      var elapsed := Elapsed(now, entry.windowStart);
      Limited((if config.Window() >= elapsed then config.Window() - elapsed else 0) / NANOS_PER_SECOND)
  }

  // ---------------------------------------------------------------------------
  // The limiter
  // ---------------------------------------------------------------------------

  function Lookup(entries: Entries, key: string): Option<Entry> {
    if key in entries then Some(entries[key]) else None
  }

  /** The map after the threshold-triggered cleanup. */
  function Pruned(entries: Entries, config: Config, now: nat): Entries {
    if |entries| > config.cleanupThreshold
    then map k | k in entries && Elapsed(now, entries[k].windowStart) < 2 * config.Window() :: entries[k]
    else entries
  }

  /** The map after a request of `key` at `now` under an enabled configuration. */
  function Check(entries: Entries, config: Config, key: string, now: nat): Entries {
    var pruned := Pruned(entries, config, now);
    pruned[key := Counted(Live(Lookup(pruned, key), config.Window(), now), now)]
  }

  class Limiter {
    var entries: Entries

    constructor ()
      ensures entries == map[]
    {
      entries := map[];
    }

    method CheckRateLimit(config: Config, key: string, now: nat) returns (decision: Decision)
      modifies this
      ensures !config.enabled ==> decision == Admitted && entries == old(entries)
      ensures config.enabled ==>
                && entries == Check(old(entries), config, key, now)
                && decision == Verdict(config, entries[key], now)
    {
      if !config.enabled {
        return Admitted;
      }
      var window := config.Window();
      if |entries| > config.cleanupThreshold {
        var maxAge := window * 2;
        entries := map k | k in entries && Elapsed(now, entries[k].windowStart) < maxAge :: entries[k];
      }
      var entry := if key in entries then entries[key] else Entry(0, now);
      if Elapsed(now, entry.windowStart) >= window {
        entry := Entry(0, now);
      }
      entry := entry.(count := entry.count + 1);
      entries := entries[key := entry];
      if entry.count > config.maxRequests {
        var elapsed := Elapsed(now, entry.windowStart);
        var remaining := if window >= elapsed then window - elapsed else 0;
        return Limited(remaining / NANOS_PER_SECOND);
      }
      return Admitted;
    }
  }

  // ---------------------------------------------------------------------------
  // Pruning is invisible
  // ---------------------------------------------------------------------------

  datatype Request = Request(key: string, time: nat)

  ghost predicate Ordered(run: seq<Request>) {
    forall i, j :: 0 <= i <= j < |run| ==> run[i].time <= run[j].time
  }

  /** The map after the requests of `run`, starting from an empty limiter. */
  function StateAfter(config: Config, run: seq<Request>): Entries {
    if run == [] then map[]
    else
      var last := run[|run| - 1];
      Check(StateAfter(config, run[..|run| - 1]), config, last.key, last.time)
  }

  /** The decision taken on the last request of `run`. */
  function LastDecision(config: Config, run: seq<Request>): Decision
    requires run != []
  {
    var last := run[|run| - 1];
    Verdict(config, StateAfter(config, run)[last.key], last.time)
  }

  function OwnTimes(run: seq<Request>, key: string): seq<nat> {
    if run == [] then []
    else
      OwnTimes(run[..|run| - 1], key) + (if run[|run| - 1].key == key then [run[|run| - 1].time] else [])
  }

  /** The entry of a key that is alone in a limiter that never prunes. */
  function KeyEntry(window: nat, times: seq<nat>): Option<Entry> {
    if times == [] then None
    else
      var now := times[|times| - 1];
      Some(Counted(Live(KeyEntry(window, times[..|times| - 1]), window, now), now))
  }

  function KeyDecision(config: Config, times: seq<nat>): Decision
    requires times != []
  {
    Verdict(config, KeyEntry(config.Window(), times).value, times[|times| - 1])
  }

  /** An entry that is dropped has run out, and stays run out at every later instant. */
  lemma PruneKeepsLive(entries: Entries, config: Config, now: nat, key: string, t: nat)
    requires t >= now
    ensures Live(Lookup(Pruned(entries, config, now), key), config.Window(), t)
         == Live(Lookup(entries, key), config.Window(), t)
  {
  }

  /** From the last request on, the shared map and the key's private history show the same live entry. */
  lemma {:induction false} SharedMapShowsOwnHistory(config: Config, run: seq<Request>, key: string, t: nat)
    requires Ordered(run) && (run != [] ==> t >= run[|run| - 1].time)
    ensures Live(Lookup(StateAfter(config, run), key), config.Window(), t)
         == Live(KeyEntry(config.Window(), OwnTimes(run, key)), config.Window(), t)
    decreases |run|
  {
    if run != [] {
      var front, last := run[..|run| - 1], run[|run| - 1];
      var before := StateAfter(config, front);
      SharedMapShowsOwnHistory(config, front, key, last.time);
      SharedMapShowsOwnHistory(config, front, key, t);
      PruneKeepsLive(before, config, last.time, key, last.time);
      PruneKeepsLive(before, config, last.time, key, t);
      if last.key == key {
        assert OwnTimes(run, key)[..|OwnTimes(run, key)| - 1] == OwnTimes(front, key);
      } else {
        assert OwnTimes(run, key) == OwnTimes(front, key);
      }
    }
  }

  /** A decision depends only on the requests of its own key. */
  lemma DecisionIsPrivate(config: Config, run: seq<Request>)
    requires Ordered(run) && run != []
    ensures OwnTimes(run, run[|run| - 1].key) != []
    ensures LastDecision(config, run) == KeyDecision(config, OwnTimes(run, run[|run| - 1].key))
  {
    var front, last := run[..|run| - 1], run[|run| - 1];
    var before := StateAfter(config, front);
    SharedMapShowsOwnHistory(config, front, last.key, last.time);
    PruneKeepsLive(before, config, last.time, last.key, last.time);
    assert OwnTimes(run, last.key)[..|OwnTimes(run, last.key)| - 1] == OwnTimes(front, last.key);
  }

  /** Whatever the cleanup threshold, the decisions are the same. */
  lemma PruningIsInvisible(config: Config, threshold: nat, run: seq<Request>)
    requires Ordered(run) && run != []
    ensures LastDecision(config, run) == LastDecision(config.(cleanupThreshold := threshold), run)
  {
    DecisionIsPrivate(config, run);
    DecisionIsPrivate(config.(cleanupThreshold := threshold), run);
  }

  // ---- One limiter, several windows -------------------------------------------

  /** A cleanup under `pruning` makes no difference to a later check of `key` under `window`. */
  ghost predicate Unseen(pruning: Config, window: nat, entries: Entries, now: nat, key: string, t: nat) {
    Live(Lookup(Pruned(entries, pruning, now), key), window, t) == Live(Lookup(entries, key), window, t)
  }

  /** More entries than any threshold up to `n`, all begun at instant 0. */
  ghost function Crowd(n: nat): (entries: Entries)
    ensures |entries| == n + 1
    ensures forall k :: k in entries ==> |k| <= n && entries[k] == Entry(1, 0)
    ensures "" in entries
  {
    if n == 0 then map["" := Entry(1, 0)]
    else
      var fewer := Crowd(n - 1);
      fewer[seq(n, _ => 'x') := Entry(1, 0)]
  }

  /** Endpoints share one limiter. The cleanup of an endpoint with one window is never seen by
      an endpoint with another exactly when the other is at most twice as long. */
  lemma PruningAcrossWindows(pruning: Config, window: nat)
    ensures (forall entries, now, key, t :: t >= now ==> Unseen(pruning, window, entries, now, key, t))
       <==> window <= 2 * pruning.windowSeconds * 1_000_000_000
  {
    if window > 2 * pruning.Window() {
      var entries, now := Crowd(pruning.cleanupThreshold), 2 * pruning.Window();
      assert Live(Lookup(entries, ""), window, now) == Some(Entry(1, 0));
      assert !Unseen(pruning, window, entries, now, "", now);
    }
  }

  // ---------------------------------------------------------------------------
  // How much one window lets through
  // ---------------------------------------------------------------------------

  ghost predicate Monotone(times: seq<nat>) {
    forall i, j :: 0 <= i <= j < |times| ==> times[i] <= times[j]
  }

  function Min(a: nat, b: nat): nat {
    if a <= b then a else b
  }

  /** Number of admitted requests of one key at instants in [lo, hi). */
  function AdmittedIn(config: Config, times: seq<nat>, lo: int, hi: int): nat {
    if times == [] then 0
    else
      var last := times[|times| - 1];
      AdmittedIn(config, times[..|times| - 1], lo, hi)
      + (if lo <= last < hi && KeyDecision(config, times) == Admitted then 1 else 0)
  }

  /** Number of admitted requests counted in the window anchored at `anchor`. */
  function AdmittedInWindow(config: Config, times: seq<nat>, anchor: nat): nat {
    if times == [] then 0
    else
      AdmittedInWindow(config, times[..|times| - 1], anchor)
      + (if KeyEntry(config.Window(), times).value.windowStart == anchor && KeyDecision(config, times) == Admitted then 1 else 0)
  }

  /** Each anchored window admits at most `maxRequests`. */
  lemma {:induction false} AnchoredWindowBound(config: Config, times: seq<nat>, anchor: nat)
    requires Monotone(times) && config.windowSeconds > 0
    ensures AdmittedInWindow(config, times, anchor) <= config.maxRequests
    ensures times != [] ==>
              var e := KeyEntry(config.Window(), times).value;
              && e.windowStart <= times[|times| - 1]
              && (e.windowStart == anchor ==> AdmittedInWindow(config, times, anchor) == Min(e.count, config.maxRequests))
              && (e.windowStart < anchor ==> AdmittedInWindow(config, times, anchor) == 0)
    decreases |times|
  {
    if times != [] {
      AnchoredWindowBound(config, times[..|times| - 1], anchor);
    }
  }

  /** Admissions from `lo` on, bounded by where `lo` lies relative to the current
      window: the current window gives at most its count, and the one before it
      at most one less than the limit, because its anchor lies before `lo`. */
  lemma {:induction false} TailBound(config: Config, times: seq<nat>, lo: int, hi: int)
    requires Monotone(times) && times != []
    ensures var e := KeyEntry(config.Window(), times).value;
            var m := config.maxRequests;
            var n := AdmittedIn(config, times, lo, hi);
            && e.windowStart <= times[|times| - 1]
            && e.count >= 1
            && (config.Window() > 0 ==> times[|times| - 1] < e.windowStart + config.Window())
            && (lo > times[|times| - 1] ==> n == 0)
            && (lo > e.windowStart && m >= 1 ==> n <= Min(e.count, m) - 1)
            && (lo >= e.windowStart && config.Window() > 0 ==> n <= Min(e.count, m))
            && (lo > e.windowStart - config.Window() ==> n <= (if m == 0 then 0 else m - 1) + Min(e.count, m))
    decreases |times|
  {
    var front := times[..|times| - 1];
    if front != [] {
      TailBound(config, front, lo, hi);
    } else {
      assert AdmittedIn(config, front, lo, hi) == 0;
    }
  }

  /** The sharp bound for any half-open interval one window long. */
  function SlidingLimit(maxRequests: nat): nat {
    if maxRequests == 0 then 0 else 2 * maxRequests - 1
  }

  lemma {:induction false} SlidingBound(config: Config, times: seq<nat>, lo: int)
    requires Monotone(times)
    ensures AdmittedIn(config, times, lo, lo + config.windowSeconds * 1_000_000_000) <= SlidingLimit(config.maxRequests)
    decreases |times|
  {
    if times != [] {
      var hi := lo + config.Window();
      SlidingBound(config, times[..|times| - 1], lo);
      TailBound(config, times, lo, hi);
      if lo <= KeyEntry(config.Window(), times).value.windowStart - config.Window() {
        assert times[|times| - 1] >= hi;
      }
    }
  }

  /** Number of admitted requests of `key` in [lo, hi) over a run of the shared limiter. */
  function RunAdmittedIn(config: Config, run: seq<Request>, key: string, lo: int, hi: int): nat {
    if run == [] then 0
    else
      var last := run[|run| - 1];
      RunAdmittedIn(config, run[..|run| - 1], key, lo, hi)
      + (if last.key == key && lo <= last.time < hi && LastDecision(config, run) == Admitted then 1 else 0)
  }

  lemma {:induction false} OwnTimesInOrder(run: seq<Request>, key: string)
    requires Ordered(run)
    ensures Monotone(OwnTimes(run, key))
    ensures forall t :: t in OwnTimes(run, key) ==> run != [] && t <= run[|run| - 1].time
    decreases |run|
  {
    if run != [] {
      OwnTimesInOrder(run[..|run| - 1], key);
      MonotoneAppend(OwnTimes(run[..|run| - 1], key), run[|run| - 1].time);
    }
  }

  lemma MonotoneAppend(times: seq<nat>, t: nat)
    requires Monotone(times)
    ensures (forall x :: x in times ==> x <= t) ==> Monotone(times + [t])
  {
    assert forall k :: 0 <= k < |times| ==> times[k] in times;
  }

  lemma {:induction false} RunCountsOwnRequests(config: Config, run: seq<Request>, key: string, lo: int, hi: int)
    requires Ordered(run)
    ensures RunAdmittedIn(config, run, key, lo, hi) == AdmittedIn(config, OwnTimes(run, key), lo, hi)
    decreases |run|
  {
    if run != [] {
      var front, last := run[..|run| - 1], run[|run| - 1];
      RunCountsOwnRequests(config, front, key, lo, hi);
      if last.key == key {
        DecisionIsPrivate(config, run);
        var own := OwnTimes(run, key);
        assert own[..|own| - 1] == OwnTimes(front, key);
      } else {
        assert OwnTimes(run, key) == OwnTimes(front, key);
      }
    }
  }

  /** Over any run of the shared limiter, no key gets more than 2 * maxRequests - 1
      requests through in any half-open interval one window long. */
  lemma RunSlidingBound(config: Config, run: seq<Request>, key: string, lo: int)
    requires Ordered(run)
    ensures RunAdmittedIn(config, run, key, lo, lo + config.windowSeconds * 1_000_000_000) <= SlidingLimit(config.maxRequests)
  {
    OwnTimesInOrder(run, key);
    RunCountsOwnRequests(config, run, key, lo, lo + config.Window());
    SlidingBound(config, OwnTimes(run, key), lo);
  }

  // ---- The bound is attained: this is not a sliding window --------------------

  function Repeat(t: nat, n: nat): seq<nat> {
    seq(n, _ => t)
  }

  /** One request at 0, a burst just before the window ends, a burst right after. */
  function WorstCase(window: nat, before: nat, after: nat): (times: seq<nat>)
    requires window >= 1
    ensures Monotone(times)
  {
    [0] + Repeat(window - 1, before) + Repeat(window, after)
  }

  lemma WorstCaseFront(window: nat, before: nat, after: nat)
    requires window >= 1
    ensures var times := WorstCase(window, before, after);
            var front := times[..|times| - 1];
            if after > 0 then front == WorstCase(window, before, after - 1) && times[|times| - 1] == window
            else if before > 0 then front == WorstCase(window, before - 1, 0) && times[|times| - 1] == window - 1
            else times == [0]
  {
  }

  lemma {:induction false} WorstCaseCount(config: Config, before: nat, after: nat)
    requires config.windowSeconds >= 1
    requires before + 1 <= config.maxRequests && after <= config.maxRequests
    requires after > 0 ==> before + 1 == config.maxRequests
    ensures var w := config.Window();
            var times := WorstCase(w, before, after);
            && KeyEntry(w, times) == Some(if after == 0 then Entry(before + 1, 0) else Entry(after, w))
            && AdmittedIn(config, times, w - 1, 2 * w - 1) == before + after
    decreases after, before
  {
    var w := config.Window();
    var times := WorstCase(w, before, after);
    WorstCaseFront(w, before, after);
    if after > 0 {
      WorstCaseCount(config, before, after - 1);
    } else if before > 0 {
      WorstCaseCount(config, before - 1, 0);
    }
  }

  ghost predicate AttainsLimit(config: Config, times: seq<nat>, lo: int) {
    Monotone(times) && AdmittedIn(config, times, lo, lo + config.windowSeconds * 1_000_000_000) == SlidingLimit(config.maxRequests)
  }

  /** Although the header speaks of a sliding window, an interval one window long
      can hold 2 * maxRequests - 1 admitted requests. */
  lemma SlidingBoundIsSharp(config: Config)
    requires config.windowSeconds >= 1
    ensures exists times, lo :: AttainsLimit(config, times, lo)
  {
    if config.maxRequests == 0 {
      assert AttainsLimit(config, [], 0);
    } else {
      var w := config.Window();
      WorstCaseCount(config, config.maxRequests - 1, config.maxRequests);
      var times := WorstCase(w, config.maxRequests - 1, config.maxRequests);
      assert (w - 1) + config.Window() == 2 * w - 1;
      assert AttainsLimit(config, times, w - 1);
    }
  }

  // ---------------------------------------------------------------------------
  // Lockouts end on time
  // ---------------------------------------------------------------------------

  /** Requests made while a window runs, admitted or not, leave its anchor alone. */
  lemma {:induction false} WindowKeepsAnchor(window: nat, times: seq<nat>, more: seq<nat>)
    requires times != [] && Monotone(times + more)
    requires forall t :: t in more ==> t < KeyEntry(window, times).value.windowStart + window
    ensures KeyEntry(window, times + more).value
         == Entry(KeyEntry(window, times).value.count + |more|, KeyEntry(window, times).value.windowStart)
    decreases |more|
  {
    if more == [] {
      assert times + more == times;
    } else {
      var front := more[..|more| - 1];
      assert (times + more)[..|times + more| - 1] == times + front;
      assert Monotone(times + front);
      assert more[|more| - 1] in more;
      assert forall t :: t in front ==> t in more;
      WindowKeepsAnchor(window, times, front);
    }
  }

  /** However many requests were rejected, the first one at or after the end of the
      window is admitted and opens a new window. */
  lemma LockoutEnds(config: Config, times: seq<nat>, more: seq<nat>, t: nat)
    requires config.maxRequests >= 1 && times != [] && Monotone(times + more + [t])
    requires forall x :: x in more ==> x < KeyEntry(config.Window(), times).value.windowStart + config.windowSeconds * 1_000_000_000
    requires t >= KeyEntry(config.Window(), times).value.windowStart + config.windowSeconds * 1_000_000_000
    ensures KeyDecision(config, times + more + [t]) == Admitted
    ensures KeyEntry(config.Window(), times + more + [t]) == Some(Entry(1, t))
  {
    assert (times + more + [t])[..|times + more|] == times + more;
    assert forall i, j :: 0 <= i <= j < |times + more| ==> (times + more)[i] == (times + more + [t])[i] && (times + more)[j] == (times + more + [t])[j];
    WindowKeepsAnchor(config.Window(), times, more);
  }

  /** The reported delay is the remaining time, rounded down to whole seconds. */
  lemma RetryAfterIsRemaining(config: Config, times: seq<nat>)
    requires times != [] && Monotone(times) && config.windowSeconds >= 1
    requires KeyDecision(config, times).Limited?
    ensures var remaining := KeyEntry(config.Window(), times).value.windowStart + config.windowSeconds * 1_000_000_000 - times[|times| - 1];
            var r := KeyDecision(config, times).retryAfter;
            remaining > 0 && r * 1_000_000_000 <= remaining < (r + 1) * 1_000_000_000
  {
    TailBound(config, times, 0, 0);
  }

  /** The client's view: after a rejection with delay `r`, retries within `r` seconds
      are rejected, and a retry `r + 1` seconds later is admitted despite them. */
  lemma RetryAfterIsHonest(config: Config, times: seq<nat>, more: seq<nat>, t: nat)
    requires config.maxRequests >= 1 && config.windowSeconds >= 1
    requires times != [] && Monotone(times + more + [t]) && Monotone(times)
    requires KeyDecision(config, times).Limited?
    requires forall x :: x in more ==> x < times[|times| - 1] + KeyDecision(config, times).retryAfter * 1_000_000_000
    ensures t < times[|times| - 1] + KeyDecision(config, times).retryAfter * 1_000_000_000 ==>
              KeyDecision(config, times + more + [t]).Limited?
    ensures t >= times[|times| - 1] + (KeyDecision(config, times).retryAfter + 1) * 1_000_000_000 ==>
              KeyDecision(config, times + more + [t]) == Admitted
  {
    RetryAfterIsRemaining(config, times);
    var now, r := times[|times| - 1], KeyDecision(config, times).retryAfter;
    if t < now + r * NANOS_PER_SECOND {
      assert times + more + [t] == times + (more + [t]);
      WindowKeepsAnchor(config.Window(), times, more + [t]);
    } else if t >= now + (r + 1) * NANOS_PER_SECOND {
      LockoutEnds(config, times, more, t);
    }
  }
}
