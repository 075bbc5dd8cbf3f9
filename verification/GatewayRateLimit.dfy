/** The fixed-window limiter of the Rust gateway. Instants are nanoseconds of the monotonic clock. */
module GatewayRateLimit {
  import opened Wrappers

  const NANOS := 1_000_000_000

  const U64_MAX: nat := 0xFFFF_FFFF_FFFF_FFFF

  /** The configured window and maximum; configuration refuses a window under a second and a zero maximum. */
  datatype Policy = Policy(window: nat, max: nat)

  predicate Configured(policy: Policy) { policy.window >= NANOS && 0 < policy.max <= U64_MAX }

  datatype Window = Window(started: int, requests: nat)

  /** One reading of the clock for elapsed(), and a later one when the window restarts. */
  datatype Reading = Reading(first: int, second: int)

  predicate Expired(policy: Policy, w: Window, now: int) { now - w.started >= policy.window }

  function Current(policy: Policy, w: Window, at: Reading): Window {
    if Expired(policy, w, at.first) then Window(at.second, 0) else w
  }

  predicate Admits(policy: Policy, w: Window, at: Reading) {
    Current(policy, w, at).requests < policy.max
  }

  function After(policy: Policy, w: Window, at: Reading): Window {
    var current := Current(policy, w, at);
    if Admits(policy, w, at) then current.(requests := current.requests + 1) else current
  }

  /** u64::saturating_add(1) */
  function Increment(n: nat): nat { if n >= U64_MAX then U64_MAX else n + 1 }

  function Max(a: int, b: int): int { if a >= b then a else b }

  /** The retry-after answer of a rejected request; as_secs rounds down. */
  function RetryAfter(policy: Policy, w: Window, at: Reading): int {
    Max(1, Max(0, policy.window - (at.first - w.started)) / NANOS)
  }

  /** The limiter's counters in GatewayRuntime. */
  class GatewayRuntime {
    var rateLimitRejections: nat
    var rateWindowStarted: int
    var rateWindowRequests: nat

    ghost function State(): Window
      reads this
    {
      Window(rateWindowStarted, rateWindowRequests)
    }

    constructor (now: int)
      ensures State() == Window(now, 0) && rateLimitRejections == 0
    {
      rateLimitRejections, rateWindowStarted, rateWindowRequests := 0, now, 0;
    }

    /** rate_limit_retry_after; at holds the readings of the two clock calls. */
    method RateLimitRetryAfter(policy: Policy, at: Reading) returns (retryAfter: Option<int>)
      requires at.first <= at.second && rateWindowStarted <= at.first && policy.max <= U64_MAX
      modifies this
      ensures State() == After(policy, old(State()), at)
      ensures retryAfter == if Admits(policy, old(State()), at) then None
          else Some(RetryAfter(policy, old(State()), at))
      ensures rateLimitRejections ==
              if Admits(policy, old(State()), at) then old(rateLimitRejections)
              else if old(rateLimitRejections) < 0xFFFF_FFFF_FFFF_FFFF then old(rateLimitRejections) + 1
              else 0xFFFF_FFFF_FFFF_FFFF
    {
      var elapsed := at.first - rateWindowStarted;
      if elapsed >= policy.window {
        rateWindowStarted := at.second;
        rateWindowRequests := 0;
      }
      if rateWindowRequests >= policy.max {
        rateLimitRejections := Increment(rateLimitRejections);
        var remaining := if elapsed >= policy.window then 0 else policy.window - elapsed;
        return Some(Max(1, remaining / NANOS));
      }
      rateWindowRequests := Increment(rateWindowRequests);
      retryAfter := None;
    }
  }

  // ---------------------------------------------------------------- how many are admitted

  /** Readings in the order of the lock, none before last. */
  predicate Ordered(last: int, calls: seq<Reading>)
    decreases |calls|
  {
    calls == [] || (last <= calls[0].first <= calls[0].second && Ordered(calls[0].second, calls[1..]))
  }

  predicate Within(policy: Policy, start: int, at: Reading) { start <= at.first < start + policy.window }

  /** The requests admitted in the half-open interval of one window length from start on. */
  function AdmittedFrom(policy: Policy, w: Window, calls: seq<Reading>, start: int): nat
    decreases |calls|
  {
    if calls == [] then 0
    else (if Admits(policy, w, calls[0]) && Within(policy, start, calls[0]) then 1 else 0)
         + AdmittedFrom(policy, After(policy, w, calls[0]), calls[1..], start)
  }

  /** seen requests were admitted in the interval so far, in at most two windows. */
  predicate Bounded(policy: Policy, w: Window, last: int, start: int, seen: nat) {
    && w.requests <= policy.max && w.started <= last
    && seen <= 2 * policy.max
    && (last < start ==> seen == 0)
    && (last < start + policy.window ==> seen <= w.requests || (w.started >= start && seen <= policy.max + w.requests))
  }

  lemma {:induction false} AdmittedStaysBounded(policy: Policy, w: Window, last: int, calls: seq<Reading>, start: int,
                                                seen: nat)
    requires Ordered(last, calls) && Bounded(policy, w, last, start, seen)
    ensures seen + AdmittedFrom(policy, w, calls, start) <= 2 * policy.max
    decreases |calls|
  {
    if calls != [] {
      var at := calls[0];
      var counted := if Admits(policy, w, at) && Within(policy, start, at) then 1 else 0;
      assert Bounded(policy, After(policy, w, at), at.second, start, seen + counted);
      AdmittedStaysBounded(policy, After(policy, w, at), at.second, calls[1..], start, seen + counted);
    }
  }

  /** In any half-open interval of one window length at most twice the maximum is admitted. */
  lemma AtMostTwiceTheMaximum(policy: Policy, began: int, calls: seq<Reading>, start: int)
    requires Ordered(began, calls)
    ensures AdmittedFrom(policy, Window(began, 0), calls, start) <= 2 * policy.max
  {
    AdmittedStaysBounded(policy, Window(began, 0), began, calls, start, 0);
  }

  function AfterAll(policy: Policy, w: Window, calls: seq<Reading>): Window
    decreases |calls|
  {
    if calls == [] then w else AfterAll(policy, After(policy, w, calls[0]), calls[1..])
  }

  lemma {:induction false} WindowFills(policy: Policy, w: Window, last: int, calls: seq<Reading>, i: nat)
    requires Ordered(last, calls) && i < |calls| && calls[i].first < w.started + policy.window
    requires w.requests <= policy.max
    ensures Admits(policy, AfterAll(policy, w, calls[..i]), calls[i]) <==> w.requests + i < policy.max
    decreases i
  {
    if i > 0 {
      OrderedUpTo(last, calls, i);
      WindowFills(policy, After(policy, w, calls[0]), calls[0].second, calls[1..], i - 1);
      assert calls[..i][1..] == calls[1..][..i - 1];
      if w.requests == policy.max {
        assert After(policy, w, calls[0]) == w;
      }
    }
  }

  lemma {:induction false} OrderedUpTo(last: int, calls: seq<Reading>, i: nat)
    requires Ordered(last, calls) && i < |calls|
    ensures last <= calls[i].first && calls[0].first <= calls[i].first
    decreases i
  {
    if i > 0 { OrderedUpTo(calls[0].second, calls[1..], i - 1); }
  }

  /** Of the requests that come before a window closes the first max are admitted and no others; the
      window is the one that nobody used yet, or the one that the first of them opens at its second
      reading because the last one is over. */
  lemma WindowAdmitsIff(policy: Policy, w: Window, last: int, calls: seq<Reading>, i: nat)
    requires Ordered(last, calls) && i < |calls|
    requires var over := calls[0].first >= w.started + policy.window;
      && (over || w.requests == 0)
      && (i > 0 ==> calls[i].first < (if over then calls[0].second else w.started) + policy.window)
    ensures Admits(policy, AfterAll(policy, w, calls[..i]), calls[i]) <==> i < policy.max
  {
    if i > 0 {
      WindowFills(policy, After(policy, w, calls[0]), calls[0].second, calls[1..], i - 1);
      assert calls[..i][1..] == calls[1..][..i - 1];
    }
  }

  function Burst(count: nat, at: int): seq<Reading> { seq(count, _ => Reading(at, at)) }

  lemma {:induction false} BurstFills(policy: Policy, w: Window, count: nat, at: int, calls: seq<Reading>, start: int)
    requires w.requests + count <= policy.max && w.started <= at && !Expired(policy, w, at)
    requires start <= at < start + policy.window && Ordered(at, calls)
    ensures Ordered(at, Burst(count, at) + calls)
    ensures AdmittedFrom(policy, w, Burst(count, at) + calls, start) ==
            count + AdmittedFrom(policy, w.(requests := w.requests + count), calls, start)
    decreases count
  {
    if count == 0 {
      assert Burst(0, at) + calls == calls;
    } else {
      BurstFills(policy, w.(requests := w.requests + 1), count - 1, at, calls, start);
      var all := Burst(count, at) + calls;
      assert all[1..] == Burst(count - 1, at) + calls;
      assert all[0] == Reading(at, at);
    }
  }

  /** And the bound is met: a full window at its last instant and another at the next. */
  lemma TwiceTheMaximumIsReached(policy: Policy, began: int)
    requires Configured(policy)
    ensures var turn := began + policy.window;
      var calls := Burst(policy.max, turn - 1) + ([Reading(turn, turn)] + Burst(policy.max - 1, turn));
      && Ordered(began, calls)
      && AdmittedFrom(policy, Window(began, 0), calls, turn - 1) == 2 * policy.max
  {
    var turn := began + policy.window;
    var second := [Reading(turn, turn)] + Burst(policy.max - 1, turn);
    assert Burst(policy.max - 1, turn) + [] == Burst(policy.max - 1, turn);
    BurstFills(policy, Window(turn, 1), policy.max - 1, turn, [], turn - 1);
    assert second[1..] == Burst(policy.max - 1, turn);
    BurstFills(policy, Window(began, 0), policy.max, turn - 1, second, turn - 1);
    var calls := Burst(policy.max, turn - 1) + second;
    assert Ordered(turn - 1, calls);
  }

  // ---------------------------------------------------------------- what Retry-After is worth

  /** A rejected caller that comes back alone after the announced seconds, or any later, is admitted
      exactly when the time that was left is at most one second or a whole number of seconds. */
  lemma RetryAfterHonouredIff(policy: Policy, w: Window, at: Reading)
    requires Configured(policy) && w.started <= at.first && !Admits(policy, w, at)
    ensures var left := policy.window - (at.first - w.started);
      (forall back: Reading :: back.first >= at.first + RetryAfter(policy, w, at) * 1_000_000_000 ==>
         Admits(policy, After(policy, w, at), back))
      <==> left <= 1_000_000_000 || left % 1_000_000_000 == 0
  {
    var left := policy.window - (at.first - w.started);
    var soonest := at.first + RetryAfter(policy, w, at) * NANOS;
    assert left > 0 && After(policy, w, at) == w;
    assert RetryAfter(policy, w, at) * NANOS >= left <==> left <= NANOS || left % NANOS == 0;
    var first := Reading(soonest, soonest);
    assert Admits(policy, w, first) <==> soonest - w.started >= policy.window;
  }
}
