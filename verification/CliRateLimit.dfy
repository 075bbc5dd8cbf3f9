/** The per-key limiter of the TypeScript command line server. Times are milliseconds of Date.now(). */
module CliRateLimit {
  datatype Policy = Policy(windowMs: nat, maxRequests: nat)

  datatype Entry = Entry(count: nat, resetAt: int)

  type Windows = map<string, Entry>

  datatype Reply = Reply(allowed: bool, retryAfterSeconds: int)

  datatype Call = Call(key: string, now: int)

  datatype Limiter = Limiter(windows: Windows, nextCleanupAt: int)

  /** Math.ceil(ms / 1000) */
  function CeilSeconds(ms: int): int { (ms + 999) / 1000 }

  function AtLeastOne(n: int): int { if n < 1 then 1 else n }

  predicate Open(windows: Windows, key: string, now: int) {
    key in windows && windows[key].resetAt > now
  }

  /** The windows after a call, sweeping apart. */
  function Counted(policy: Policy, windows: Windows, call: Call): Windows {
    windows[call.key := if Open(windows, call.key, call.now)
            then windows[call.key].(count := windows[call.key].count + 1)
                        else Entry(1, call.now + policy.windowMs)]
  }

  function Answer(policy: Policy, windows: Windows, call: Call): Reply {
    if !Open(windows, call.key, call.now) then Reply(true, CeilSeconds(policy.windowMs))
    else Reply(windows[call.key].count < policy.maxRequests,
               AtLeastOne(CeilSeconds(windows[call.key].resetAt - call.now)))
  }

  function Sweep(windows: Windows, now: int): Windows {
    map key | key in windows && windows[key].resetAt > now :: windows[key]
  }

  function Swept(policy: Policy, l: Limiter, now: int): Limiter {
    if now >= l.nextCleanupAt then Limiter(Sweep(l.windows, now), now + policy.windowMs) else l
  }

  function After(policy: Policy, l: Limiter, call: Call): Limiter {
    var swept := Swept(policy, l, call.now);
    swept.(windows := Counted(policy, swept.windows, call))
  }

  function Verdict(policy: Policy, l: Limiter, call: Call): Reply {
    Answer(policy, Swept(policy, l, call.now).windows, call)
  }

  /** The closure of createRateLimiter with its mutable windows and nextCleanupAt. */
  class RateLimiter {
    const policy: Policy
    var windows: Windows
    var nextCleanupAt: int

    ghost function State(): Limiter
      reads this
    {
      Limiter(windows, nextCleanupAt)
    }

    constructor (policy: Policy, now: int)
      ensures this.policy == policy && State() == Limiter(map[], now + policy.windowMs)
    {
      this.policy := policy;
      windows, nextCleanupAt := map[], now + policy.windowMs;
    }

    method DeleteExpired(now: int)
      modifies this
      ensures windows == Sweep(old(windows), now) && nextCleanupAt == old(nextCleanupAt)
    {
      var rest := windows.Keys;
      while rest != {}
        invariant rest <= old(windows).Keys && nextCleanupAt == old(nextCleanupAt)
        invariant windows == map key | key in old(windows)
            && (key in rest || old(windows)[key].resetAt > now) :: old(windows)[key]
        decreases rest
      {
        var key :| key in rest;
        rest := rest - {key};
        if windows[key].resetAt <= now {
          windows := windows - {key};
        }
      }
    }

    method Check(key: string, now: int) returns (reply: Reply)
      modifies this
      ensures State() == After(policy, old(State()), Call(key, now))
      ensures reply == Verdict(policy, old(State()), Call(key, now))
    {
      if now >= nextCleanupAt {
        DeleteExpired(now);
        nextCleanupAt := now + policy.windowMs;
      }
      if key !in windows || windows[key].resetAt <= now {
        windows := windows[key := Entry(1, now + policy.windowMs)];
        return Reply(true, CeilSeconds(policy.windowMs));
      }
      var current := windows[key].(count := windows[key].count + 1);
      windows := windows[key := current];
      reply := Reply(current.count <= policy.maxRequests, AtLeastOne(CeilSeconds(current.resetAt - now)));
    }
  }

  // ---------------------------------------------------------------- sweeping changes no answer

  predicate Ordered(last: int, calls: seq<Call>)
    decreases |calls|
  {
    calls == [] || (last <= calls[0].now && Ordered(calls[0].now, calls[1..]))
  }

  function Answers(policy: Policy, l: Limiter, calls: seq<Call>): (replies: seq<Reply>)
    ensures |replies| == |calls|
    decreases |calls|
  {
    if calls == [] then [] else [Verdict(policy, l, calls[0])] + Answers(policy, After(policy, l, calls[0]), calls[1..])
  }

  /** The answers of a limiter that never sweeps. */
  function PlainAnswers(policy: Policy, windows: Windows, calls: seq<Call>): (replies: seq<Reply>)
    ensures |replies| == |calls|
    decreases |calls|
  {
    if calls == [] then []
    else [Answer(policy, windows, calls[0])] + PlainAnswers(policy, Counted(policy, windows, calls[0]), calls[1..])
  }

  /** The swept windows are the plain ones but for windows that have closed. */
  ghost predicate Agree(swept: Windows, plain: Windows, now: int) {
    && (forall key :: key in swept ==> key in plain && swept[key] == plain[key])
    && (forall key :: key in plain && key !in swept ==> plain[key].resetAt <= now)
  }

  lemma {:induction false} SweepingChangesNoAnswerFrom(policy: Policy, l: Limiter, plain: Windows, last: int,
                                                       calls: seq<Call>)
    requires Ordered(last, calls) && Agree(l.windows, plain, last)
    ensures Answers(policy, l, calls) == PlainAnswers(policy, plain, calls)
    decreases |calls|
  {
    if calls != [] {
      var call := calls[0];
      assert Agree(Swept(policy, l, call.now).windows, plain, call.now);
      SweepingChangesNoAnswerFrom(policy, After(policy, l, call), Counted(policy, plain, call), call.now, calls[1..]);
    }
  }

  /** For a clock that never goes back, the lazily swept map answers every call as a map that is never
      swept would. */
  lemma SweepingChangesNoAnswer(policy: Policy, began: int, calls: seq<Call>)
    requires Ordered(began, calls)
    ensures Answers(policy, Limiter(map[], began + policy.windowMs), calls) == PlainAnswers(policy, map[], calls)
  {
    SweepingChangesNoAnswerFrom(policy, Limiter(map[], began + policy.windowMs), map[], began, calls);
  }

  // ---------------------------------------------------------------- how many are admitted

  /** The calls of a key admitted in the half-open interval of one window length from start on. */
  function Admitted(policy: Policy, calls: seq<Call>, replies: seq<Reply>, key: string, start: int): nat
    requires |calls| == |replies|
  {
    if calls == [] then 0
    else (if calls[0].key == key && replies[0].allowed && start <= calls[0].now < start + policy.windowMs then 1 else 0)
         + Admitted(policy, calls[1..], replies[1..], key, start)
  }

  /** seen calls of the key were admitted in the interval so far, in at most two windows. */
  predicate Bounded(policy: Policy, windows: Windows, key: string, last: int, start: int, seen: nat) {
    && seen <= 2 * policy.maxRequests
    && (last < start || key !in windows ==> seen == 0)
    && (key in windows ==>
          && windows[key].count >= 1 && windows[key].resetAt - policy.windowMs <= last
          && (last < start + policy.windowMs ==>
                (seen <= windows[key].count && seen <= policy.maxRequests)
                || (windows[key].resetAt - policy.windowMs >= start
                    && seen <= policy.maxRequests + windows[key].count)))
  }

  lemma {:induction false} AdmittedStaysBounded(policy: Policy, windows: Windows, key: string, last: int,
                                                calls: seq<Call>, start: int, seen: nat)
    requires policy.maxRequests >= 1 && Ordered(last, calls) && Bounded(policy, windows, key, last, start, seen)
    ensures seen + Admitted(policy, calls, PlainAnswers(policy, windows, calls), key, start) <= 2 * policy.maxRequests
    decreases |calls|
  {
    if calls != [] {
      var call := calls[0];
      var counted :=
        if call.key == key && Answer(policy, windows, call).allowed && start <= call.now < start + policy.windowMs
            then 1 else 0;
      assert Bounded(policy, Counted(policy, windows, call), key, call.now, start, seen + counted);
      AdmittedStaysBounded(policy, Counted(policy, windows, call), key, call.now, calls[1..], start, seen + counted);
    }
  }

  /** How many of the calls are made under the key. */
  function CallsOf(calls: seq<Call>, key: string): nat {
    if calls == [] then 0 else (if calls[0].key == key then 1 else 0) + CallsOf(calls[1..], key)
  }

  /** The seconds are what is left, rounded up. */
  predicate RoundedUp(seconds: int, left: int) { 1000 * (seconds - 1) < left <= 1000 * seconds }

  lemma {:induction false} OpenWindowAnswers(policy: Policy, l: Limiter, last: int, calls: seq<Call>, i: nat)
    requires Ordered(last, calls) && i < |calls| && Open(l.windows, calls[i].key, calls[i].now)
    ensures var entry, reply := l.windows[calls[i].key], Answers(policy, l, calls)[i];
      && (reply.allowed <==> entry.count + CallsOf(calls[..i], calls[i].key) < policy.maxRequests)
      && RoundedUp(reply.retryAfterSeconds, entry.resetAt - calls[i].now)
    decreases i
  {
    if i > 0 {
      var next := After(policy, l, calls[0]);
      OrderedUpTo(last, calls, i);
      OpenWindowAnswers(policy, next, calls[0].now, calls[1..], i - 1);
      assert calls[..i][1..] == calls[1..][..i - 1];
    }
  }

  lemma {:induction false} OrderedUpTo(last: int, calls: seq<Call>, i: nat)
    requires Ordered(last, calls) && i < |calls|
    ensures last <= calls[i].now && calls[0].now <= calls[i].now
    decreases i
  {
    if i > 0 { OrderedUpTo(calls[0].now, calls[1..], i - 1); }
  }

  /** The call that finds no open window of its key opens one and is admitted; of the calls of the key
      during that window the first maxRequests are admitted, it included, and no others. The reply
      announces the seconds until the window closes, rounded up. */
  lemma WindowAdmitsIff(policy: Policy, l: Limiter, last: int, calls: seq<Call>, i: nat)
    requires Ordered(last, calls) && i < |calls| && calls[i].key == calls[0].key
    requires !Open(l.windows, calls[0].key, calls[0].now) && calls[i].now < calls[0].now + policy.windowMs
    ensures var reply := Answers(policy, l, calls)[i];
      && (reply.allowed <==> i == 0 || CallsOf(calls[..i], calls[0].key) < policy.maxRequests)
      && RoundedUp(reply.retryAfterSeconds, calls[0].now + policy.windowMs - calls[i].now)
  {
    if i > 0 {
      OpenWindowAnswers(policy, After(policy, l, calls[0]), calls[0].now, calls[1..], i - 1);
      assert calls[..i][1..] == calls[1..][..i - 1];
    }
  }

  /** A key is admitted at most twice the maximum in any half-open interval of one window length. The
      first call of a window is admitted whatever the maximum, so the maximum must not be zero. */
  lemma AtMostTwiceTheMaximum(policy: Policy, began: int, calls: seq<Call>, key: string, start: int)
    requires policy.maxRequests >= 1 && Ordered(began, calls)
    ensures Admitted(policy, calls, Answers(policy, Limiter(map[], began + policy.windowMs), calls), key, start)
            <= 2 * policy.maxRequests
  {
    SweepingChangesNoAnswer(policy, began, calls);
    AdmittedStaysBounded(policy, map[], key, began, calls, start, 0);
  }

  // ---------------------------------------------------------------- what retryAfterSeconds is worth

  function AfterAll(policy: Policy, l: Limiter, calls: seq<Call>): Limiter
    decreases |calls|
  {
    if calls == [] then l else AfterAll(policy, After(policy, l, calls[0]), calls[1..])
  }

  lemma {:induction false} OthersKeepWindow(policy: Policy, l: Limiter, calls: seq<Call>, key: string, last: int)
    requires forall i :: 0 <= i < |calls| ==> calls[i].key != key
    requires Ordered(last, calls) && key in l.windows
    ensures var windows := AfterAll(policy, l, calls).windows;
      if key in windows then windows[key] == l.windows[key]
      else calls != [] && l.windows[key].resetAt <= calls[|calls| - 1].now
    decreases |calls|
  {
    if calls != [] {
      var next := After(policy, l, calls[0]);
      if key in next.windows {
        OthersKeepWindow(policy, next, calls[1..], key, calls[0].now);
      } else {
        OthersKeepAbsence(policy, next, calls[1..], key);
        NoneBefore(calls[0].now, calls[1..]);
      }
    }
  }

  lemma {:induction false} OthersKeepAbsence(policy: Policy, l: Limiter, calls: seq<Call>, key: string)
    requires forall i :: 0 <= i < |calls| ==> calls[i].key != key
    requires key !in l.windows
    ensures key !in AfterAll(policy, l, calls).windows
    decreases |calls|
  {
    if calls != [] { OthersKeepAbsence(policy, After(policy, l, calls[0]), calls[1..], key); }
  }

  lemma {:induction false} NoneBefore(last: int, calls: seq<Call>)
    requires Ordered(last, calls)
    ensures calls != [] ==> last <= calls[|calls| - 1].now
    decreases |calls|
  {
    if calls != [] { NoneBefore(calls[0].now, calls[1..]); }
  }

  /** A rejected key that comes back after the announced seconds, or any later, is admitted, whoever
      else called in between; and no fewer seconds would do. */
  lemma RetryAfterIsHonoured(policy: Policy, l: Limiter, call: Call, others: seq<Call>, back: int)
    requires !Verdict(policy, l, call).allowed
    requires forall i :: 0 <= i < |others| ==> others[i].key != call.key
    requires Ordered(call.now, others + [Call(call.key, back)])
    ensures var seconds := Verdict(policy, l, call).retryAfterSeconds;
      var later := Verdict(policy, AfterAll(policy, After(policy, l, call), others), Call(call.key, back));
      && (back >= call.now + 1000 * seconds ==> later.allowed)
      && (back <= call.now + 1000 * (seconds - 1) ==> !later.allowed)
  {
    var next := After(policy, l, call);
    var last := AfterAll(policy, next, others);
    PrefixOrdered(call.now, others, Call(call.key, back));
    OthersKeepWindow(policy, next, others, call.key, call.now);
    var until := next.windows[call.key].resetAt;
    assert until == Swept(policy, l, call.now).windows[call.key].resetAt > call.now;
  }

  lemma {:induction false} PrefixOrdered(last: int, calls: seq<Call>, final: Call)
    requires Ordered(last, calls + [final])
    ensures Ordered(last, calls)
    ensures if calls == [] then last <= final.now else calls[|calls| - 1].now <= final.now
    decreases |calls|
  {
    if calls != [] {
      assert (calls + [final])[1..] == calls[1..] + [final];
      PrefixOrdered(calls[0].now, calls[1..], final);
    }
  }
}
