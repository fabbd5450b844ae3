/**
 The agent's per-key rate limiter: a bucket of `rate` tokens that is refilled when a call finds it
 at least one interval old, and a cleanup that drops buckets unused for more than two intervals.
 Times are the clock's readings; Go's monotonic clock does not run backwards.
 */
module RateLimiter {
  import opened Wrappers

  datatype Bucket = Bucket(tokens: int, lastReset: int)

  /** One call on the bucket of a key: the bucket afterwards and the answer. */
  function Take(rate: int, interval: int, b: Option<Bucket>, now: int): (Bucket, bool) {
    match b
    case None => (Bucket(rate - 1, now), true)
    case Some(b) =>
      var b := if now - b.lastReset >= interval then Bucket(rate, now) else b;
      if b.tokens <= 0 then (b, false) else (b.(tokens := b.tokens - 1), true)
  }

  predicate Stale(interval: int, b: Bucket, now: int) {
    now - b.lastReset > 2 * interval
  }

  function Lookup(buckets: map<string, Bucket>, key: string): Option<Bucket> {
    if key in buckets then Some(buckets[key]) else None
  }

  function CleanedUp(buckets: map<string, Bucket>, interval: int, now: int): map<string, Bucket> {
    map key | key in buckets && !Stale(interval, buckets[key], now) :: buckets[key]
  }

  class Limiter {
    const rate: int
    const interval: int
    var buckets: map<string, Bucket>

    constructor (rate: int, interval: int)
      ensures this.rate == rate && this.interval == interval && buckets == map[]
    {
      this.rate, this.interval := rate, interval;
      buckets := map[];
    }

    method Allow(key: string, now: int) returns (allowed: bool)
      modifies this`buckets
      ensures var (b, answer) := Take(rate, interval, Lookup(old(buckets), key), now);
              buckets == old(buckets)[key := b] && allowed == answer
    {
      if key !in buckets {
        buckets := buckets[key := Bucket(rate - 1, now)];
        return true;
      }
      var b := buckets[key];
      if now - b.lastReset >= interval {
        b := Bucket(rate, now);
        buckets := buckets[key := b];
      }
      if b.tokens <= 0 {
        assert buckets == old(buckets)[key := b];
        return false;
      }
      buckets := buckets[key := b.(tokens := b.tokens - 1)];
      return true;
    }

    /** One tick of the cleanup: the keys are visited in any order. */
    method Cleanup(now: int)
      modifies this`buckets
      ensures buckets == CleanedUp(old(buckets), interval, now)
      ensures forall key :: key in buckets <==> key in old(buckets) && now - old(buckets)[key].lastReset <= 2 * interval
    {
      var left := buckets.Keys;
      ghost var visited: set<string> := {};
      while left != {}
        invariant visited + left == old(buckets).Keys && visited !! left
        invariant forall key :: key in buckets <==>
                    key in old(buckets) && (key in left || !Stale(interval, old(buckets)[key], now))
        invariant forall key :: key in buckets ==> buckets[key] == old(buckets)[key]
        decreases left
      {
        var key :| key in left;
        left, visited := left - {key}, visited + {key};
        if Stale(interval, buckets[key], now) {
          buckets := buckets - {key};
        }
      }
    }
  }

  // ---------- Runs ----------

  datatype Event = Call(key: string, time: int) | Tick(time: int)

  /** The buckets after a run, and the answer to each of its calls (a tick answers false). */
  function Run(rate: int, interval: int, events: seq<Event>): (r: (map<string, Bucket>, seq<bool>))
    ensures |r.1| == |events|
  {
    if events == [] then (map[], [])
    else
      var (buckets, answers) := Run(rate, interval, events[..|events| - 1]);
      match events[|events| - 1]
      case Call(key, now) =>
        var (b, answer) := Take(rate, interval, Lookup(buckets, key), now);
        (buckets[key := b], answers + [answer])
      case Tick(now) => (CleanedUp(buckets, interval, now), answers + [false])
  }

  predicate Monotone(events: seq<Event>) {
    forall i, j :: 0 <= i < j < |events| ==> events[i].time <= events[j].time
  }

  /** The times of one key's calls, and the answers it got in the shared limiter. */
  function TimesOf(events: seq<Event>, key: string): seq<int> {
    if events == [] then []
    else
      var before, last := TimesOf(events[..|events| - 1], key), events[|events| - 1];
      if last.Call? && last.key == key then before + [last.time] else before
  }

  function AnswersTo(events: seq<Event>, answers: seq<bool>, key: string): seq<bool>
    requires |events| == |answers|
  {
    if events == [] then []
    else
      var n := |events| - 1;
      var before := AnswersTo(events[..n], answers[..n], key);
      if events[n].Call? && events[n].key == key then before + [answers[n]] else before
  }

  /** A limiter of its own for one key, without any cleanup. */
  function Alone(rate: int, interval: int, times: seq<int>): (r: (Option<Bucket>, seq<bool>))
    ensures |r.1| == |times|
  {
    if times == [] then (None, [])
    else
      var (b, answers) := Alone(rate, interval, times[..|times| - 1]);
      var (b', answer) := Take(rate, interval, b, times[|times| - 1]);
      (Some(b'), answers + [answer])
  }

  // ---------- Cleanup is invisible, keys are independent ----------

  /** Two buckets that answer alike from `now` on: equal, or one gone and the other old enough to be refilled. */
  ghost predicate Alike(interval: int, shared: Option<Bucket>, alone: Option<Bucket>, now: int) {
    shared == alone || (shared == None && alone.Some? && now - alone.value.lastReset >= interval)
  }

  lemma {:induction false} SharedLikeAlone(rate: int, interval: int, events: seq<Event>, key: string)
    requires rate >= 1 && Monotone(events)
    ensures var (buckets, answers) := Run(rate, interval, events);
            var (b, own) := Alone(rate, interval, TimesOf(events, key));
            AnswersTo(events, answers, key) == own &&
            forall now :: (events != [] ==> events[|events| - 1].time <= now) ==> Alike(interval, Lookup(buckets, key), b, now)
    ensures var (b, _) := Alone(rate, interval, TimesOf(events, key));
            b.Some? ==> events != [] && b.value.lastReset <= events[|events| - 1].time
  {
    if events != [] {
      var n := |events| - 1;
      var before, last := events[..n], events[n];
      SharedLikeAlone(rate, interval, before, key);
      var (buckets, answers) := Run(rate, interval, before);
      var (buckets', answers') := Run(rate, interval, events);
      assert answers'[..n] == answers;
      var times := TimesOf(before, key);
      assert Alike(interval, Lookup(buckets, key), Alone(rate, interval, times).0, last.time);
      if last.Call? && last.key == key {
        assert (times + [last.time])[..|times|] == times;
      }
    }
  }

  /**
   With at least one token per interval, a key's answers do not depend on cleanups or on other keys:
   they are those of a limiter that serves this key alone and never cleans up.
   */
  lemma CleanupIsInvisible(rate: int, interval: int, events: seq<Event>, key: string)
    requires rate >= 1 && Monotone(events)
    ensures AnswersTo(events, Run(rate, interval, events).1, key) == Alone(rate, interval, TimesOf(events, key)).1
  {
    SharedLikeAlone(rate, interval, events, key);
  }

  ghost predicate NeverVisible(rate: int, interval: int) {
    forall events: seq<Event>, key: string :: Monotone(events) ==>
      AnswersTo(events, Run(rate, interval, events).1, key) == Alone(rate, interval, TimesOf(events, key)).1
  }

  /** A call, a cleanup, and another call of one key, as the shared limiter answers them. */
  lemma ForgottenRun(rate: int, interval: int, key: string, later: int)
    requires later > 2 * interval
    ensures Run(rate, interval, [Call(key, 0), Tick(later), Call(key, later)]).1 == [true, false, true]
  {
    var first, tick, second := Call(key, 0), Tick(later), Call(key, later);
    var b := Bucket(rate - 1, 0);
    assert [] + [true] == [true] && [true] + [false] == [true, false];
    assert Run(rate, interval, []) == (map[], []);
    assert Run(rate, interval, [first]) == (map[key := b], [true]) by { assert [first][..0] == []; }
    assert CleanedUp(map[key := b], interval, later) == map[];
    hide CleanedUp;
    assert Run(rate, interval, [first, tick]) == (map[], [true, false]) by { assert [first, tick][..1] == [first]; }
    assert [first, tick, second][..2] == [first, tick];
  }

  /** And the two calls as a limiter of their own answers them, without a token to give. */
  lemma RememberedCalls(rate: int, interval: int, later: int)
    requires rate <= 0
    ensures Alone(rate, interval, [0, later]).1 == [true, false]
  {
    assert [] + [true] == [true] && [0][..0] == [] && [0, later][..1] == [0];
    assert Alone(rate, interval, []) == (None, []);
    assert Alone(rate, interval, [0]) == (Some(Bucket(rate - 1, 0)), [true]);
  }

  lemma TwoOfThree(key: string, later: int)
    ensures var events := [Call(key, 0), Tick(later), Call(key, later)];
            TimesOf(events, key) == [0, later] && AnswersTo(events, [true, false, true], key) == [true, true]
  {
    var first, tick, second := Call(key, 0), Tick(later), Call(key, later);
    assert [first][..0] == [] && [first, tick][..1] == [first] && [first, tick, second][..2] == [first, tick];
    assert [true][..0] == [] && [true, false][..1] == [true] && [true, false, true][..2] == [true, false];
    assert TimesOf([first], key) == [0] && AnswersTo([first], [true], key) == [true];
    assert TimesOf([first, tick], key) == [0] && AnswersTo([first, tick], [true, false], key) == [true];
  }

  /** Without a token to give, a limiter that forgets a key answers its next call anew. */
  lemma VisibleWithoutTokens(rate: int, interval: int, key: string) returns (events: seq<Event>)
    requires rate <= 0
    ensures Monotone(events)
    ensures AnswersTo(events, Run(rate, interval, events).1, key) == [true, true]
    ensures Alone(rate, interval, TimesOf(events, key)).1 == [true, false]
  {
    hide Run, AnswersTo, TimesOf, Alone;
    var later := if interval < 0 then 0 else 2 * interval + 1;
    events := [Call(key, 0), Tick(later), Call(key, later)];
    ForgottenRun(rate, interval, key, later);
    TwoOfThree(key, later);
    RememberedCalls(rate, interval, later);
  }

  /** Cleanup can be observed in no run exactly when the rate is at least one. */
  lemma InvisibleExactlyWithTokens(rate: int, interval: int)
    ensures NeverVisible(rate, interval) <==> rate >= 1
  {
    if rate >= 1 {
      forall events: seq<Event>, key: string | Monotone(events)
        ensures AnswersTo(events, Run(rate, interval, events).1, key) == Alone(rate, interval, TimesOf(events, key)).1
      {
        CleanupIsInvisible(rate, interval, events, key);
      }
    } else {
      var events := VisibleWithoutTokens(rate, interval, "");
    }
  }

  // ---------- The sliding window ----------

  /** How many of the calls made at times in [from, to) were allowed. */
  function Allowed(times: seq<int>, answers: seq<bool>, from: int, to: int): nat
    requires |times| == |answers|
  {
    if times == [] then 0
    else
      var n := |times| - 1;
      Allowed(times[..n], answers[..n], from, to) + (if answers[n] && from <= times[n] < to then 1 else 0)
  }

  function AllowedAlone(rate: int, interval: int, times: seq<int>, from: int, to: int): nat {
    Allowed(times, Alone(rate, interval, times).1, from, to)
  }

  predicate Nondecreasing(times: seq<int>) {
    forall i, j :: 0 <= i < j < |times| ==> times[i] <= times[j]
  }

  /** Once the window is open: what this bucket has let through in it, against the refills it has had since. */
  ghost predicate WindowInv(rate: int, interval: int, b: Bucket, allowed: nat, refills: nat, from: int) {
    && 0 <= b.tokens <= rate
    && (b.lastReset < from ==> refills == 0 && b.tokens <= rate - 1 && allowed + b.tokens <= rate - 1)
    && (b.lastReset >= from ==>
          refills >= 1 && b.lastReset >= from + (refills - 1) * interval && allowed + b.tokens <= (refills + 1) * rate - 1)
  }

  lemma {:induction false} WindowHolds(rate: int, interval: int, times: seq<int>, from: int, to: int)
    returns (refills: nat)
    requires rate >= 1 && interval >= 1 && times != [] && Nondecreasing(times)
    requires times[|times| - 1] < to
    ensures var (b, answers) := Alone(rate, interval, times);
            && b.Some? && b.value.lastReset <= times[|times| - 1]
            && WindowInv(rate, interval, b.value, Allowed(times, answers, from, to), refills, from)
            && (times[|times| - 1] < from ==> Allowed(times, answers, from, to) == 0)
  {
    var n := |times| - 1;
    var before, now := times[..n], times[n];
    var (b', answers') := Alone(rate, interval, times);
    var (b, answers) := Alone(rate, interval, before);
    assert answers'[..n] == answers;
    if n == 0 {
      refills := if now < from then 0 else 1;
    } else {
      refills := WindowHolds(rate, interval, before, from, to);
      if now - b.value.lastReset >= interval && now >= from {
        RefillKeepsBound(rate, interval, b.value, Allowed(before, answers, from, to), refills, from, now);
        refills := refills + 1;
      }
    }
  }

  lemma RefillKeepsBound(rate: int, interval: int, b: Bucket, allowed: nat, refills: nat, from: int, now: int)
    requires rate >= 1 && interval >= 1 && WindowInv(rate, interval, b, allowed, refills, from)
    requires now - b.lastReset >= interval && now >= from
    ensures WindowInv(rate, interval, Bucket(rate - 1, now), allowed + 1, refills + 1, from)
  {
    assert (refills + 1) * rate - 1 + rate == (refills + 2) * rate - 1;
    assert refills * interval == (refills - 1) * interval + interval;
  }

  lemma {:induction false} WindowBoundAlone(rate: int, interval: int, times: seq<int>, from: int, k: nat)
    requires rate >= 1 && interval >= 1 && k >= 1 && Nondecreasing(times)
    ensures AllowedAlone(rate, interval, times, from, from + k * interval) <= (k + 1) * rate - 1
  {
    var to := from + k * interval;
    if times == [] {
      assert (k + 1) * rate >= 1;
    } else if times[|times| - 1] >= to {
      WindowBoundAlone(rate, interval, times[..|times| - 1], from, k);
    } else {
      var refills := WindowHolds(rate, interval, times, from, to);
      var (b, answers) := Alone(rate, interval, times);
      AtMostOneRefillPerInterval(rate, interval, b.value, Allowed(times, answers, from, to), refills, from, k);
    }
  }

  lemma LessByFactor(a: int, b: int, c: int)
    requires c >= 1 && a * c < b * c
    ensures a < b
  {
    assert (b - a) * c > 0;
  }

  lemma Scaled(a: nat, b: nat, c: nat)
    requires a <= b
    ensures a * c <= b * c
  {
    assert (b - a) * c >= 0;
  }

  lemma AtMostOneRefillPerInterval(rate: int, interval: int, b: Bucket, allowed: nat, refills: nat, from: int, k: nat)
    requires rate >= 1 && interval >= 1 && k >= 1 && WindowInv(rate, interval, b, allowed, refills, from)
    requires b.lastReset < from + k * interval
    ensures allowed <= (k + 1) * rate - 1
  {
    if b.lastReset >= from {
      LessByFactor(refills - 1, k, interval);
      Scaled(refills + 1, k + 1, rate);
    } else {
      Scaled(1, k + 1, rate);
    }
  }

  lemma {:induction false} TimesAreNondecreasing(events: seq<Event>, key: string)
    requires Monotone(events)
    ensures Nondecreasing(TimesOf(events, key))
    ensures var times := TimesOf(events, key);
            times != [] ==> events != [] && times[|times| - 1] <= events[|events| - 1].time
  {
    if events != [] {
      TimesAreNondecreasing(events[..|events| - 1], key);
    }
  }

  /**
   In every run, whatever other keys and cleanups do, a key is allowed at most (k + 1) * rate - 1 calls in any
   half-open window of k intervals.
   */
  lemma WindowBound(rate: int, interval: int, events: seq<Event>, key: string, from: int, k: nat)
    requires rate >= 1 && interval >= 1 && k >= 1 && Monotone(events)
    ensures var answers := AnswersTo(events, Run(rate, interval, events).1, key);
            |answers| == |TimesOf(events, key)|
              && Allowed(TimesOf(events, key), answers, from, from + k * interval) <= (k + 1) * rate - 1
  {
    CleanupIsInvisible(rate, interval, events, key);
    TimesAreNondecreasing(events, key);
    WindowBoundAlone(rate, interval, TimesOf(events, key), from, k);
  }

  // ---------- The bound is met ----------

  /** n more calls at one moment. */
  function Burst(times: seq<int>, n: nat, t: int): seq<int> {
    if n == 0 then times else Burst(times, n - 1, t) + [t]
  }

  lemma OneMoreCall(rate: int, interval: int, times: seq<int>, t: int, from: int, to: int)
    ensures var (b, answers) := Alone(rate, interval, times);
            var (b', answer) := Take(rate, interval, b, t);
            && Alone(rate, interval, times + [t]) == (Some(b'), answers + [answer])
            && AllowedAlone(rate, interval, times + [t], from, to) ==
               AllowedAlone(rate, interval, times, from, to) + (if answer && from <= t < to then 1 else 0)
  {
    var answers := Alone(rate, interval, times).1;
    assert (times + [t])[..|times|] == times;
    assert (answers + [true])[..|times|] == answers && (answers + [false])[..|times|] == answers;
  }

  /** n calls at one moment, when the bucket has n tokens then: all are allowed. */
  lemma {:induction false} BurstAllowed(rate: int, interval: int, times: seq<int>, b: Bucket, n: nat, t: int, from: int, to: int)
    returns (b': Bucket)
    requires interval >= 1 && from <= t < to && Alone(rate, interval, times).0 == Some(b)
    requires n <= (if t - b.lastReset >= interval then rate else b.tokens)
    ensures Alone(rate, interval, Burst(times, n, t)).0 == Some(b')
    ensures AllowedAlone(rate, interval, Burst(times, n, t), from, to) == AllowedAlone(rate, interval, times, from, to) + n
    ensures b' == if n == 0 then b else if t - b.lastReset >= interval then Bucket(rate - n, t) else b.(tokens := b.tokens - n)
  {
    hide Alone, AllowedAlone;
    if n == 0 {
      b' := b;
    } else {
      var before := BurstAllowed(rate, interval, times, b, n - 1, t, from, to);
      OneMoreCall(rate, interval, Burst(times, n - 1, t), t, from, to);
      b' := Take(rate, interval, Some(before), t).0;
    }
  }

  /** One call, the rest of its interval's tokens just before the refill, and k full refills. */
  function Tightest(rate: nat, interval: int, k: nat): seq<int>
    requires rate >= 1
  {
    if k == 0 then Burst([0], rate - 1, interval - 1)
    else Burst(Tightest(rate, interval, k - 1), rate, k * interval)
  }

  /** The calls of k refills and of the interval before them: (k + 1) * rate - 1. */
  function FullWindow(rate: nat, k: nat): int {
    if k == 0 then rate - 1 else FullWindow(rate, k - 1) + rate
  }

  lemma {:induction false} FullWindowIs(rate: nat, k: nat)
    ensures FullWindow(rate, k) == (k + 1) * rate - 1
  {
    if k > 0 {
      FullWindowIs(rate, k - 1);
      assert (k + 1) * rate == k * rate + rate;
    }
  }

  lemma NoCalls(rate: int, interval: int, from: int, to: int)
    ensures Alone(rate, interval, []) == (None, []) && AllowedAlone(rate, interval, [], from, to) == 0
  {}

  lemma {:induction false} TightestAllowed(rate: nat, interval: int, k: nat, t: int, to: int)
    requires rate >= 1 && interval >= 2 && t == k * interval && t < to && interval - 1 < to
    ensures var times := Tightest(rate, interval, k);
            Alone(rate, interval, times).0 == Some(Bucket(0, t))
              && AllowedAlone(rate, interval, times, interval - 1, to) == FullWindow(rate, k)
  {
    hide Alone, AllowedAlone, Burst;
    if k == 0 {
      NoCalls(rate, interval, interval - 1, to);
      OneMoreCall(rate, interval, [], 0, interval - 1, to);
      assert [] + [0] == [0];
      var b := BurstAllowed(rate, interval, [0], Bucket(rate - 1, 0), rate - 1, interval - 1, interval - 1, to);
    } else {
      assert t >= interval && (k - 1) * interval == t - interval;
      TightestAllowed(rate, interval, k - 1, t - interval, to);
      var b := BurstAllowed(rate, interval, Tightest(rate, interval, k - 1), Bucket(0, t - interval), rate, t, interval - 1, to);
    }
  }

  lemma {:induction false} BurstIsNondecreasing(times: seq<int>, n: nat, t: int)
    requires times != [] && Nondecreasing(times) && times[|times| - 1] <= t
    ensures Burst(times, n, t) != [] && Nondecreasing(Burst(times, n, t))
    ensures times[|times| - 1] <= Burst(times, n, t)[|Burst(times, n, t)| - 1] <= t
  {
    if n > 0 {
      BurstIsNondecreasing(times, n - 1, t);
    }
  }

  lemma {:induction false} TightestIsNondecreasing(rate: nat, interval: int, k: nat, t: int)
    requires rate >= 1 && interval >= 2 && t == k * interval
    ensures var times := Tightest(rate, interval, k);
            times != [] && Nondecreasing(times) && times[|times| - 1] <= (if k == 0 then interval - 1 else t)
  {
    if k == 0 {
      BurstIsNondecreasing([0], rate - 1, interval - 1);
    } else {
      assert (k - 1) * interval == t - interval;
      TightestIsNondecreasing(rate, interval, k - 1, t - interval);
      if k == 1 {
        assert t == interval;
      }
      BurstIsNondecreasing(Tightest(rate, interval, k - 1), rate, t);
    }
  }

  /** One key's calls at these times, as a run of the shared limiter. */
  function CallsAt(key: string, times: seq<int>): seq<Event> {
    seq(|times|, i requires 0 <= i < |times| => Call(key, times[i]))
  }

  lemma {:induction false} CallsAtTimes(key: string, times: seq<int>)
    ensures TimesOf(CallsAt(key, times), key) == times
    ensures Nondecreasing(times) ==> Monotone(CallsAt(key, times))
  {
    if times != [] {
      var before := times[..|times| - 1];
      CallsAtTimes(key, before);
      assert CallsAt(key, times)[..|before|] == CallsAt(key, before);
    }
  }

  /** The bound cannot be lowered: for every rate and every window some run of the shared limiter reaches it. */
  lemma WindowBoundIsTight(rate: nat, interval: int, k: nat, key: string) returns (events: seq<Event>, from: int)
    requires rate >= 1 && interval >= 2 && k >= 1
    ensures Monotone(events)
    ensures var answers := AnswersTo(events, Run(rate, interval, events).1, key);
            |answers| == |TimesOf(events, key)|
              && Allowed(TimesOf(events, key), answers, from, from + k * interval) == (k + 1) * rate - 1
  {
    hide Tightest, FullWindow, Alone, Allowed, Run, AnswersTo, TimesOf, Monotone, Nondecreasing;
    var times := Tightest(rate, interval, k);
    from := interval - 1;
    TightestIsNondecreasing(rate, interval, k, k * interval);
    Scaled(1, k, interval);
    TightestAllowed(rate, interval, k, k * interval, from + k * interval);
    FullWindowIs(rate, k);
    events := CallsAt(key, times);
    CallsAtTimes(key, times);
    CleanupIsInvisible(rate, interval, events, key);
  }
}
