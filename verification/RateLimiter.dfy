/**
 The fixed-window rate limiter: one counter and one reset time for each key.
 */
module RateLimiter {
  import opened Bounds

  type Key = string
  type Time = int

  datatype Slot = Slot(count: int, resetAt: Time)

  type Windows = map<Key, Slot>

  datatype Policy = Policy(max: int, period: Time)

  datatype Call = Call(key: Key, at: Time)

  // ---------------------------------------------------------------- the specification

  /** The call opens a new window: the key is new or its window has passed. */
  predicate Opens(w: Windows, c: Call) {
    c.key !in w || c.at > w[c.key].resetAt
  }

  predicate Admits(p: Policy, w: Windows, c: Call) {
    Opens(w, c) || w[c.key].count < p.max
  }

  function After(p: Policy, w: Windows, c: Call): Windows {
    if Opens(w, c) then w[c.key := Slot(1, c.at + p.period)]
    else if w[c.key].count < p.max then w[c.key := w[c.key].(count := w[c.key].count + 1)]
    else w
  }

  function Answers(p: Policy, w: Windows, calls: seq<Call>): (bs: seq<bool>)
    ensures |bs| == |calls|
    decreases calls
  {
    if calls == [] then [] else [Admits(p, w, calls[0])] + Answers(p, After(p, w, calls[0]), calls[1..])
  }

  function AfterAll(p: Policy, w: Windows, calls: seq<Call>): Windows
    decreases calls
  {
    if calls == [] then w else AfterAll(p, After(p, w, calls[0]), calls[1..])
  }

  class Limiter {
    var windows: Windows
    const policy: Policy

    constructor (max: int, period: Time)
      ensures windows == map[] && policy == Policy(max, period)
    {
      windows := map[];
      policy := Policy(max, period);
    }

    method Allow(key: Key, now: Time) returns (ok: bool)
      modifies this
      ensures ok == Admits(policy, old(windows), Call(key, now))
      ensures windows == After(policy, old(windows), Call(key, now))
    {
      if key !in windows || now > windows[key].resetAt {
        windows := windows[key := Slot(1, now + policy.period)];
        return true;
      }
      var s := windows[key];
      if s.count >= policy.max {
        return false;
      }
      windows := windows[key := s.(count := s.count + 1)];
      return true;
    }
  }

  // ---------------------------------------------------------------- keys do not interfere

  function Only(calls: seq<Call>, key: Key): (r: seq<Call>)
    ensures forall i :: 0 <= i < |r| ==> r[i] in calls && r[i].key == key
  {
    if calls == [] then [] else (if calls[0].key == key then [calls[0]] else []) + Only(calls[1..], key)
  }

  /** The answers given to one key's calls. */
  function Picked(calls: seq<Call>, answers: seq<bool>, key: Key): seq<bool>
    requires |calls| == |answers|
  {
    if calls == [] then []
    else (if calls[0].key == key then [answers[0]] else []) + Picked(calls[1..], answers[1..], key)
  }

  predicate SameSlot(w: Windows, v: Windows, key: Key) {
    (key in w <==> key in v) && (key in w ==> w[key] == v[key])
  }

  /** A key's answers are those of a limiter that is fed that key's calls alone. */
  lemma {:induction false} KeysAreIndependent(p: Policy, w: Windows, v: Windows, calls: seq<Call>, key: Key)
    requires SameSlot(w, v, key)
    ensures Picked(calls, Answers(p, w, calls), key) == Answers(p, v, Only(calls, key))
    decreases calls
  {
    if calls != [] {
      var c, rest := calls[0], Only(calls[1..], key);
      assert Answers(p, w, calls)[1..] == Answers(p, After(p, w, c), calls[1..]);
      if c.key == key {
        assert ([c] + rest)[1..] == rest;
        KeysAreIndependent(p, After(p, w, c), After(p, v, c), calls[1..], key);
      } else {
        KeysAreIndependent(p, After(p, w, c), v, calls[1..], key);
        assert Only(calls, key) == rest;
      }
    }
  }

  // ---------------------------------------------------------------- how many calls pass

  function CountTrue(bs: seq<bool>): nat {
    if bs == [] then 0 else (if bs[0] then 1 else 0) + CountTrue(bs[1..])
  }

  /** What one window lets through: its first call always, the others up to the limit. */
  function PerWindow(p: Policy): int {
    Max(1, p.max)
  }

  /** The calls are one key's, in the order of a clock that does not run back. */
  ghost predicate Ordered(calls: seq<Call>, key: Key, lo: Time, hi: Time) {
    && (forall i :: 0 <= i < |calls| ==> calls[i].key == key && lo <= calls[i].at <= hi)
    && (forall i, j :: 0 <= i < j < |calls| ==> calls[i].at <= calls[j].at)
  }

  /** Until its reset time a window passes what is left of its count. */
  lemma {:induction false} WithinWindow(p: Policy, w: Windows, calls: seq<Call>, key: Key, lo: Time, hi: Time)
    requires Ordered(calls, key, lo, hi) && key in w && hi <= w[key].resetAt
    ensures CountTrue(Answers(p, w, calls)) <= Max(0, p.max - w[key].count)
  {
    if calls != [] {
      WithinWindow(p, After(p, w, calls[0]), calls[1..], key, lo, hi);
    }
  }

  lemma {:induction false} AcrossTwoWindows(p: Policy, w: Windows, calls: seq<Call>, key: Key, lo: Time, hi: Time)
    requires Ordered(calls, key, lo, hi) && hi - lo <= p.period
    ensures CountTrue(Answers(p, w, calls)) <= PerWindow(p) + if key in w then Max(0, p.max - w[key].count) else 0
  {
    if calls != [] {
      var v := After(p, w, calls[0]);
      if Opens(w, calls[0]) {
        WithinWindow(p, v, calls[1..], key, lo, hi);
      } else {
        AcrossTwoWindows(p, v, calls[1..], key, lo, hi);
      }
    }
  }

  ghost predicate Counted(w: Windows) {
    forall key :: key in w ==> w[key].count >= 1
  }

  lemma {:induction false} CountsStayPositive(p: Policy, w: Windows, calls: seq<Call>)
    requires Counted(w)
    ensures Counted(AfterAll(p, w, calls))
    decreases calls
  {
    if calls != [] {
      CountsStayPositive(p, After(p, w, calls[0]), calls[1..]);
    }
  }

  ghost predicate Monotone(calls: seq<Call>) {
    forall i, j :: 0 <= i < j < |calls| ==> calls[i].at <= calls[j].at
  }

  lemma {:induction false} OnlyIsOrdered(calls: seq<Call>, key: Key, lo: Time, hi: Time)
    requires Monotone(calls) && forall i :: 0 <= i < |calls| ==> lo <= calls[i].at <= hi
    ensures Ordered(Only(calls, key), key, lo, hi)
  {
    if calls != [] {
      OnlyIsOrdered(calls[1..], key, calls[0].at, hi);
    }
  }

  /**
   Whatever was called before, any closed interval of length at most `period`
   sees at most 2 * max(1, max) - 1 allowed calls of one key.
   */
  lemma IntervalBound(p: Policy, before: seq<Call>, during: seq<Call>, key: Key, lo: Time, hi: Time)
    requires Monotone(during) && hi - lo <= p.period
    requires forall i :: 0 <= i < |during| ==> lo <= during[i].at <= hi
    ensures CountTrue(Picked(during, Answers(p, AfterAll(p, map[], before), during), key)) <= 2 * PerWindow(p) - 1
  {
    var w := AfterAll(p, map[], before);
    CountsStayPositive(p, map[], before);
    KeysAreIndependent(p, w, w, during, key);
    OnlyIsOrdered(during, key, lo, hi);
    AcrossTwoWindows(p, w, Only(during, key), key, lo, hi);
  }

  /** A window, counted from its first call on, lets through its share: its first call always. */
  lemma WindowBound(p: Policy, before: seq<Call>, first: Call, rest: seq<Call>)
    requires Monotone(rest) && Opens(AfterAll(p, map[], before), first)
    requires forall i :: 0 <= i < |rest| ==> first.at <= rest[i].at <= first.at + p.period
    ensures CountTrue(Picked([first] + rest, Answers(p, AfterAll(p, map[], before), [first] + rest), first.key)) <= PerWindow(p)
  {
    var w, calls, key := AfterAll(p, map[], before), [first] + rest, first.key;
    KeysAreIndependent(p, w, w, calls, key);
    OnlyIsOrdered(rest, key, first.at, first.at + p.period);
    assert calls[1..] == rest;
    assert Only(calls, key)[1..] == Only(rest, key);
    WithinWindow(p, After(p, w, first), Only(rest, key), key, first.at, first.at + p.period);
  }

  /** What one key is allowed in an interval after earlier calls. */
  function Allowed(p: Policy, before: seq<Call>, during: seq<Call>, key: Key): nat {
    CountTrue(Picked(during, Answers(p, AfterAll(p, map[], before), during), key))
  }

  /** At one instant a key gets one window's share at most. */
  lemma InstantBound(p: Policy, w: Windows, calls: seq<Call>, key: Key, at: Time)
    requires Ordered(calls, key, at, at) && Counted(w) && p.period == 0
    ensures CountTrue(Answers(p, w, calls)) <= PerWindow(p)
  {
    if calls != [] {
      if Opens(w, calls[0]) {
        WithinWindow(p, After(p, w, calls[0]), calls[1..], key, at, at);
      } else {
        WithinWindow(p, w, calls, key, at, at);
      }
    }
  }

  // ---------------------------------------------------------------- the bound is reached

  function Burst(c: Call, n: nat): seq<Call> {
    if n == 0 then [] else [c] + Burst(c, n - 1)
  }

  /** A burst inside a window with room for it passes whole, and so does what follows it. */
  lemma {:induction false} BurstPasses(p: Policy, w: Windows, c: Call, n: nat, rest: seq<Call>)
    requires c.key in w && c.at <= w[c.key].resetAt && (n == 0 || w[c.key].count + n <= p.max)
    ensures var v := w[c.key := w[c.key].(count := w[c.key].count + n)];
      CountTrue(Answers(p, w, Burst(c, n) + rest)) == n + CountTrue(Answers(p, v, rest))
  {
    var v := w[c.key := w[c.key].(count := w[c.key].count + n)];
    if n == 0 {
      assert v == w && Burst(c, n) + rest == rest;
    } else {
      var w' := After(p, w, c);
      assert Burst(c, n) + rest == [c] + (Burst(c, n - 1) + rest);
      BurstPasses(p, w', c, n - 1, rest);
      assert v == w'[c.key := w'[c.key].(count := w'[c.key].count + (n - 1))];
    }
  }

  /** A burst that opens a window passes up to what one window lets through. */
  lemma NewWindowFills(p: Policy, w: Windows, c: Call)
    requires Opens(w, c) && p.period >= 0
    ensures CountTrue(Answers(p, w, Burst(c, PerWindow(p)))) == PerWindow(p)
  {
    var n := PerWindow(p);
    assert Burst(c, n) == [c] + Burst(c, n - 1);
    BurstPasses(p, After(p, w, c), c, n - 1, []);
    assert Burst(c, n - 1) + [] == Burst(c, n - 1);
  }

  /**
   The bound is tight: a window is opened, then filled in its last instant,
   and the next one is filled an instant later.
   */
  lemma BoundIsReached(p: Policy, key: Key)
    requires p.period >= 1
    ensures var last, next := Call(key, p.period), Call(key, p.period + 1);
      var during := Burst(last, PerWindow(p) - 1) + Burst(next, PerWindow(p));
      CountTrue(Answers(p, AfterAll(p, map[], [Call(key, 0)]), during)) == 2 * PerWindow(p) - 1
  {
    var last, next := Call(key, p.period), Call(key, p.period + 1);
    var w := After(p, map[], Call(key, 0));
    assert AfterAll(p, map[], [Call(key, 0)]) == w;
    var n := PerWindow(p);
    BurstPasses(p, w, last, n - 1, Burst(next, n));
    NewWindowFills(p, w[key := w[key].(count := n)], next);
  }

  // ---------------------------------------------------------------- when the documented limit holds

  ghost predicate Inside(calls: seq<Call>, lo: Time, hi: Time) {
    Monotone(calls) && forall i :: 0 <= i < |calls| ==> lo <= calls[i].at <= hi
  }

  /** At most max requests per period for each key, whatever came before. */
  ghost predicate LimitsEveryPeriod(p: Policy) {
    forall before, during, key, lo, hi :: Inside(during, lo, hi) && hi - lo <= p.period ==>
      Allowed(p, before, during, key) <= p.max
  }

  /** The calls of BoundIsReached as an interval of one time unit. */
  lemma BoundBreaksLimit(p: Policy)
    requires p.period >= 1 && 2 * PerWindow(p) - 1 > p.max
    ensures !LimitsEveryPeriod(p)
  {
    var last, next := Call("", p.period), Call("", p.period + 1);
    var n := PerWindow(p);
    var during := Burst(last, n - 1) + Burst(next, n);
    BoundIsReached(p, "");
    TwoBursts(last, n - 1, next, n);
    OnlyKeyAllowed(p, [Call("", 0)], during, "");
    assert !(Allowed(p, [Call("", 0)], during, "") <= p.max);
  }

  lemma OnlyKeyAllowed(p: Policy, before: seq<Call>, during: seq<Call>, key: Key)
    requires Only(during, key) == during
    ensures Allowed(p, before, during, key) == CountTrue(Answers(p, AfterAll(p, map[], before), during))
  {
    var w := AfterAll(p, map[], before);
    KeysAreIndependent(p, w, w, during, key);
  }

  lemma TwoBursts(c: Call, m: nat, d: Call, n: nat)
    requires c.key == d.key && c.at <= d.at
    ensures Inside(Burst(c, m) + Burst(d, n), c.at, d.at) && Only(Burst(c, m) + Burst(d, n), c.key) == Burst(c, m) + Burst(d, n)
  {
    var calls := Burst(c, m) + Burst(d, n);
    BurstsByPosition(c, m, d, n);
    OnlyOneKey(calls, c.key);
    StepUpIsInside(calls, c, m, d);
  }

  lemma BurstsByPosition(c: Call, m: nat, d: Call, n: nat)
    ensures forall i :: 0 <= i < |Burst(c, m) + Burst(d, n)| ==> (Burst(c, m) + Burst(d, n))[i] == if i < m then c else d
  {
    BurstIs(c, m);
    BurstIs(d, n);
  }

  lemma StepUpIsInside(calls: seq<Call>, c: Call, m: nat, d: Call)
    requires c.at <= d.at && forall i :: 0 <= i < |calls| ==> calls[i] == if i < m then c else d
    ensures Inside(calls, c.at, d.at)
  {
  }

  lemma {:induction false} BurstIs(c: Call, n: nat)
    ensures |Burst(c, n)| == n && forall i :: 0 <= i < n ==> Burst(c, n)[i] == c
  {
    if n > 0 {
      BurstIs(c, n - 1);
    }
  }

  lemma {:induction false} OnlyOneKey(calls: seq<Call>, key: Key)
    requires forall i :: 0 <= i < |calls| ==> calls[i].key == key
    ensures Only(calls, key) == calls
  {
    if calls != [] {
      OnlyOneKey(calls[1..], key);
    }
  }

  /** A window opened by a call lets max calls through at its instant, or one if max is smaller. */
  lemma InstantIsFilled(p: Policy)
    requires p.period >= 0 && PerWindow(p) > p.max
    ensures !LimitsEveryPeriod(p)
  {
    var c := Call("", 0);
    assert Answers(p, map[], [c]) == [true];
    assert Picked([c], [true], "") == [true];
    assert Inside([c], 0, 0) && Allowed(p, [], [c], "") == 1;
  }

  /**
   The limiter keeps to "at most max requests per period" in every interval if
   and only if max is 1. (For a period of zero any positive max does, and for a
   negative one, which no interval fits, any max that is not negative.)
   */
  lemma LimitHoldsExactlyWhen(p: Policy)
    ensures LimitsEveryPeriod(p) <==>
      if p.period >= 1 then p.max == 1 else if p.period == 0 then p.max >= 1 else p.max >= 0
  {
    if p.period >= 1 {
      if p.max == 1 {
        forall before, during, key, lo, hi | Inside(during, lo, hi) && hi - lo <= p.period
          ensures Allowed(p, before, during, key) <= p.max
        {
          IntervalBound(p, before, during, key, lo, hi);
        }
      } else {
        BoundBreaksLimit(p);
      }
    } else if p.period == 0 {
      LimitWithoutPeriod(p);
    } else {
      LimitWithNegativePeriod(p);
    }
  }

  lemma LimitWithoutPeriod(p: Policy)
    requires p.period == 0
    ensures LimitsEveryPeriod(p) <==> p.max >= 1
  {
    if p.max >= 1 {
      forall before, during, key, lo, hi | Inside(during, lo, hi) && hi - lo <= p.period
        ensures Allowed(p, before, during, key) <= p.max
      {
        var w := AfterAll(p, map[], before);
        CountsStayPositive(p, map[], before);
        KeysAreIndependent(p, w, w, during, key);
        OnlyIsOrdered(during, key, lo, hi);
        if during != [] {
          InstantBound(p, w, Only(during, key), key, lo);
        }
      }
    } else {
      InstantIsFilled(p);
    }
  }

  function FirstOf(calls: seq<Call>): Call {
    if calls == [] then Call("", 0) else calls[0]
  }

  lemma NoCallsInside(calls: seq<Call>, lo: Time, hi: Time)
    requires Inside(calls, lo, hi) && hi < lo
    ensures calls == []
  {
    var first := FirstOf(calls);
  }

  lemma LimitWithNegativePeriod(p: Policy)
    requires p.period < 0
    ensures LimitsEveryPeriod(p) <==> p.max >= 0
  {
    if p.max >= 0 {
      forall before, during: seq<Call>, key, lo, hi | Inside(during, lo, hi) && hi - lo <= p.period
        ensures Allowed(p, before, during, key) <= p.max
      {
        NoCallsInside(during, lo, hi);
      }
    } else {
      assert Inside([], 0, p.period) && Allowed(p, [], [], "") == 0;
    }
  }

  /** At most max requests in every window, counted from the call that opens it. */
  ghost predicate LimitsEveryWindow(p: Policy) {
    forall before, first, rest :: Opens(AfterAll(p, map[], before), first) && Inside(rest, first.at, first.at + p.period) ==>
      Allowed(p, before, [first] + rest, first.key) <= p.max
  }

  /** Per window the documented limit holds if and only if it is positive. */
  lemma WindowLimitHoldsExactlyWhen(p: Policy)
    ensures LimitsEveryWindow(p) <==> p.max >= 1
  {
    if p.max >= 1 {
      forall before, first, rest | Opens(AfterAll(p, map[], before), first) && Inside(rest, first.at, first.at + p.period)
        ensures Allowed(p, before, [first] + rest, first.key) <= p.max
      {
        WindowBound(p, before, first, rest);
      }
    } else {
      var c := Call("", 0);
      assert Answers(p, map[], [c]) == [true];
      assert Picked([c], [true], "") == [true];
      assert [c] + [] == [c] && Inside([], 0, p.period) && Opens(AfterAll(p, map[], []), c);
      assert Allowed(p, [], [c] + [], c.key) == 1;
    }
  }
}
