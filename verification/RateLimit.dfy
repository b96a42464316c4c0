/** The fixed-window event budget that stands behind every answer a stranger
    can demand (internal/meshcorehost/limiter.go). */
module RateLimit {
  import opened Common

  /** A snapshot of the limiter: its policy, and the window now open. */
  datatype Budget = Budget(max: int, window: int, start: int, count: nat)

  /** The budget after one event at `now`, and whether the event was admitted. */
  function Consume(b: Budget, now: int): (Budget, bool) {
    if b.max <= 0 then (b, false)
    else if now < b.start + b.window then (b.(count := b.count + 1), b.count + 1 <= b.max)
    else (b.(start := now, count := 1), true)
  }

  class RateLimiter {
    const max: int
    const window: int
    var start: int
    var count: nat

    /** The Go zero value opens no window: `start` is the zero time. */
    constructor (max: int, window: int)
      ensures Snapshot() == Budget(max, window, 0, 0)
    {
      this.max, this.window, start, count := max, window, 0, 0;
    }

    ghost function Snapshot(): Budget
      reads this
    {
      Budget(max, window, start, count)
    }

    method Allow(now: int) returns (ok: bool)
      modifies this
      ensures (Snapshot(), ok) == Consume(old(Snapshot()), now)
    {
      if max <= 0 {
        return false;
      }
      if now < start + window {
        count := count + 1;
        return count <= max;
      }
      start, count := now, 1;
      return true;
    }
  }

  // ----- whole runs -----

  ghost predicate Nondecreasing(times: seq<int>) {
    forall i, j :: 0 <= i < j < |times| ==> times[i] <= times[j]
  }

  /** How many of the events at `times` are admitted inside `[from, until)`. */
  function AdmittedIn(b: Budget, times: seq<int>, from: int, until: int): nat
    decreases |times|
  {
    if times == [] then 0
    else
      var (b', ok) := Consume(b, times[0]);
      (if ok && from <= times[0] < until then 1 else 0) + AdmittedIn(b', times[1..], from, until)
  }

  function Left(b: Budget): nat {
    Max(0, b.max - b.count)
  }

  /** A window opened inside the span is the last one the span can see. */
  lemma {:induction false} OneWindow(b: Budget, times: seq<int>, a: int)
    requires Nondecreasing(times) && b.max > 0 && a <= b.start
    ensures AdmittedIn(b, times, a, a + b.window) <= Left(b)
    decreases |times|
  {
    if times != [] {
      var (b', ok) := Consume(b, times[0]);
      if times[0] < b.start + b.window {
        OneWindow(b', times[1..], a);
      } else {
        NothingAfter(b', times[1..], a, a + b.window);
      }
    }
  }

  /** Events at or past the end of the span add nothing to it. */
  lemma {:induction false} NothingAfter(b: Budget, times: seq<int>, from: int, until: int)
    requires forall i :: 0 <= i < |times| ==> until <= times[i]
    ensures AdmittedIn(b, times, from, until) == 0
    decreases |times|
  {
    if times != [] {
      NothingAfter(Consume(b, times[0]).0, times[1..], from, until);
    }
  }

  /** Once the span has begun, an older window may still spend what it has left
      and one more window may open. */
  lemma {:induction false} TwoWindows(b: Budget, times: seq<int>, a: int)
    requires Nondecreasing(times) && b.max > 0
    requires times != [] ==> a <= times[0]
    ensures AdmittedIn(b, times, a, a + b.window) <= Left(b) + b.max
    decreases |times|
  {
    if times != [] {
      var (b', ok) := Consume(b, times[0]);
      if times[0] < b.start + b.window {
        TwoWindows(b', times[1..], a);
      } else {
        OneWindow(b', times[1..], a);
      }
    }
  }

  /** Whatever state the limiter is in, any half-open span of one window's
      length admits at most twice the budget, and no budget admits nothing. */
  lemma {:induction false} RateBound(b: Budget, times: seq<int>, a: int)
    requires Nondecreasing(times)
    ensures AdmittedIn(b, times, a, a + b.window) <= if b.max <= 0 then 0 else 2 * b.max
    decreases |times|
  {
    if times != [] {
      if b.max > 0 && a <= times[0] {
        TwoWindows(b, times, a);
      } else {
        RateBound(Consume(b, times[0]).0, times[1..], a);
      }
    }
  }

  /** Sharper, for a limiter whose open window was opened by an event: that
      event lies before the span whenever two windows reach into it, so one
      slot of the older window is always spent outside. */
  lemma {:induction false} RateBoundOpened(b: Budget, times: seq<int>, a: int)
    requires Nondecreasing(times) && b.max > 0
    requires b.count >= 1
    ensures AdmittedIn(b, times, a, a + b.window) <= 2 * b.max - 1
    decreases |times|
  {
    if times != [] {
      if a <= times[0] {
        TwoWindows(b, times, a);
      } else {
        RateBoundOpened(Consume(b, times[0]).0, times[1..], a);
      }
    }
  }

  /** A fresh limiter first used once its zero window is over — any clock past
      the zero time by one window — never admits more than 2·Max − 1 per span. */
  lemma FreshRateBound(b: Budget, times: seq<int>, a: int)
    requires Nondecreasing(times) && b.max > 0
    requires times != [] ==> b.start + b.window <= times[0]
    ensures AdmittedIn(b, times, a, a + b.window) <= 2 * b.max - 1
  {
    if times != [] {
      var b' := Consume(b, times[0]).0;
      if a <= times[0] {
        OneWindow(b', times[1..], a);
      } else {
        RateBoundOpened(b', times[1..], a);
      }
    }
  }

  // ----- the bound is reached -----

  function Repeat(t: int, n: nat): seq<int> {
    seq(n, _ => t)
  }

  /** A burst at one instant of the open window takes every slot left. */
  lemma {:induction false} BurstInWindow(b: Budget, t: int, n: nat, rest: seq<int>, from: int, until: int)
    requires b.max > 0 && t < b.start + b.window && b.count + n <= b.max && from <= t < until
    ensures AdmittedIn(b, Repeat(t, n) + rest, from, until)
         == n + AdmittedIn(b.(count := b.count + n), rest, from, until)
    decreases n
  {
    if n == 0 {
      assert Repeat(t, n) + rest == rest;
    } else {
      assert (Repeat(t, n) + rest)[1..] == Repeat(t, n - 1) + rest;
      BurstInWindow(b.(count := b.count + 1), t, n - 1, rest, from, until);
    }
  }

  /** For every positive budget and window of at least two ticks some run
      admits exactly 2·Max − 1 in one span, so the sharp bound is the bound. */
  lemma BoundIsReached(max: nat, window: int) returns (times: seq<int>, a: int)
    requires max > 0 && window >= 2
    ensures Nondecreasing(times) && times != [] && times[0] == window
    ensures AdmittedIn(Budget(max, window, 0, 0), times, a, a + window) == 2 * max - 1
  {
    var t0 := window;
    a := t0 + window - 1;
    var late := Repeat(t0 + window, max);
    times := [t0] + (Repeat(a, max - 1) + late);
    var first := Budget(max, window, t0, 1);
    assert times[1..] == Repeat(a, max - 1) + late;
    BurstInWindow(first, a, max - 1, late, a, a + window);
    var spent := first.(count := max);
    assert late[1..] == Repeat(t0 + window, max - 1) + [];
    BurstInWindow(Budget(max, window, t0 + window, 1), t0 + window, max - 1, [], a, a + window);
    assert AdmittedIn(spent, late, a, a + window) == max;
  }
}
