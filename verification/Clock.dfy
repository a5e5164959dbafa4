/** Planning start times (src/domain.cpp:269-291, src/domain.cpp:216-228). */
module Clock {

  /** The remainder of C++: it has the sign of the dividend. */
  function Remainder(a: int, b: int): int
    requires b > 0
  {
    if a >= 0 then a % b else -((-a) % b)
  }

  /** Rounded toward zero: the dividend and its opposite have opposite remainders, each less than the
      divisor and on the dividend's side of zero. */
  lemma RemainderTruncates(a: int, b: int)
    requires b > 0
    ensures Remainder(-a, b) == -Remainder(a, b) && (a >= 0 ==> 0 <= Remainder(a, b) < b)
    ensures exists q :: a == b * q + Remainder(a, b)
  {
    if a >= 0 {
      assert a == b * (a / b) + Remainder(a, b);
    } else {
      assert -a == b * ((-a) / b) + (-a) % b;
      assert b * -((-a) / b) == -(b * ((-a) / b));
      assert a == b * -((-a) / b) + Remainder(a, b);
    }
  }

  function NextStart(now: int, initial: int, duration: int): int
    requires duration > 0
  {
    now + duration - Remainder(now - initial, duration)
  }

  /** A period starts at t. */
  ghost predicate Boundary(t: int, initial: int, duration: int)
    requires duration > 0
  {
    (t - initial) % duration == 0
  }

  ghost predicate LeastBoundaryAfter(t: int, now: int, initial: int, duration: int)
    requires duration > 0
  {
    && Boundary(t, initial, duration)
    && now < t
    && forall u :: Boundary(u, initial, duration) && now < u ==> t <= u
  }

  lemma MulAtLeast(k: int, d: int)
    requires k >= 1 && d > 0
    ensures k * d >= d
  {
    assert (k - 1) * d >= 0;
    assert (k - 1) * d == k * d - d;
  }

  /** Quotient and remainder are unique. */
  lemma ModUnique(x: int, d: int, q: int, r: int)
    requires 0 <= r < d && x == q * d + r
    ensures x % d == r
  {
    var k := x / d - q;
    assert k * d == (x / d) * d - q * d == r - x % d;
    if k >= 1 {
      MulAtLeast(k, d);
    } else if k <= -1 {
      MulAtLeast(-k, d);
    }
  }

  /** Distinct multiples of d are at least d apart. */
  lemma MultiplesApart(x: int, y: int, d: int)
    requires d > 0 && x % d == 0 && y % d == 0 && x < y
    ensures x + d <= y
  {
    var k := y / d - x / d;
    assert k * d == (y / d) * d - (x / d) * d == y - x;
    if k >= 1 {
      MulAtLeast(k, d);
    } else if k <= -1 {
      MulAtLeast(-k, d);
    }
  }

  lemma FloorIsMultiple(x: int, d: int)
    requires d > 0
    ensures (x - x % d) % d == 0 && (x + d - x % d) % d == 0
  {
    var q := x / d;
    ModUnique(x - x % d, d, q, 0);
    assert (q + 1) * d == q * d + d;
    ModUnique(x + d - x % d, d, q + 1, 0);
  }

  /** The next start is the least boundary after now exactly when now is not before the
      initial start, or sits on a boundary; before it, the truncated remainder overshoots. */
  lemma NextStartExact(now: int, initial: int, duration: int)
    requires duration > 0
    ensures LeastBoundaryAfter(NextStart(now, initial, duration), now, initial, duration)
       <==> now >= initial || Boundary(now, initial, duration)
    ensures now >= initial ==> now < NextStart(now, initial, duration) <= now + duration
  {
    var x := now - initial;
    var t := NextStart(now, initial, duration);
    FloorIsMultiple(x, duration);
    FloorIsMultiple(-x, duration);
    if now >= initial {
      LeastAt(t, now, initial, duration);
    } else if x % duration == 0 {
      assert x == (x / duration) * duration;
      ModUnique(-x, duration, -(x / duration), 0);
      assert t == now + duration;
      LeastAt(t, now, initial, duration);
    } else {
      // now + duration - x % duration is a boundary after now and before the result
      var u := now + duration - x % duration;
      assert Boundary(u, initial, duration) && now < u;
      if (-x) % duration == 0 {
        assert -x == ((-x) / duration) * duration;
        ModUnique(x, duration, -((-x) / duration), 0);
      }
      assert u < t;
    }
  }

  /** Between two boundaries before the initial start the result skips the next one. */
  lemma EarlyReading(now: int, initial: int, duration: int)
    requires duration > 0 && now < initial && !Boundary(now, initial, duration)
    ensures LeastBoundaryAfter(NextStart(now, initial, duration) - duration, now, initial, duration)
  {
    var x := now - initial;
    var r := (-x) % duration;
    FloorIsMultiple(-x, duration);
    var q := (-x - r) / duration;
    assert -x - r == duration * q;
    ModUnique(x + r, duration, -q, 0);
    if r == 0 {
      assert false;
    }
    LeastAt(now + r, now, initial, duration);
  }

  lemma LeastAt(t: int, now: int, initial: int, duration: int)
    requires duration > 0 && Boundary(t, initial, duration) && now < t <= now + duration
    ensures LeastBoundaryAfter(t, now, initial, duration)
  {
    forall u | Boundary(u, initial, duration) && now < u ensures t <= u {
      if u < t {
        MultiplesApart(u - initial, t - initial, duration);
      }
    }
  }

  /** Monotone in the reading, and one period of readings shares one next start. */
  lemma NextStartMonotone(a: int, b: int, initial: int, duration: int)
    requires duration > 0 && initial <= a <= b
    ensures NextStart(a, initial, duration) <= NextStart(b, initial, duration)
    ensures NextStart(a, initial, duration) == NextStart(b, initial, duration)
       <==> b < NextStart(a, initial, duration)
  {
    NextStartExact(a, initial, duration);
    NextStartExact(b, initial, duration);
  }

  // ----- the polling loop's clock, one reading per iteration -----

  /** The period a reading belongs to starts here. */
  function PeriodStart(now: int, initial: int, duration: int): int
    requires duration > 0
  {
    NextStart(now, initial, duration) - duration
  }

  /** The planning start time after one iteration whose switch, if any, succeeds. */
  function Tick(start: int, now: int, initial: int, duration: int): int
    requires duration > 0
  {
    if NextStart(now, initial, duration) - now <= 60 then NextStart(now, initial, duration) else start
  }

  /** The iteration reading now starts jobs of the planning in place. */
  predicate Dispatches(start: int, now: int, initial: int, duration: int)
    requires duration > 0
  {
    start <= now && Tick(start, now, initial, duration) <= now
  }

  /** After an iteration at a reading: the planning in place is the current or the next one. */
  ghost predicate InStep(start: int, now: int, initial: int, duration: int)
    requires duration > 0
  {
    && initial <= now
    && (start == PeriodStart(now, initial, duration) || start == NextStart(now, initial, duration))
    && (NextStart(now, initial, duration) - now <= 60 ==> start == NextStart(now, initial, duration))
  }

  /** What holds after every iteration gives a boundary and a positive remaining time. */
  lemma InStepMeaning(start: int, now: int, initial: int, duration: int)
    requires duration > 0 && InStep(start, now, initial, duration)
    ensures Boundary(start, initial, duration)
    ensures start + duration - now > 0
  {
    NextStartExact(now, initial, duration);
    FloorIsMultiple(now - initial, duration);
  }

  /** Readings at most 60 s apart keep the planning start in step and never move it back. */
  lemma TickKeepsInStep(start: int, last: int, now: int, initial: int, duration: int)
    requires duration >= 60 && InStep(start, last, initial, duration) && last <= now <= last + 60
    ensures InStep(Tick(start, now, initial, duration), now, initial, duration)
    ensures start <= Tick(start, now, initial, duration)
  {
    NextStartExact(last, initial, duration);
    NextStartExact(now, initial, duration);
    NextStartMonotone(last, now, initial, duration);
    var next := NextStart(last, initial, duration);
    if now >= next {
      // the switch happened at the last reading, and now lies in the period it switched to
      FloorIsMultiple(last - initial, duration);
      assert Boundary(next + duration, initial, duration) by {
        FloorIsMultiple(next - initial, duration);
      }
      LeastAt(next + duration, now, initial, duration);
    }
  }

  /** An iteration in step dispatches exactly when its reading is more than 60 s before the end
      of its period and the planning in place is that period's. */
  lemma DispatchWindow(start: int, last: int, now: int, initial: int, duration: int)
    requires duration >= 60 && InStep(start, last, initial, duration) && last <= now <= last + 60
    ensures Dispatches(start, now, initial, duration)
       <==> now < PeriodStart(now, initial, duration) + duration - 60 && start <= now
    ensures Dispatches(start, now, initial, duration) ==>
              && start == PeriodStart(now, initial, duration)
              && start == Tick(start, now, initial, duration)
              && start <= now < start + duration - 60
  {
    TickKeepsInStep(start, last, now, initial, duration);
    NextStartExact(now, initial, duration);
  }

  /** With several non-decreasing readings in one iteration, one that switches still
      dispatches nothing: the switched-to planning starts after the iteration's first reading. */
  lemma SwitchDispatchesNothing(now: int, third: int, initial: int, duration: int)
    requires duration > 0 && initial <= now <= third
    ensures NextStart(third, initial, duration) > now
  {
    NextStartExact(third, initial, duration);
  }

  // ----- runs of readings -----

  /** Planning start after the readings in turn. */
  function After(start: int, readings: seq<int>, initial: int, duration: int): int
    requires duration > 0
  {
    if readings == [] then start
    else Tick(After(start, readings[..|readings| - 1], initial, duration), readings[|readings| - 1], initial, duration)
  }

  function Previous(first: int, readings: seq<int>, i: nat): int
    requires i < |readings|
  {
    if i == 0 then first else readings[i - 1]
  }

  /** Readings never go back and are at most gap seconds apart. */
  ghost predicate Spaced(first: int, readings: seq<int>, gap: int) {
    forall i: nat | i < |readings| :: Previous(first, readings, i) <= readings[i] <= Previous(first, readings, i) + gap
  }

  function Last(first: int, readings: seq<int>): int {
    if readings == [] then first else readings[|readings| - 1]
  }

  /** A domain created at first has the next start in place; every run of readings at most
      60 s apart then stays in step. */
  lemma {:induction false} RollOver(first: int, readings: seq<int>, initial: int, duration: int)
    requires duration >= 60 && initial <= first && Spaced(first, readings, 60)
    ensures InStep(After(NextStart(first, initial, duration), readings, initial, duration),
                   Last(first, readings), initial, duration)
  {
    if readings == [] {
    } else {
      var n := |readings| - 1;
      var before := readings[..n];
      forall i: nat | i < n
        ensures Previous(first, before, i) <= before[i] <= Previous(first, before, i) + 60
      {
        assert Previous(first, before, i) == Previous(first, readings, i);
      }
      RollOver(first, before, initial, duration);
      assert Last(first, before) == Previous(first, readings, n);
      TickKeepsInStep(After(NextStart(first, initial, duration), before, initial, duration),
                      Last(first, before), readings[n], initial, duration);
    }
  }

  /** Reading k of the run starts jobs of the planning that begins at b. */
  ghost predicate DispatchedAt(first: int, readings: seq<int>, k: nat, b: int, initial: int, duration: int)
    requires duration > 0
  {
    && k < |readings|
    && After(NextStart(first, initial, duration), readings[..k], initial, duration) == b
    && Dispatches(b, readings[k], initial, duration)
  }

  /** The first reading at or past b, with its predecessor before b. */
  lemma {:induction false} Crossing(first: int, readings: seq<int>, b: int) returns (k: nat)
    requires first < b <= Last(first, readings)
    ensures k < |readings| && Previous(first, readings, k) < b <= readings[k]
  {
    k := |readings| - 1;
    while Previous(first, readings, k) >= b
      invariant k < |readings| && b <= readings[k]
      decreases k
    {
      k := k - 1;
    }
  }

  /** Every run of readings at most 60 s apart that passes the start of a period dispatches
      that period's planning, within a minute of its start, when periods last 120 s or more. */
  lemma PeriodDispatched(first: int, readings: seq<int>, b: int, initial: int, duration: int) returns (k: nat)
    requires duration >= 120 && initial <= first && Spaced(first, readings, 60)
    requires Boundary(b, initial, duration) && first < b <= Last(first, readings)
    ensures DispatchedAt(first, readings, k, b, initial, duration)
    ensures b <= readings[k] < b + 60
  {
    k := Crossing(first, readings, b);
    var before := readings[..k];
    var last := Previous(first, readings, k);
    assert last == Last(first, before);
    forall i: nat | i < k
      ensures Previous(first, before, i) <= before[i] <= Previous(first, before, i) + 60
    {
      assert Previous(first, before, i) == Previous(first, readings, i);
    }
    RollOver(first, before, initial, duration);
    NextStartExact(last, initial, duration);
    MultiplesWithin(b, NextStart(last, initial, duration), initial, duration);
    FloorIsMultiple(b - initial, duration);
    LeastAt(b + duration, readings[k], initial, duration);
    NextStartExact(readings[k], initial, duration);
  }

  lemma MultiplesWithin(b: int, t: int, initial: int, duration: int)
    requires duration > 0 && Boundary(b, initial, duration) && Boundary(t, initial, duration)
    requires b - duration < t < b + duration
    ensures b == t
  {
    if b < t {
      MultiplesApart(b - initial, t - initial, duration);
    } else if t < b {
      MultiplesApart(t - initial, b - initial, duration);
    }
  }

  /** Whatever the readings, every period they pass the start of is dispatched. */
  ghost predicate EveryPeriodDispatched(initial: int, duration: int)
    requires duration > 0
  {
    forall first: int, readings: seq<int>, b: int ::
      && initial <= first && Spaced(first, readings, 60)
      && Boundary(b, initial, duration) && first < b <= Last(first, readings)
      ==> exists k :: DispatchedAt(first, readings, k, b, initial, duration)
  }

  /** Among durations of whole minutes, exactly those over one minute are served: with a
      one-minute day every iteration switches, so no job is ever started. */
  lemma ServedDurations(initial: int, duration: int)
    requires duration > 0 && duration % 60 == 0
    ensures EveryPeriodDispatched(initial, duration) <==> duration > 60
  {
    if duration > 60 {
      forall first: int, readings: seq<int>, b: int
        | initial <= first && Spaced(first, readings, 60)
          && Boundary(b, initial, duration) && first < b <= Last(first, readings)
        ensures exists k :: DispatchedAt(first, readings, k, b, initial, duration)
      {
        var k := PeriodDispatched(first, readings, b, initial, duration);
      }
    } else {
      var b := initial + 60;
      assert duration == 60 && Boundary(b, initial, duration);
      assert Spaced(initial, [b], 60) && initial < b <= Last(initial, [b]);
      forall k: nat ensures !DispatchedAt(initial, [b], k, b, initial, duration) {
        NextStartExact(b, initial, duration);
      }
    }
  }

  /** With a one-minute day every reading switches, so none starts a job, whatever is in place. */
  lemma OneMinuteDay(start: int, now: int, initial: int)
    requires initial <= now
    ensures !Dispatches(start, now, initial, 60)
    ensures Tick(start, now, initial, 60) == NextStart(now, initial, 60)
  {
    NextStartExact(now, initial, 60);
  }

  /** Every run of readings at most gap seconds apart stays in step. */
  ghost predicate Safe(gap: nat, initial: int, duration: int)
    requires duration > 0
  {
    forall first: int, readings: seq<int> :: initial <= first && Spaced(first, readings, gap) ==>
      InStep(After(NextStart(first, initial, duration), readings, initial, duration),
             Last(first, readings), initial, duration)
  }

  /** Sixty seconds is the largest spacing that is safe, but for a one-minute day, which is safe at
      any: beyond it, two readings around a boundary miss the switch and leave no remaining time. */
  lemma SafeSpacing(gap: nat, initial: int, duration: int)
    requires duration > 0 && duration % 60 == 0
    ensures Safe(gap, initial, duration) <==> gap <= 60 || duration == 60
  {
    if gap <= 60 {
      forall first: int, readings: seq<int> | initial <= first && Spaced(first, readings, gap)
        ensures InStep(After(NextStart(first, initial, duration), readings, initial, duration),
                       Last(first, readings), initial, duration)
      {
        assert Spaced(first, readings, 60);
        RollOver(first, readings, initial, duration);
      }
    } else if duration == 60 {
      forall first: int, readings: seq<int> | initial <= first && Spaced(first, readings, gap)
        ensures InStep(After(NextStart(first, initial, duration), readings, initial, duration),
                       Last(first, readings), initial, duration)
      {
        NeverBack(first, readings, gap);
        NextStartExact(Last(first, readings), initial, duration);
      }
    } else {
      var readings := MissingRun(initial, duration);
      MissedSwitch(initial, duration);
      assert Spaced(initial, readings, gap);
    }
  }

  lemma {:induction false} NeverBack(first: int, readings: seq<int>, gap: nat)
    requires Spaced(first, readings, gap)
    ensures first <= Last(first, readings)
  {
    if readings != [] {
      var n := |readings| - 1;
      var before := readings[..n];
      forall i: nat | i < n
        ensures Previous(first, before, i) <= before[i] <= Previous(first, before, i) + gap
      {
        assert Previous(first, before, i) == Previous(first, readings, i);
      }
      NeverBack(first, before, gap);
      assert Last(first, before) == Previous(first, readings, n);
    }
  }

  /** A reading every second until 61 s before the end of the second period, then its end. */
  function MissingRun(initial: int, duration: int): seq<int>
    requires duration >= 120
  {
    Seconds(initial, 2 * duration - 61) + [initial + 2 * duration]
  }

  function Seconds(initial: int, n: nat): (r: seq<int>)
    ensures |r| == n && forall i | 0 <= i < n :: r[i] == initial + 1 + i
  {
    if n == 0 then [] else Seconds(initial, n - 1) + [initial + n]
  }

  lemma NextStartWithin(initial: int, duration: int, k: nat, i: nat)
    requires duration > 0 && i < duration
    ensures NextStart(initial + k * duration + i, initial, duration) == initial + k * duration + duration
  {
    ModUnique(k * duration + i, duration, k, i);
  }

  /** Up to 61 s before the end of its period, no reading moves the start from that period's. */
  lemma NoSwitchYet(initial: int, duration: int, n: nat)
    requires duration >= 120 && n <= 2 * duration - 61
    ensures Tick(initial + duration, initial + n, initial, duration) == initial + duration
  {
    if n < duration {
      NextStartWithin(initial, duration, 0, n);
    } else {
      NextStartWithin(initial, duration, 1, n - duration);
    }
  }

  lemma {:induction false} SecondsStay(initial: int, duration: int, n: nat)
    requires duration >= 120 && n <= 2 * duration - 61
    ensures After(initial + duration, Seconds(initial, n), initial, duration) == initial + duration
  {
    if n > 0 {
      SecondsStay(initial, duration, n - 1);
      var r := Seconds(initial, n);
      assert r[..n - 1] == Seconds(initial, n - 1) && r[n - 1] == initial + n;
      NoSwitchYet(initial, duration, n);
    }
  }

  /** The reading at the end of the second period finds the first one's planning still in place. */
  lemma LateReading(initial: int, duration: int)
    requires duration >= 120
    ensures var late := initial + 2 * duration;
            !InStep(Tick(initial + duration, late, initial, duration), late, initial, duration)
  {
    NextStartWithin(initial, duration, 2, 0);
  }

  lemma MissedSwitch(initial: int, duration: int)
    requires duration >= 120
    ensures !InStep(After(NextStart(initial, initial, duration), MissingRun(initial, duration), initial, duration),
                    Last(initial, MissingRun(initial, duration)), initial, duration)
  {
    var n, run := 2 * duration - 61, MissingRun(initial, duration);
    NextStartWithin(initial, duration, 0, 0);
    SecondsStay(initial, duration, n);
    assert run[..n] == Seconds(initial, n) && run[n] == initial + 2 * duration;
    assert After(initial + duration, run, initial, duration) == Tick(initial + duration, run[n], initial, duration);
    LateReading(initial, duration);
  }
}
