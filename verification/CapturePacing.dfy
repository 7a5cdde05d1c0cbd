/** The capture clock of CopyVirtualFrame, and the capture rate it allows. */
module CapturePacing {

  /** next_capture_: the time from which the next capture is allowed; 0 when it is unset. */
  class CaptureClock {
    const interval: nat
    var next: nat

    constructor (fps: nat)
      ensures interval == Interval(fps) && next == 0
    {
      interval := 1_000_000_000 / (if fps < 1 then 1 else fps);
      next := 0;
    }

    /** The start of CopyVirtualFrame: whether this call may capture. */
    method Admit(now: nat) returns (admitted: bool)
      modifies this
      ensures admitted == Admits(old(next), now)
      ensures next == if admitted then Advance(old(next), now, interval) else old(next)
    {
      if next != 0 && now < next { return false; }
      if next == 0 || now - next > interval * 2 {
        next := now + interval;
      } else {
        next := next + interval;
      }
      admitted := true;
    }

    /** A disconnect. */
    method Reset()
      modifies this
      ensures next == 0
    {
      next := 0;
    }
  }

  /** The time between two captures, in nanoseconds. */
  function Interval(fps: nat): nat { 1_000_000_000 / if fps < 1 then 1 else fps }

  predicate Admits(next: nat, now: nat) { next == 0 || now >= next }

  function Advance(next: nat, now: nat, interval: nat): nat {
    if next == 0 || now - next > interval * 2 then now + interval else next + interval
  }

  /** The times of the calls that capture. */
  function Captures(next: nat, calls: seq<nat>, interval: nat): seq<nat>
    decreases |calls|
  {
    if calls == [] then []
    else if Admits(next, calls[0]) then
      [calls[0]] + Captures(Advance(next, calls[0], interval), calls[1..], interval)
    else Captures(next, calls[1..], interval)
  }

  /** The clock after the calls. */
  function After(next: nat, calls: seq<nat>, interval: nat): nat
    decreases |calls|
  {
    if calls == [] then next
    else After(if Admits(next, calls[0]) then Advance(next, calls[0], interval) else next, calls[1..], interval)
  }

  ghost predicate Nondecreasing(calls: seq<nat>) {
    forall i, j | 0 <= i < j < |calls| :: calls[i] <= calls[j]
  }

  /** Once set, the clock bounds the captures that are still to come before a time. */
  lemma {:induction false} ClockBounds(next: nat, calls: seq<nat>, interval: nat, until: nat)
    requires next > 0 && interval > 0 && forall i | 0 <= i < |calls| :: calls[i] <= until
    ensures var n := |Captures(next, calls, interval)|; n > 0 ==> next + (n - 1) * interval <= until
    decreases |calls|
  {
    if calls != [] {
      if Admits(next, calls[0]) {
        ClockBounds(Advance(next, calls[0], interval), calls[1..], interval, until);
        var n := |Captures(next, calls, interval)|;
        assert (n - 1) * interval == (n - 2) * interval + interval;
      } else {
        ClockBounds(next, calls[1..], interval, until);
      }
    }
  }

  /**
   * The rate bound: whatever the calls and whatever the clock before them, the captures between
   * two times number at most three more than the intervals between them, as long as no
   * disconnect resets the clock.
   */
  lemma {:induction false} RateBound(next: nat, calls: seq<nat>, interval: nat, from: nat, until: nat)
    requires interval > 0 && from <= until && Nondecreasing(calls)
    requires forall i | 0 <= i < |calls| :: from <= calls[i] <= until
    ensures |Captures(next, calls, interval)| <= 3 + (until - from) / interval
    decreases |calls|
  {
    if calls != [] {
      var first := calls[0];
      if Admits(next, first) {
        ClockBounds(Advance(next, first, interval), calls[1..], interval, until);
        FromFirst(next, first, interval, from, until, |Captures(next, calls, interval)|);
      } else {
        RateBound(next, calls[1..], interval, from, until);
      }
    }
  }

  /** The count that the clock allows once the first of n captures is made. */
  lemma FromFirst(next: nat, first: nat, interval: nat, from: nat, until: nat, n: nat)
    requires interval > 0 && from <= first <= until && Admits(next, first)
    requires n > 1 ==> Advance(next, first, interval) + (n - 2) * interval <= until
    ensures n <= 3 + (until - from) / interval
  {
    if n > 3 {
      assert Advance(next, first, interval) + interval >= first;
      assert (n - 2) * interval == (n - 3) * interval + interval;
      AtLeastQuotient(n - 3, interval, until - from);
    }
  }

  lemma AtLeastQuotient(n: nat, d: nat, x: nat)
    requires d > 0 && n * d <= x
    ensures n <= x / d
  {
    var q := x / d;
    assert (q + 1) * d > x;
  }

  function Max(a: nat, b: nat): nat { if a < b then b else a }

  /** Calls at the clock, as soon as it has caught up with the first of them. */
  function PacedAt(next: nat, first: nat, interval: nat, i: nat): nat { Max(first, next + i * interval) }

  function Paced(next: nat, first: nat, interval: nat, n: nat): (calls: seq<nat>)
    ensures |calls| == n && forall i | 0 <= i < n :: calls[i] == PacedAt(next, first, interval, i)
  {
    seq(n, i requires 0 <= i < n => PacedAt(next, first, interval, i))
  }

  lemma Scaled(a: nat, b: nat, d: nat)
    requires a <= b
    ensures a * d <= b * d
  {}

  lemma PacedRises(next: nat, first: nat, interval: nat, n: nat)
    ensures Nondecreasing(Paced(next, first, interval, n))
    ensures n > 0 ==> Paced(next, first, interval, n)[0] == Max(first, next)
    ensures forall i | 0 <= i < n ::
      first <= Paced(next, first, interval, n)[i] <= Max(first, next + (n - 1) * interval)
  {
    hide Paced;
    var calls := Paced(next, first, interval, n);
    forall i, j | 0 <= i <= j < n ensures calls[i] <= calls[j] { Scaled(i, j, interval); }
    forall i | 0 <= i < n ensures calls[i] <= Max(first, next + (n - 1) * interval) { Scaled(i, n - 1, interval); }
  }

  /** Such calls all capture when the clock lags by two intervals at most. */
  lemma {:induction false} PacedCaptures(next: nat, first: nat, calls: seq<nat>, interval: nat)
    requires next > 0 && first <= next + 2 * interval
    requires forall i | 0 <= i < |calls| :: calls[i] == PacedAt(next, first, interval, i)
    ensures |Captures(next, calls, interval)| == |calls|
    decreases |calls|
  {
    if calls != [] {
      forall i | 0 <= i < |calls| - 1 ensures calls[1..][i] == PacedAt(next + interval, first, interval, i) {
        assert (i + 1) * interval == i * interval + interval;
      }
      PacedCaptures(next + interval, first, calls[1..], interval);
    }
  }

  /** The bound is reached, over every number of intervals: after a lag of two, three calls at once, then one each. */
  lemma RateBoundIsReached(start: nat, interval: nat, more: nat)
    requires interval > 0 && start > 2 * interval
    ensures
      var calls := Paced(start - 2 * interval, start, interval, 3 + more);
      && Nondecreasing(calls)
      && (forall i | 0 <= i < |calls| :: start <= calls[i] <= start + more * interval)
      && |Captures(start - 2 * interval, calls, interval)| == 3 + (start + more * interval - start) / interval
  {
    hide Captures, Paced;
    PacedRises(start - 2 * interval, start, interval, 3 + more);
    PacedCaptures(start - 2 * interval, start, Paced(start - 2 * interval, start, interval, 3 + more), interval);
    assert (3 + more - 1) * interval == 2 * interval + more * interval;
    ExactQuotient(more, interval);
    assert start + more * interval - start == more * interval;
  }

  lemma ExactQuotient(n: nat, d: nat)
    requires d > 0
    ensures n * d / d == n
  {
    var q := n * d / d;
    AtLeastQuotient(n, d, n * d);
    assert q * d <= n * d && (n + 1) * d == n * d + d;
    if q > n { Scaled(n + 1, q, d); }
  }

  // ---------- The exact rate ----------

  /**
   * The most captures there can be between an admitted first call and a time: after a restart the
   * intervals count from that call, else from where the clock stood.
   */
  function Most(next: nat, first: nat, interval: nat, until: nat): nat
    requires interval > 0 && next <= first <= until
  {
    1 + (until - if next == 0 || first > next + 2 * interval then first else next) / interval
  }

  /** The call that restarts the clock captures, and the next capture is an interval behind it. */
  lemma RestartCaptures(next: nat, calls: seq<nat>, interval: nat)
    requires calls != [] && (next == 0 || calls[0] > next + 2 * interval)
    ensures |Captures(next, calls, interval)| == 1 + |Captures(calls[0] + interval, calls[1..], interval)|
  {}

  /** n - 1 intervals, the first of them behind start, fit before a time. */
  lemma FitsBefore(start: nat, interval: nat, until: nat, n: nat)
    requires interval > 0 && start <= until && (n > 1 ==> start + (n - 1) * interval <= until)
    ensures n <= 1 + (until - start) / interval
  {
    if n > 1 { AtLeastQuotient(n - 1, interval, until - start); }
  }

  /** No calls capture more often than that, whatever the clock is at first. */
  lemma MostIsBound(next: nat, calls: seq<nat>, interval: nat, until: nat)
    requires interval > 0 && calls != [] && next <= calls[0] <= until
    requires forall i | 0 <= i < |calls| :: calls[i] <= until
    ensures |Captures(next, calls, interval)| <= Most(next, calls[0], interval, until)
  {
    hide Captures;
    var first, n := calls[0], |Captures(next, calls, interval)|;
    if next == 0 || first > next + 2 * interval {
      RestartCaptures(next, calls, interval);
      ClockBounds(first + interval, calls[1..], interval, until);
      assert (n - 1) * interval == (n - 2) * interval + interval;
      FitsBefore(first, interval, until, n);
    } else {
      ClockBounds(next, calls, interval, until);
      FitsBefore(next, interval, until, n);
    }
  }

  /** And some do: the bound is exact for every clock, every first call and every time. */
  lemma MostIsReached(next: nat, first: nat, interval: nat, until: nat) returns (calls: seq<nat>)
    requires interval > 0 && next <= first <= until
    ensures calls != [] && calls[0] == first && Nondecreasing(calls) && forall i | 0 <= i < |calls| :: calls[i] <= until
    ensures |Captures(next, calls, interval)| == Most(next, first, interval, until)
  {
    hide Paced, Captures, Nondecreasing;
    var n := Most(next, first, interval, until);
    var clock := if next == 0 || first > next + 2 * interval then first else next;
    Below(until - clock, interval);
    PacedRises(clock, first, interval, n);
    calls := Paced(clock, first, interval, n);
    if clock == next && next > 0 {
      PacedCaptures(next, first, calls, interval);
    } else {
      RestartCaptures(next, calls, interval);
      PacedBehind(first, interval, calls);
    }
  }

  lemma PacedBehind(first: nat, interval: nat, calls: seq<nat>)
    requires calls != [] && first + interval > 0
    requires forall i | 0 <= i < |calls| :: calls[i] == PacedAt(first, first, interval, i)
    ensures |Captures(first + interval, calls[1..], interval)| == |calls| - 1
  {
    hide Captures;
    forall i | 0 <= i < |calls| - 1 ensures calls[1..][i] == PacedAt(first + interval, first, interval, i) {
      assert (i + 1) * interval == i * interval + interval;
    }
    PacedCaptures(first + interval, first, calls[1..], interval);
  }

  lemma Below(x: nat, d: nat)
    requires d > 0
    ensures (x / d) * d <= x
  {}

  // ---------- In one second ----------

  const SECOND: nat := 1_000_000_000

  /** Up to 31622 frames a second the interval divides a second into that many, so at most three more are captured. */
  lemma CapturesInASecond(fps: nat, next: nat, calls: seq<nat>, from: nat)
    requires fps * fps <= SECOND && Nondecreasing(calls)
    requires forall i | 0 <= i < |calls| :: from <= calls[i] <= from + 1_000_000_000
    ensures |Captures(next, calls, Interval(fps))| <= 3 + Max(fps, 1)
  {
    hide Captures;
    var f := Max(fps, 1);
    var q := Interval(fps);
    var r := SECOND - q * f;
    QuotientOf(SECOND, f);
    if q < f { Scaled(q + 1, f, f); }
    QuotientIs(SECOND, q, f, r);
    RateBound(next, calls, q, from, from + SECOND);
  }

  lemma QuotientOf(x: nat, d: nat)
    requires d > 0
    ensures 0 <= x - (x / d) * d < d
  {}

  lemma QuotientIs(x: nat, d: nat, q: nat, r: nat)
    requires d > 0 && x == d * q + r && r < d
    ensures x / d == q
  {
    QuotientOf(x, d);
    var p := x / d;
    if p > q { Scaled(q + 1, p, d); }
    if p < q { Scaled(p + 1, q, d); }
  }

  /** The clock never runs more than an interval ahead of the last capture, so no later call is refused. */
  lemma {:induction false} NoCaptureWithheld(next: nat, calls: seq<nat>, interval: nat, now: nat)
    requires Captures(next, calls, interval) != []
    requires var made := Captures(next, calls, interval); now >= made[|made| - 1] + interval
    ensures Admits(After(next, calls, interval), now)
    decreases |calls|
  {
    if Admits(next, calls[0]) {
      var later := Advance(next, calls[0], interval);
      if Captures(later, calls[1..], interval) == [] {
        NoneCaptured(later, calls[1..], interval);
      } else {
        NoCaptureWithheld(later, calls[1..], interval, now);
      }
    } else {
      NoCaptureWithheld(next, calls[1..], interval, now);
    }
  }

  lemma {:induction false} NoneCaptured(next: nat, calls: seq<nat>, interval: nat)
    requires Captures(next, calls, interval) == []
    ensures After(next, calls, interval) == next
    decreases |calls|
  {
    if calls != [] && !Admits(next, calls[0]) { NoneCaptured(next, calls[1..], interval); }
  }

  // ---------- In real time ----------

  /** Behind the first capture a call is admitted if and only if a second over the frame rate has passed. */
  lemma AdmittedExactly(fps: nat, first: nat, now: nat)
    requires first <= now
    ensures Admits(After(0, [first], Interval(fps)), now) <==> (now - first + 1) * Max(fps, 1) > 1_000_000_000
  {
    var f, q := Max(fps, 1), Interval(fps);
    assert After(0, [first], q) == first + q by { assert [first][1..] == []; }
    QuotientOf(1_000_000_000, f);
    if now - first >= q { Scaled(q + 1, now - first + 1, f); } else { Scaled(now - first + 1, q, f); }
    assert (q + 1) * f == q * f + f;
  }

  /** Whatever was called before, a call is admitted once a second over the frame rate has passed since a capture. */
  lemma NoneHeldUp(fps: nat, next: nat, calls: seq<nat>, now: nat)
    requires Captures(next, calls, Interval(fps)) != []
    requires
      var made := Captures(next, calls, Interval(fps));
      var last := made[|made| - 1];
      last <= now && (now - last) * Max(fps, 1) >= 1_000_000_000
    ensures Admits(After(next, calls, Interval(fps)), now)
  {
    hide Captures, After, Interval;
    var made, f := Captures(next, calls, Interval(fps)), Max(fps, 1);
    IntervalFits(fps);
    if now - made[|made| - 1] < Interval(fps) { StrictlyScaled(now - made[|made| - 1], Interval(fps), f); }
    NoCaptureWithheld(next, calls, Interval(fps), now);
  }

  lemma IntervalFits(fps: nat)
    ensures Interval(fps) * Max(fps, 1) <= 1_000_000_000
  {
    QuotientOf(1_000_000_000, Max(fps, 1));
  }

  lemma StrictlyScaled(a: nat, b: nat, d: nat)
    requires a < b && d > 0
    ensures a * d < b * d
  {}

  /** In the second behind any admitted call there can be as many further captures as the frame rate says. */
  lemma FullRate(fps: nat, next: nat, first: nat) returns (calls: seq<nat>)
    requires fps <= 1_000_000_000 && next <= first
    ensures calls != [] && calls[0] == first && Nondecreasing(calls)
    ensures forall i | 0 <= i < |calls| :: calls[i] <= first + 1_000_000_000
    ensures |Captures(next, calls, Interval(fps))| > Max(fps, 1)
  {
    hide Captures, Interval, Most;
    var f, q := Max(fps, 1), Interval(fps);
    IntervalFits(fps);
    IntervalPositive(fps);
    calls := MostIsReached(next, first, q, first + 1_000_000_000);
    ManyFit(next, first, q, f);
  }

  lemma IntervalPositive(fps: nat)
    requires fps <= 1_000_000_000
    ensures Interval(fps) > 0
  {
    AtLeastQuotient(1, Max(fps, 1), 1_000_000_000);
  }

  lemma ManyFit(next: nat, first: nat, interval: nat, f: nat)
    requires interval > 0 && next <= first && interval * f <= 1_000_000_000
    ensures Most(next, first, interval, first + 1_000_000_000) > f
  {
    var start := if next == 0 || first > next + 2 * interval then first else next;
    AtLeastQuotient(f, interval, first + 1_000_000_000 - start);
  }
}
