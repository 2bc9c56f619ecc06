/**
 * The walk of a held sequence: steps that each rest for the same stretch, and eased
 * moves between them, as a function of how far the held screen has come.
 */
module SequenceWalk {

  /** At least one step, and moves that leave the steps room to rest. */
  predicate ValidShape(count: nat, glide: real) {
    count > 0 && glide > 0.0 && (count - 1) as real * glide <= 1.0
  }

  function Ease(t: real): real {
    t * t * (3.0 - 2.0 * t)
  }

  /** How long a step rests, when the whole held screen is 1. */
  function HoldOf(count: nat, glide: real): real
    requires count > 0
  {
    (1.0 - (count - 1) as real * glide) / count as real
  }

  /** Where a step arrives, when each rests for `hold` and each move takes `glide`. */
  function Arrives(step: nat, hold: real, glide: real): real
    decreases step, 0
  {
    if step == 0 then 0.0 else Leaves(step - 1, hold, glide) + glide
  }

  /** Where a step starts leaving again. */
  function Leaves(step: nat, hold: real, glide: real): real
    decreases step, 1
  {
    Arrives(step, hold, glide) + hold
  }

  /** How much of the move that starts at `leaves` has gone by. */
  function Share(progress: real, leaves: real, glide: real): real
    requires glide > 0.0
  {
    (progress - leaves) / glide
  }

  /** The walk from a step on: at rest on it, moving off it, or past it. */
  function WalkFrom(progress: real, step: nat, count: nat, hold: real, glide: real): real
    requires glide > 0.0 && step < count
    decreases count - step
  {
    if step == count - 1 then step as real
    else
      var leaves := Leaves(step, hold, glide);
      if progress <= leaves then step as real
      else if progress < leaves + glide then step as real + Ease(Share(progress, leaves, glide))
      else WalkFrom(progress, step + 1, count, hold, glide)
  }

  function Walk(progress: real, count: nat, glide: real): real
    requires ValidShape(count, glide)
  {
    WalkFrom(progress, 0, count, HoldOf(count, glide), glide)
  }

  /** The ends of every move: where each step arrives, and where each but the last starts leaving. */
  ghost predicate AreStops(stops: seq<real>, count: nat, hold: real, glide: real) {
    && |stops| == 2 * count - 1
    && (forall step :: 0 <= step < count ==> stops[2 * step] == Arrives(step, hold, glide))
    && (forall step :: 0 <= step < count - 1 ==> stops[2 * step + 1] == Leaves(step, hold, glide))
  }

  /** The distance from a stop within which the page snaps to it, in percent of the screen. */
  function ReachOf(count: nat, glide: real): real {
    glide * count as real * 50.0
  }

  // ----- the loops

  method WalkAt(progress: real, count: nat, glide: real) returns (walked: real)
    requires ValidShape(count, glide)
    ensures walked == Walk(progress, count, glide)
  {
    var hold := HoldOf(count, glide);
    walked := WalkLoop(progress, count, hold, glide);
  }

  method WalkLoop(progress: real, count: nat, hold: real, glide: real) returns (walked: real)
    requires glide > 0.0 && count > 0
    ensures walked == WalkFrom(progress, 0, count, hold, glide)
  {
    var rests := 0.0;
    var step := 0;
    while step < count - 1
      invariant 0 <= step <= count - 1
      invariant rests == Arrives(step, hold, glide)
      invariant WalkFrom(progress, 0, count, hold, glide) == WalkFrom(progress, step, count, hold, glide)
    {
      var leaves := rests + hold;
      if progress <= leaves {
        return step as real;
      }
      if progress < leaves + glide {
        return step as real + Ease((progress - leaves) / glide);
      }
      rests := leaves + glide;
      step := step + 1;
    }
    return (count - 1) as real;
  }

  method StopsOf(count: nat, glide: real) returns (stops: seq<real>)
    requires count > 0
    ensures AreStops(stops, count, HoldOf(count, glide), glide)
  {
    var hold := HoldOf(count, glide);
    stops := StopsLoop(count, hold, glide);
  }

  method StopsLoop(count: nat, hold: real, glide: real) returns (stops: seq<real>)
    requires count > 0
    ensures AreStops(stops, count, hold, glide)
  {
    stops := [];
    var step := 0;
    while step < count
      invariant 0 <= step <= count
      invariant |stops| == if step == count then 2 * count - 1 else 2 * step
      invariant forall s :: 0 <= s < step ==> stops[2 * s] == Arrives(s, hold, glide)
      invariant forall s :: 0 <= s < step && s < count - 1 ==> stops[2 * s + 1] == Leaves(s, hold, glide)
    {
      var arrives := step as real * (hold + glide);
      ArrivesIsProduct(step, hold, glide);
      stops := stops + [arrives];
      if step < count - 1 {
        stops := stops + [arrives + hold];
      }
      step := step + 1;
    }
  }

  // ----- lemmas

  lemma {:induction false} ArrivesIsProduct(step: nat, hold: real, glide: real)
    ensures Arrives(step, hold, glide) == step as real * (hold + glide)
  {
    if step > 0 {
      ArrivesIsProduct(step - 1, hold, glide);
      var pace := hold + glide;
      assert step as real * pace == (step - 1) as real * pace + pace;
    }
  }

  lemma HoldTimes(count: nat, glide: real)
    requires count > 0
    ensures HoldOf(count, glide) * count as real == 1.0 - (count - 1) as real * glide
  {
  }

  lemma NonNegativeHold(n: real, hold: real, rest: real)
    requires n > 0.0 && rest >= 0.0 && hold * n == rest
    ensures hold >= 0.0
  {
    if hold < 0.0 {
      StrictProduct(-hold, n);
    }
  }

  lemma HoldIsRoom(count: nat, glide: real)
    requires ValidShape(count, glide)
    ensures HoldOf(count, glide) >= 0.0
  {
    HoldTimes(count, glide);
    NonNegativeHold(count as real, HoldOf(count, glide), 1.0 - (count - 1) as real * glide);
  }

  /** The rests and the moves fill the held screen exactly. */
  lemma RestsAndMovesFillTheScreen(count: nat, hold: real, glide: real)
    requires count > 0 && hold * count as real == 1.0 - (count - 1) as real * glide
    ensures Leaves(count - 1, hold, glide) == 1.0
  {
    LastLeaves(count - 1, hold, glide);
    assert count as real == (count - 1) as real + 1.0;
  }

  lemma LastLeaves(step: nat, hold: real, glide: real)
    ensures Leaves(step, hold, glide) == hold * (step as real + 1.0) + step as real * glide
  {
    ArrivesIsProduct(step, hold, glide);
  }

  lemma CountsAsReals(count: nat)
    requires count > 0
    ensures count as real == (count - 1) as real + 1.0
    ensures (2 * count - 1) as real == 2.0 * count as real - 1.0
  {
  }

  // ----- products of reals

  lemma NonNegativeProduct(a: real, b: real)
    requires a >= 0.0 && b >= 0.0
    ensures a * b >= 0.0
  {
  }

  lemma StrictProduct(a: real, b: real)
    requires a > 0.0 && b > 0.0
    ensures a * b > 0.0
  {
  }

  // ----- the eased share

  function Slope(s: real, t: real): real {
    3.0 * (s + t) - 2.0 * (s * s + s * t + t * t)
  }

  lemma EaseDifference(s: real, t: real)
    ensures Ease(t) - Ease(s) == (t - s) * Slope(s, t)
  {
    assert (t - s) * (s + t) == t * t - s * s;
    assert (t - s) * (s * s + s * t + t * t) == t * t * t - s * s * s by {
      assert (t - s) * (s * s) == t * (s * s) - s * s * s;
      assert (t - s) * (s * t) == t * (s * t) - s * (s * t);
      assert (t - s) * (t * t) == t * t * t - s * (t * t);
    }
  }

  lemma SlopeBounds(s: real, t: real)
    requires 0.0 <= s <= 1.0 && 0.0 <= t <= 1.0
    ensures 0.0 <= Slope(s, t) <= 1.5
  {
    var u, d := 1.0 - s - t, s - t;
    assert 1.5 - Slope(s, t) == 1.5 * (u * u) + 0.5 * (d * d) by {
      assert u * u == 1.0 - 2.0 * s - 2.0 * t + s * s + 2.0 * (s * t) + t * t;
      assert d * d == s * s - 2.0 * (s * t) + t * t;
    }
    assert u * u >= 0.0 && d * d >= 0.0;
    NonNegativeProduct(t, 1.0 - t);
    NonNegativeProduct(s, 1.0 - s);
    NonNegativeProduct(t, 1.0 - s);
    NonNegativeProduct(s, 1.0 - t);
    assert Slope(s, t) == 2.0 * (t * (1.0 - t)) + 2.0 * (s * (1.0 - s)) + t * (1.0 - s) + s * (1.0 - t);
  }

  /** Between two points of a move the eased share climbs, and at most one and a half times as fast. */
  lemma EaseSlope(s: real, t: real)
    requires 0.0 <= s <= t <= 1.0
    ensures 0.0 <= Ease(t) - Ease(s) <= 1.5 * (t - s)
  {
    EaseDifference(s, t);
    SlopeBounds(s, t);
    NonNegativeProduct(t - s, Slope(s, t));
    NonNegativeProduct(t - s, 1.5 - Slope(s, t));
  }

  lemma EaseEnds()
    ensures Ease(0.0) == 0.0 && Ease(1.0) == 1.0
  {
  }

  lemma EasePositive(x: real)
    requires 0.0 < x <= 1.0
    ensures Ease(x) > 0.0
  {
    assert x * x > 0.0;
    assert 3.0 - 2.0 * x >= 1.0;
    assert Ease(x) >= x * x;
  }

  /** A move eases out as it eases in. */
  lemma EaseMirrors(x: real)
    ensures Ease(1.0 - x) == 1.0 - Ease(x)
  {
    var y := 1.0 - x;
    assert y * y == 1.0 - 2.0 * x + x * x;
    assert (1.0 - 2.0 * x + x * x) * (1.0 + 2.0 * x) == 1.0 - 3.0 * (x * x) + 2.0 * (x * x * x);
  }

  lemma EaseInside(x: real)
    requires 0.0 < x < 1.0
    ensures 0.0 < Ease(x) < 1.0
  {
    EasePositive(x);
    EasePositive(1.0 - x);
    EaseMirrors(x);
  }

  /** The share of a move that has gone by, between its two ends. */
  lemma ShareOfMove(progress: real, leaves: real, glide: real)
    requires glide > 0.0 && leaves <= progress <= leaves + glide
    ensures 0.0 <= Share(progress, leaves, glide) <= 1.0
    ensures Share(progress, leaves, glide) * glide == progress - leaves
    ensures leaves < progress < leaves + glide ==> 0.0 < Share(progress, leaves, glide) < 1.0
    ensures Share(leaves, leaves, glide) == 0.0 && Share(leaves + glide, leaves, glide) == 1.0
  {
    SharesOrdered(Share(progress, leaves, glide), progress - leaves, glide);
  }

  lemma SharesOrdered(s: real, gone: real, glide: real)
    requires glide > 0.0 && 0.0 <= gone <= glide && s * glide == gone
    ensures 0.0 <= s <= 1.0 && (0.0 < gone < glide ==> 0.0 < s < 1.0)
  {
    ShareOrder(0.0, s, glide);
    ShareOrder(s, 1.0, glide);
  }

  lemma ShareOrder(s: real, t: real, glide: real)
    requires glide > 0.0 && s * glide <= t * glide
    ensures s <= t
  {
    if t < s {
      StrictProduct(s - t, glide);
    }
  }

  // ----- monotone, and not too fast

  /** A rise over a span of progress: not backwards, and at most one and a half moves' worth for each move's length. */
  ghost predicate Slow(rise: real, span: real, glide: real) {
    0.0 <= rise && rise * glide <= 1.5 * span
  }

  lemma SlowSum(a: real, b: real, spanA: real, spanB: real, glide: real)
    requires glide > 0.0 && Slow(a, spanA, glide) && Slow(b, spanB, glide)
    ensures Slow(a + b, spanA + spanB, glide)
  {
    assert (a + b) * glide == a * glide + b * glide;
  }

  lemma SlowLonger(rise: real, span: real, longer: real, glide: real)
    requires Slow(rise, span, glide) && span <= longer
    ensures Slow(rise, longer, glide)
  {
  }

  lemma SlowEase(s: real, t: real, span: real, glide: real)
    requires glide > 0.0 && 0.0 <= s <= t <= 1.0 && (t - s) * glide == span
    ensures Slow(Ease(t) - Ease(s), span, glide)
  {
    EaseSlope(s, t);
    var rise := Ease(t) - Ease(s);
    NonNegativeProduct(1.5 * (t - s) - rise, glide);
    assert (1.5 * (t - s) - rise) * glide == 1.5 * ((t - s) * glide) - rise * glide;
  }

  /** Within one move. */
  lemma SlowInMove(p: real, q: real, leaves: real, glide: real)
    requires glide > 0.0 && leaves <= p <= q <= leaves + glide
    ensures Slow(Ease(Share(q, leaves, glide)) - Ease(Share(p, leaves, glide)), q - p, glide)
  {
    ShareOfMove(p, leaves, glide);
    ShareOfMove(q, leaves, glide);
    SlowBetween(Share(p, leaves, glide), Share(q, leaves, glide), p - leaves, q - leaves, glide);
  }

  lemma SlowBetween(s: real, t: real, p: real, q: real, glide: real)
    requires glide > 0.0 && 0.0 <= s <= 1.0 && 0.0 <= t <= 1.0 && s * glide == p && t * glide == q && p <= q
    ensures Slow(Ease(t) - Ease(s), q - p, glide)
  {
    ShareOrder(s, t, glide);
    SlowEase(s, t, q - p, glide);
  }

  /** Off a step, from its rest or its move, up to a point of that move or its end. */
  lemma SlowOff(p: real, q: real, leaves: real, glide: real)
    requires glide > 0.0 && p <= q && leaves <= q <= leaves + glide
    ensures Slow(Ease(Share(q, leaves, glide)) -
                 (if p <= leaves then 0.0 else Ease(Share(p, leaves, glide))), q - p, glide)
  {
    EaseEnds();
    if p <= leaves {
      ShareOfMove(q, leaves, glide);
      SlowInMove(leaves, q, leaves, glide);
      SlowLonger(Ease(Share(q, leaves, glide)), q - leaves, q - p, glide);
    } else {
      SlowInMove(p, q, leaves, glide);
    }
  }

  /** The walk never goes back, and never gains too much. */
  lemma {:induction false} WalkFromSlow(p: real, q: real, step: nat, count: nat, hold: real, glide: real)
    requires glide > 0.0 && hold >= 0.0 && step < count && p <= q
    ensures Slow(WalkFrom(q, step, count, hold, glide) - WalkFrom(p, step, count, hold, glide), q - p, glide)
    decreases count - step
  {
    if step < count - 1 {
      var leaves := Leaves(step, hold, glide);
      if p >= leaves + glide {
        WalkFromSlow(p, q, step + 1, count, hold, glide);
      } else if q >= leaves + glide {
        WalkFromSlow(leaves + glide, q, step + 1, count, hold, glide);
        SlowAcross(p, q, step, count, hold, glide);
      } else if q > leaves {
        SlowOff(p, q, leaves, glide);
      }
    }
  }

  /** A step is at rest where it arrives. */
  lemma RestsOnArrival(step: nat, count: nat, hold: real, glide: real)
    requires glide > 0.0 && hold >= 0.0 && step < count
    ensures WalkFrom(Arrives(step, hold, glide), step, count, hold, glide) == step as real
  {
  }

  lemma SlowAcross(p: real, q: real, step: nat, count: nat, hold: real, glide: real)
    requires glide > 0.0 && hold >= 0.0 && step < count - 1
    requires p < Leaves(step, hold, glide) + glide <= q
    requires Slow(WalkFrom(q, step + 1, count, hold, glide)
                  - WalkFrom(Leaves(step, hold, glide) + glide, step + 1, count, hold, glide),
                  q - (Leaves(step, hold, glide) + glide), glide)
    ensures Slow(WalkFrom(q, step, count, hold, glide) - WalkFrom(p, step, count, hold, glide), q - p, glide)
  {
    var leaves := Leaves(step, hold, glide);
    var arrives := leaves + glide;
    RestsOnArrival(step + 1, count, hold, glide);
    SlowOff(p, arrives, leaves, glide);
    ShareOfMove(arrives, leaves, glide);
    EaseEnds();
    var off := 1.0 - (if p <= leaves then 0.0 else Ease(Share(p, leaves, glide)));
    SlowSum(off, WalkFrom(q, step + 1, count, hold, glide) - (step + 1) as real, arrives - p, q - arrives, glide);
  }

  lemma {:induction false} WalkFromRange(p: real, step: nat, count: nat, hold: real, glide: real)
    requires glide > 0.0 && step < count
    ensures step as real <= WalkFrom(p, step, count, hold, glide) <= (count - 1) as real
    decreases count - step
  {
    if step < count - 1 {
      var leaves := Leaves(step, hold, glide);
      if leaves < p < leaves + glide {
        ShareOfMove(p, leaves, glide);
        EaseInside(Share(p, leaves, glide));
      } else if p >= leaves + glide {
        WalkFromRange(p, step + 1, count, hold, glide);
      }
    }
  }

  /** The walk is monotone in progress and stays between the first step and the last. */
  lemma WalkClimbs(p: real, q: real, count: nat, glide: real)
    requires ValidShape(count, glide) && p <= q
    ensures 0.0 <= Walk(p, count, glide) <= Walk(q, count, glide) <= (count - 1) as real
  {
    HoldIsRoom(count, glide);
    WalkFromSlow(p, q, 0, count, HoldOf(count, glide), glide);
    WalkFromRange(p, 0, count, HoldOf(count, glide), glide);
    WalkFromRange(q, 0, count, HoldOf(count, glide), glide);
  }

  lemma SlowRate(rise: real, span: real, glide: real, rate: real, gain: real)
    requires glide > 0.0 && Slow(rise, span, glide) && rate * glide == 1.5 && gain == rate * span
    ensures rise <= gain
  {
    assert gain * glide == rate * glide * span == 1.5 * span;
    ShareOrder(rise, gain, glide);
  }

  /** It changes by at most `1.5 / glide` per unit of progress. */
  lemma WalkRate(p: real, q: real, count: nat, glide: real, rate: real)
    requires ValidShape(count, glide) && p <= q && rate == 1.5 / glide
    ensures Walk(q, count, glide) - Walk(p, count, glide) <= rate * (q - p)
  {
    HoldIsRoom(count, glide);
    WalkFromRate(p, q, count, HoldOf(count, glide), glide, rate, rate * (q - p));
  }

  lemma WalkFromRate(p: real, q: real, count: nat, hold: real, glide: real, rate: real, gain: real)
    requires glide > 0.0 && hold >= 0.0 && count > 0 && p <= q && rate * glide == 1.5 && gain == rate * (q - p)
    ensures WalkFrom(q, 0, count, hold, glide) - WalkFrom(p, 0, count, hold, glide) <= gain
  {
    WalkFromSlow(p, q, 0, count, hold, glide);
    SlowRate(WalkFrom(q, 0, count, hold, glide) - WalkFrom(p, 0, count, hold, glide), q - p, glide, rate, gain);
  }

  // ----- where the walk is whole

  predicate IsWhole(x: real) {
    x == x.Floor as real
  }

  predicate InRest(p: real, step: nat, hold: real, glide: real) {
    Arrives(step, hold, glide) <= p <= Leaves(step, hold, glide)
  }

  /** A later step arrives no sooner than the end of the moves before it. */
  lemma {:induction false} ArrivesClimbs(i: nat, j: nat, hold: real, glide: real)
    requires glide > 0.0 && hold >= 0.0 && i < j
    ensures Leaves(i, hold, glide) + glide <= Arrives(j, hold, glide)
    decreases j - i
  {
    if i + 1 < j {
      ArrivesClimbs(i, j - 1, hold, glide);
    }
  }

  lemma NotWholeBetween(step: nat, x: real)
    requires 0.0 < x < 1.0
    ensures !IsWhole(step as real + x)
  {
    var f := (step as real + x).Floor;
    assert f as real <= step as real + x < f as real + 1.0;
    assert step - 1 < f < step + 1;
  }

  lemma {:induction false} WholeFrom(p: real, step: nat, count: nat, hold: real, glide: real)
    requires glide > 0.0 && hold >= 0.0 && step < count
    requires Arrives(step, hold, glide) <= p <= Leaves(count - 1, hold, glide)
    ensures IsWhole(WalkFrom(p, step, count, hold, glide)) <==>
      exists k :: step <= k < count && InRest(p, k, hold, glide)
    ensures forall k :: step <= k < count && InRest(p, k, hold, glide) ==>
      WalkFrom(p, step, count, hold, glide) == k as real
    decreases count - step
  {
    var leaves := Leaves(step, hold, glide);
    forall k | step < k < count ensures leaves + glide <= Arrives(k, hold, glide) {
      ArrivesClimbs(step, k, hold, glide);
    }
    if step == count - 1 || p <= leaves {
      assert InRest(p, step, hold, glide);
    } else if p < leaves + glide {
      ShareOfMove(p, leaves, glide);
      EaseInside(Share(p, leaves, glide));
      NotWholeBetween(step, Ease(Share(p, leaves, glide)));
    } else {
      WholeFrom(p, step + 1, count, hold, glide);
    }
  }

  /** On the held screen the walk is whole exactly on the closed rests, where it is the step at rest. */
  lemma WholeExactlyAtRest(p: real, count: nat, glide: real)
    requires ValidShape(count, glide) && 0.0 <= p <= 1.0
    ensures var hold := HoldOf(count, glide);
      && (IsWhole(Walk(p, count, glide)) <==> exists k :: 0 <= k < count && InRest(p, k, hold, glide))
      && (forall k :: 0 <= k < count && InRest(p, k, hold, glide) ==> Walk(p, count, glide) == k as real)
  {
    HoldIsRoom(count, glide);
    HoldTimes(count, glide);
    RestsAndMovesFillTheScreen(count, HoldOf(count, glide), glide);
    WholeFrom(p, 0, count, HoldOf(count, glide), glide);
  }

  // ----- the stops

  lemma {:induction false} InWhichMove(p: real, from: nat, count: nat, hold: real, glide: real) returns (step: nat)
    requires glide > 0.0 && from < count && !IsWhole(WalkFrom(p, from, count, hold, glide))
    ensures step < count - 1 && Leaves(step, hold, glide) < p < Leaves(step, hold, glide) + glide
    decreases count - from
  {
    if p < Leaves(from, hold, glide) + glide {
      step := from;
    } else {
      step := InWhichMove(p, from + 1, count, hold, glide);
    }
  }

  /**
   * Nobody is left mid-move: a point of the held screen where the walk is not whole is
   * within half a move, which is what `ReachOf` comes to, of a listed stop.
   */
  lemma MidMoveIsWithinReach(p: real, stops: seq<real>, count: nat, glide: real)
    requires ValidShape(count, glide) && AreStops(stops, count, HoldOf(count, glide), glide)
    requires !IsWhole(Walk(p, count, glide))
    ensures exists j :: 0 <= j < |stops| && -glide / 2.0 <= p - stops[j] <= glide / 2.0
    ensures glide / 2.0 * count as real * 100.0 == ReachOf(count, glide)
  {
    var hold := HoldOf(count, glide);
    var step := InWhichMove(p, 0, count, hold, glide);
    EndIsWithinReach(p, stops, step, count, hold, glide);
  }

  lemma EndIsWithinReach(p: real, stops: seq<real>, step: nat, count: nat, hold: real, glide: real)
    requires AreStops(stops, count, hold, glide) && step < count - 1
    requires Leaves(step, hold, glide) < p < Leaves(step, hold, glide) + glide
    ensures exists j :: 0 <= j < |stops| && -glide / 2.0 <= p - stops[j] <= glide / 2.0
  {
    if p - Leaves(step, hold, glide) <= glide / 2.0 {
      assert stops[2 * step + 1] == Leaves(step, hold, glide);
    } else {
      assert stops[2 * (step + 1)] == Arrives(step + 1, hold, glide);
    }
  }

  ghost predicate OutOfReach(p: real, stops: seq<real>, glide: real) {
    forall j :: 0 <= j < |stops| ==> p - stops[j] > glide / 2.0 || stops[j] - p > glide / 2.0
  }

  lemma StopOutsideRest(stops: seq<real>, j: nat, step: nat, count: nat, hold: real, glide: real)
    requires glide > 0.0 && hold >= 0.0 && AreStops(stops, count, hold, glide) && step < count && j < |stops|
    ensures stops[j] <= Arrives(step, hold, glide) || stops[j] >= Leaves(step, hold, glide)
  {
    var other := j / 2;
    assert j == 2 * other || j == 2 * other + 1;
    assert stops[j] == Arrives(other, hold, glide) || stops[j] == Leaves(other, hold, glide);
    if other < step {
      ArrivesClimbs(other, step, hold, glide);
    } else if other > step {
      ArrivesClimbs(step, other, hold, glide);
    }
  }

  /**
   * A reader who stops is left alone exactly when the rest is longer than the
   * move: the middle of a rest is out of reach of every stop if and only if
   * `(2 * count - 1) * glide < 1`.
   */
  lemma MiddleOutOfReachExactly(step: nat, stops: seq<real>, count: nat, glide: real)
    requires ValidShape(count, glide) && AreStops(stops, count, HoldOf(count, glide), glide) && step < count
    ensures OutOfReach(Arrives(step, HoldOf(count, glide), glide) + HoldOf(count, glide) / 2.0, stops, glide)
      <==> (2 * count - 1) as real * glide < 1.0
  {
    HoldIsRoom(count, glide);
    HoldTimes(count, glide);
    MiddleOutOfReach(step, stops, count, HoldOf(count, glide), glide);
    HoldAgainstGlide(count, HoldOf(count, glide), glide);
  }

  /** The page's own two sequences, three moments and six screens, both rest longer than they move. */
  lemma PageRestsLonger(step: nat, stops: seq<real>, count: nat, glide: real)
    requires (count == 3 && glide == 0.18) || (count == 6 && glide == 0.08)
    requires AreStops(stops, count, HoldOf(count, glide), glide) && step < count
    ensures ValidShape(count, glide)
    ensures OutOfReach(Arrives(step, HoldOf(count, glide), glide) + HoldOf(count, glide) / 2.0, stops, glide)
  {
    MiddleOutOfReachExactly(step, stops, count, glide);
  }

  lemma HoldAgainstGlide(count: nat, hold: real, glide: real)
    requires count > 0 && hold * count as real == 1.0 - (count - 1) as real * glide
    ensures hold > glide <==> (2 * count - 1) as real * glide < 1.0
  {
    CountsAsReals(count);
    Spare(hold, glide, count as real, (count - 1) as real, (2 * count - 1) as real * glide);
  }

  lemma Spare(hold: real, glide: real, n: real, m: real, moves: real)
    requires n > 0.0 && n == m + 1.0 && hold * n == 1.0 - m * glide && moves == (2.0 * n - 1.0) * glide
    ensures hold > glide <==> moves < 1.0
  {
    var spare := (hold - glide) * n;
    assert spare == 1.0 - moves;
    SignOfProduct(hold - glide, n, spare);
  }

  lemma MiddleOutOfReach(step: nat, stops: seq<real>, count: nat, hold: real, glide: real)
    requires glide > 0.0 && hold >= 0.0 && AreStops(stops, count, hold, glide) && step < count
    ensures OutOfReach(Arrives(step, hold, glide) + hold / 2.0, stops, glide) <==> hold > glide
  {
    var middle := Arrives(step, hold, glide) + hold / 2.0;
    assert stops[2 * step] == Arrives(step, hold, glide);
    if hold > glide {
      forall j | 0 <= j < |stops| ensures middle - stops[j] > glide / 2.0 || stops[j] - middle > glide / 2.0 {
        StopOutsideRest(stops, j, step, count, hold, glide);
      }
    }
  }

  lemma SignOfProduct(a: real, n: real, product: real)
    requires n > 0.0 && product == a * n
    ensures product > 0.0 <==> a > 0.0
  {
    if a > 0.0 {
      StrictProduct(a, n);
    } else {
      NonNegativeProduct(-a, n);
    }
  }

  // ----- inside a move

  /** A move has come no further than three times the square of its share, and no less short of its end. */
  lemma EaseIsSoft(x: real)
    requires 0.0 <= x <= 1.0
    ensures 0.0 <= Ease(x) <= 3.0 * (x * x)
    ensures 0.0 <= 1.0 - Ease(x) <= 3.0 * ((1.0 - x) * (1.0 - x))
  {
    EaseStartsSoftly(x);
    EaseStartsSoftly(1.0 - x);
    EaseMirrors(x);
  }

  lemma EaseStartsSoftly(x: real)
    requires 0.0 <= x <= 1.0
    ensures 0.0 <= Ease(x) <= 3.0 * (x * x)
  {
    NonNegativeProduct(x, x);
    NonNegativeProduct(x * x, x);
    NonNegativeProduct(x * x, 3.0 - 2.0 * x);
    assert Ease(x) == 3.0 * (x * x) - 2.0 * (x * x * x);
  }

  lemma {:induction false} WalkInMove(p: real, from: nat, step: nat, count: nat, hold: real, glide: real)
    requires glide > 0.0 && hold >= 0.0 && from <= step < count - 1
    requires Leaves(step, hold, glide) <= p <= Leaves(step, hold, glide) + glide
    ensures WalkFrom(p, from, count, hold, glide) == step as real + Ease(Share(p, Leaves(step, hold, glide), glide))
    decreases step - from
  {
    var leaves := Leaves(step, hold, glide);
    EaseEnds();
    ShareOfMove(p, leaves, glide);
    if from < step {
      ArrivesClimbs(from, step, hold, glide);
      WalkInMove(p, from + 1, step, count, hold, glide);
    } else if p == leaves + glide {
      RestsOnArrival(step + 1, count, hold, glide);
    }
  }

  /**
   * A move starts and ends softly: where a share `x` of it has gone by, the walk is at most
   * `3 * x * x` past the step it leaves, and at most `3 * (1 - x) * (1 - x)` short of the next.
   */
  lemma MovesAreSoft(p: real, x: real, step: nat, count: nat, glide: real)
    requires ValidShape(count, glide) && step + 1 < count && 0.0 <= x <= 1.0
    requires p == Leaves(step, HoldOf(count, glide), glide) + x * glide
    ensures 0.0 <= Walk(p, count, glide) - step as real <= 3.0 * (x * x)
    ensures 0.0 <= (step + 1) as real - Walk(p, count, glide) <= 3.0 * ((1.0 - x) * (1.0 - x))
  {
    HoldIsRoom(count, glide);
    MoveIsSoft(p, x, step, count, HoldOf(count, glide), glide);
  }

  lemma MoveIsSoft(p: real, x: real, step: nat, count: nat, hold: real, glide: real)
    requires glide > 0.0 && hold >= 0.0 && step + 1 < count && 0.0 <= x <= 1.0
    requires p == Leaves(step, hold, glide) + x * glide
    ensures 0.0 <= WalkFrom(p, 0, count, hold, glide) - step as real <= 3.0 * (x * x)
    ensures 0.0 <= (step + 1) as real - WalkFrom(p, 0, count, hold, glide) <= 3.0 * ((1.0 - x) * (1.0 - x))
  {
    var leaves := Leaves(step, hold, glide);
    NonNegativeProduct(x, glide);
    NonNegativeProduct(1.0 - x, glide);
    assert (1.0 - x) * glide == glide - x * glide;
    ShareOfMove(p, leaves, glide);
    ShareOrder(x, Share(p, leaves, glide), glide);
    ShareOrder(Share(p, leaves, glide), x, glide);
    WalkInMove(p, 0, step, count, hold, glide);
    EaseIsSoft(x);
  }
}
