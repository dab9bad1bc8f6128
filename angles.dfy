/** Headings of the character about the vertical axis, in radians, and the
    wrap-around that keeps a new heading within half a turn of the current
    one (normalizeRotation in main.js). */
module Angles {

  /** Math.PI, taken as the shortest decimal that reads back as that double
      (the double itself is 3.141592653589793115997963...). */
  const PI: real := 3.141592653589793

  /** One full turn. */
  const TAU: real := 2.0 * PI

  /** The angle of k full turns. */
  function Turns(k: int): real
  {
    k as real * TAU
  }

  /** a and b are the same heading: they differ by a whole number of turns. */
  ghost predicate SameHeading(a: real, b: real)
  {
    exists k: int :: a - b == Turns(k)
  }

  /** The least integer that is not below x. */
  function Ceil(x: real): (n: int)
    ensures x <= n as real < x + 1.0
  {
    -((-x).Floor)
  }

  lemma CeilUnique(x: real, n: int)
    requires x <= n as real < x + 1.0
    ensures n == Ceil(x)
  {
  }

  /** How many turns normalizeRotation takes off a heading difference d
      (a negative count is turns added). */
  function TurnsRemoved(d: real): (n: int)
    ensures d > PI ==> n >= 1
    ensures d < -PI ==> n <= -1
    ensures n == 0 <==> -PI <= d <= PI
  {
    if d > PI then Ceil((d - PI) / TAU)
    else if d < -PI then -Ceil((-PI - d) / TAU)
    else 0
  }

  /** The heading difference d moved by whole turns into [-PI, PI]: into
      (-PI, PI] when d starts above PI, into [-PI, PI) when it starts below
      -PI, and left alone when it is already in range. */
  function WrapDelta(d: real): (w: real)
    ensures -PI <= w <= PI
    ensures d > PI ==> -PI < w
    ensures d < -PI ==> w < PI
    ensures -PI <= d <= PI ==> w == d
  {
    d - Turns(TurnsRemoved(d))
  }

  /** Wrapping never changes the heading a difference stands for. */
  lemma WrapDeltaSameHeading(d: real)
    ensures SameHeading(WrapDelta(d), d)
  {
    assert WrapDelta(d) - d == Turns(-TurnsRemoved(d));
  }

  /** No whole number of turns but zero is shorter than one turn. */
  lemma ShorterThanATurn(j: int)
    requires -TAU < Turns(j) < TAU
    ensures j == 0
  {
  }

  /** Strictly inside (-PI, PI), a heading has exactly one representative, and
      it is the one WrapDelta picks. */
  lemma WrapDeltaUnique(d: real, w: real)
    requires -PI < w < PI
    requires SameHeading(w, d)
    ensures w == WrapDelta(d)
  {
    var k :| w - d == Turns(k);
    var j := k + TurnsRemoved(d);
    assert Turns(j) == Turns(k) + Turns(TurnsRemoved(d));
    ShorterThanATurn(j);
  }

  /** The example of a difference of three quarters of a turn: it is taken the
      short way round, as minus a quarter turn. */
  lemma ThreeQuarterTurnGoesBack()
    ensures WrapDelta(3.0 * PI / 2.0) == -PI / 2.0
  {
    CeilUnique((3.0 * PI / 2.0 - PI) / TAU, 1);
  }

  /** Whole turns taken off a difference above PI that land it in (-PI, PI]
      are exactly the turns WrapDelta takes off. */
  lemma TurnsTakenOff(d: real, n: int)
    requires d > PI
    requires -PI < d - Turns(n) <= PI
    ensures d - Turns(n) == WrapDelta(d)
  {
    CeilUnique((d - PI) / TAU, n);
  }

  /** Whole turns added to a difference below -PI that land it in [-PI, PI)
      are exactly the turns WrapDelta adds. */
  lemma TurnsAdded(d: real, n: int)
    requires d < -PI
    requires -PI <= d + Turns(n) < PI
    ensures d + Turns(n) == WrapDelta(d)
  {
    CeilUnique((-PI - d) / TAU, n);
  }

  /** normalizeRotation: the target heading moved by whole turns until it lies
      within half a turn of the current heading, by two loops that take off
      and then add full turns. */
  method NormalizeRotation(target: real, current: real) returns (r: real)
    ensures r == current + WrapDelta(target - current)
    ensures current - PI <= r <= current + PI
    ensures SameHeading(r, target)
    ensures -PI <= target - current <= PI ==> r == target
  {
    ghost var d := target - current;
    var diff := target - current;
    ghost var down := 0;
    while diff > PI
      invariant 0 <= down
      invariant diff == d - Turns(down)
      invariant 0 < down ==> -PI < diff
      decreases diff.Floor
    {
      diff := diff - 2.0 * PI;
      down := down + 1;
    }
    ghost var up := 0;
    while diff < -PI
      invariant 0 <= up
      invariant 0 < up ==> down == 0
      invariant diff == d - Turns(down) + Turns(up)
      invariant 0 < up ==> diff < PI
      decreases (-diff).Floor
    {
      diff := diff + 2.0 * PI;
      up := up + 1;
    }
    r := current + diff;

    if d > PI {
      TurnsTakenOff(d, down);
    } else if d < -PI {
      TurnsAdded(d, up);
    }
    WrapDeltaSameHeading(d);
  }
}
