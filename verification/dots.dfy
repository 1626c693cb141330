/** The wheel of dots: one button per period placed around a circle. The
    active dot always sits at 30 degrees and the others follow at equal
    steps of `360 / N` degrees, so changing the period turns the wheel.
    Every dot shows its 1-based ordinal; only the active dot also shows the
    active period's title. Angles are exact `real`s here. */
module Dots {
  import opened Periods

  /** What one dot button renders. */
  datatype Dot = Dot(ordinal: nat, angle: real, active: bool, caption: Option<string>)

  /** The angle, in degrees, of dot `i` when `active` is selected among `n`
      dots: `30 + (i - active) * (360 / n)`, not reduced modulo 360. */
  function Angle(i: nat, active: nat, n: nat): (r: real)
    requires n >= 1
    ensures i == active ==> r == 30.0
    ensures i > active ==> r > 30.0
    ensures i < active ==> r < 30.0
  {
    30.0 + ((i as int - active as int) as real) * (360.0 / (n as real))
  }

  /** The button for period `i` while `active` is selected. */
  function DotAt(ps: Timeline, active: nat, i: nat): (d: Dot)
    requires active < |ps| && i < |ps|
    ensures d.ordinal == i + 1
    ensures d.active <==> i == active
    ensures d.active <==> d.angle == 30.0
    ensures d.caption.Some? <==> d.active
    ensures d.caption.Some? ==> d.caption.value == ps[i].title
  {
    Dot(i + 1, Angle(i, active, |ps|), active == i,
        if active == i then Some(ps[active].title) else None)
  }

  /** The whole wheel, one dot per period, in period order. */
  function Wheel(ps: Timeline, active: nat): (ds: seq<Dot>)
    requires active < |ps|
    ensures |ds| == |ps|
    ensures forall i :: 0 <= i < |ds| ==> ds[i].ordinal == i + 1
    ensures forall i :: 0 <= i < |ds| ==> (ds[i].active <==> i == active)
    ensures forall i :: 0 <= i < |ds| ==> (ds[i].caption.Some? <==> ds[i].active)
    ensures forall i :: 0 <= i < |ds| && ds[i].caption.Some? ==> ds[i].caption.value == ps[i].title
  {
    seq(|ps|, i requires 0 <= i < |ps| => DotAt(ps, active, i))
  }

  /** The indices of the dots drawn as active. */
  function ActiveDots(ds: seq<Dot>): (active: set<nat>)
  {
    set i: nat | i < |ds| && ds[i].active
  }

  /** Exactly one dot is active, the selected one. */
  lemma ExactlyOneActive(ps: Timeline, active: nat)
    requires active < |ps|
    ensures ActiveDots(Wheel(ps, active)) == {active}
    ensures |ActiveDots(Wheel(ps, active))| == 1
  {
  }

  /** The active dot sits at exactly 30 degrees. */
  lemma ActiveDotAtThirty(ps: Timeline, active: nat)
    requires active < |ps|
    ensures Wheel(ps, active)[active].angle == 30.0
  {
  }

  /** Neighbouring dots are exactly `360 / N` degrees apart. */
  lemma EvenSpacing(ps: Timeline, active: nat, i: nat)
    requires active < |ps| && i + 1 < |ps|
    ensures Wheel(ps, active)[i + 1].angle - Wheel(ps, active)[i].angle == 360.0 / (|ps| as real)
  {
  }

  /** Selecting `b` instead of `a` turns the whole wheel by
      `(a - b) * 360 / N` degrees: every dot moves by the same amount. */
  lemma WheelTurns(ps: Timeline, a: nat, b: nat, i: nat)
    requires a < |ps| && b < |ps| && i < |ps|
    ensures Wheel(ps, b)[i].angle
      == Wheel(ps, a)[i].angle + ((a as int - b as int) as real) * (360.0 / (|ps| as real))
  {
  }

  /** No two dots share a place on the circle: their angles never differ by
      a whole number of turns. */
  lemma DistinctPlaces(ps: Timeline, active: nat, i: nat, j: nat, turns: int)
    requires active < |ps| && i < |ps| && j < |ps| && i != j
    ensures Wheel(ps, active)[i].angle - Wheel(ps, active)[j].angle != 360.0 * (turns as real)
  {
    var n := |ps| as real;
    var d := i as int - j as int;
    var ds := Wheel(ps, active);
    var diff := ds[i].angle - ds[j].angle;
    assert diff == (d as real) * (360.0 / n);
    assert (360.0 / n) * n == 360.0;
    assert diff * n == (d * 360) as real;
    NotWholeTurns(d, |ps|, turns);
    assert (360.0 * (turns as real)) * n == (360 * turns * |ps|) as real;
  }

  /** A nonzero offset smaller than a full round of `n` dots is not a whole
      number of turns. */
  lemma NotWholeTurns(d: int, n: int, turns: int)
    requires -n < d < n && d != 0
    ensures d * 360 != 360 * turns * n
  {
  }
}
