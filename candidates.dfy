/** Candidate generation: random coordinates, individuals and initial populations.
    Every uniform draw of `random.random()` is an explicit argument `u` with 0 <= u < 1. */
module Candidates {

  /** A point [x, y] of the search space. */
  datatype Candidate = Candidate(x: real, y: real)

  /** The configured closed interval [lo, hi] of one coordinate. */
  datatype Bounds = Bounds(lo: real, hi: real) {

    predicate Contains(v: real) {
      lo <= v <= hi
    }

    /** The side condition under which RandomPoint never leaves [lo, hi]:
        both configured intervals, [3, 10] and [4, 8], meet it. */
    predicate ClampSafe() {
      0.0 <= hi && 2.0 * lo <= hi
    }
  }

  predicate InBox(c: Candidate, xb: Bounds, yb: Bounds) {
    xb.Contains(c.x) && yb.Contains(c.y)
  }

  predicate UnitDraw(u: real) {
    0.0 <= u < 1.0
  }

  lemma ProductIsNonNegative(a: real, b: real)
    requires 0.0 <= a && 0.0 <= b
    ensures 0.0 <= a * b
  {
  }

  /** One coordinate drawn as `u * hi + 1`, shifted up by `lo` when it falls below `lo`
      and clamped to `hi` when it lies above `hi`. */
  function RandomPoint(lo: real, hi: real, u: real): (r: real)
    requires UnitDraw(u)
    ensures lo <= u * hi + 1.0 <= hi ==> r == u * hi + 1.0
    ensures u * hi + 1.0 > hi && lo <= u * hi + 1.0 ==> r == hi
    ensures u * hi + 1.0 < lo ==> r == u * hi + 1.0 + lo
    ensures 0.0 <= hi && lo <= hi ==> lo <= r
    ensures 2.0 * lo <= hi ==> r <= hi
  {
    var num := u * hi + 1.0;
    assert 0.0 <= hi ==> 0.0 <= u * hi by {
      if 0.0 <= hi { ProductIsNonNegative(u, hi); }
    }
    if num < lo then num + lo
    else if num > hi then hi
    else num
  }

  /** The upper bound of RandomPoint really needs 2 * lo <= hi: for every interval with
      2 <= hi < 2 * lo some draw lands above hi (for instance lo = 5, hi = 6, u = 0.5 gives 9). */
  lemma RandomPointOvershoots(lo: real, hi: real)
    requires 2.0 <= hi && lo <= hi < 2.0 * lo
    ensures UnitDraw((hi / 2.0 - 1.0) / hi)
    ensures RandomPoint(lo, hi, (hi / 2.0 - 1.0) / hi) > hi
  {
    var u := (hi / 2.0 - 1.0) / hi;
    assert u * hi == hi / 2.0 - 1.0;
    assert u < 1.0 by {
      assert hi / 2.0 - 1.0 < hi;
    }
  }

  /** An individual [randomPoint(xMin, xMax), randomPoint(yMin, yMax)]. */
  function Individual(xb: Bounds, yb: Bounds, ux: real, uy: real): (c: Candidate)
    requires UnitDraw(ux) && UnitDraw(uy)
    ensures xb.ClampSafe() && yb.ClampSafe() ==> InBox(c, xb, yb)
    ensures c.x == RandomPoint(xb.lo, xb.hi, ux) && c.y == RandomPoint(yb.lo, yb.hi, uy)
  {
    Candidate(RandomPoint(xb.lo, xb.hi, ux), RandomPoint(yb.lo, yb.hi, uy))
  }

  predicate UnitDraws(us: seq<(real, real)>) {
    forall i :: 0 <= i < |us| ==> UnitDraw(us[i].0) && UnitDraw(us[i].1)
  }

  /** `popSize` independently drawn individuals, individual i from the draw pair us[i]. */
  function Population(popSize: nat, xb: Bounds, yb: Bounds, us: seq<(real, real)>): (pop: seq<Candidate>)
    requires |us| == popSize && UnitDraws(us)
    ensures |pop| == popSize
    ensures forall i :: 0 <= i < popSize ==> pop[i] == Individual(xb, yb, us[i].0, us[i].1)
    ensures xb.ClampSafe() && yb.ClampSafe() ==> forall i :: 0 <= i < popSize ==> InBox(pop[i], xb, yb)
  {
    seq(popSize, i requires 0 <= i < popSize => Individual(xb, yb, us[i].0, us[i].1))
  }
}
