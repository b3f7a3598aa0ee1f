/** Average fitness of a population. The objective itself (a sine of a logarithm in
    floating point) is the uninterpreted argument `fit`. */
module Grading {
  import opened Outcomes
  import opened Candidates

  /** Sum of fitness over `pop`, accumulated front to back. */
  function SumFitness(pop: seq<Candidate>, fit: Candidate -> real): real {
    if pop == [] then 0.0 else SumFitness(pop[..|pop| - 1], fit) + fit(pop[|pop| - 1])
  }

  function MinFitness(pop: seq<Candidate>, fit: Candidate -> real): (m: real)
    requires |pop| > 0
    ensures forall i :: 0 <= i < |pop| ==> m <= fit(pop[i])
    ensures exists i :: 0 <= i < |pop| && m == fit(pop[i])
  {
    if |pop| == 1 then fit(pop[0])
    else
      var rest := MinFitness(pop[1..], fit);
      assert forall i :: 1 <= i < |pop| ==> pop[i] == pop[1..][i - 1];
      if fit(pop[0]) <= rest then fit(pop[0]) else rest
  }

  function MaxFitness(pop: seq<Candidate>, fit: Candidate -> real): (m: real)
    requires |pop| > 0
    ensures forall i :: 0 <= i < |pop| ==> fit(pop[i]) <= m
    ensures exists i :: 0 <= i < |pop| && m == fit(pop[i])
  {
    if |pop| == 1 then fit(pop[0])
    else
      var rest := MaxFitness(pop[1..], fit);
      assert forall i :: 1 <= i < |pop| ==> pop[i] == pop[1..][i - 1];
      if fit(pop[0]) >= rest then fit(pop[0]) else rest
  }

  /** A sum of |pop| values, each in [lo, hi], lies in [|pop| * lo, |pop| * hi]. */
  lemma {:induction false} SumFitnessBetween(pop: seq<Candidate>, fit: Candidate -> real, lo: real, hi: real)
    requires forall i :: 0 <= i < |pop| ==> lo <= fit(pop[i]) <= hi
    ensures |pop| as real * lo <= SumFitness(pop, fit) <= |pop| as real * hi
  {
    if pop != [] {
      var init := pop[..|pop| - 1];
      assert forall i :: 0 <= i < |init| ==> init[i] == pop[i];
      SumFitnessBetween(init, fit, lo, hi);
      assert |pop| as real * lo == |init| as real * lo + lo;
      assert |pop| as real * hi == |init| as real * hi + hi;
    }
  }

  /** Dividing n * lo <= s <= n * hi by a positive n. */
  lemma QuotientBetween(n: real, s: real, lo: real, hi: real)
    requires n > 0.0 && n * lo <= s <= n * hi
    ensures lo <= s / n <= hi
  {
    var q := s / n;
    assert q * n == s;
    assert (q - lo) * n >= 0.0;
    assert (hi - q) * n >= 0.0;
  }

  /** The average of values that all lie in [lo, hi] lies in [lo, hi]. */
  lemma AverageBetween(pop: seq<Candidate>, fit: Candidate -> real, lo: real, hi: real)
    requires |pop| > 0 && forall i :: 0 <= i < |pop| ==> lo <= fit(pop[i]) <= hi
    ensures lo <= SumFitness(pop, fit) / |pop| as real <= hi
  {
    SumFitnessBetween(pop, fit, lo, hi);
    QuotientBetween(|pop| as real, SumFitness(pop, fit), lo, hi);
  }

  /** The average fitness of a non-empty population; it lies between the smallest and
      the largest fitness found in the population. */
  function Mean(pop: seq<Candidate>, fit: Candidate -> real): (m: real)
    requires |pop| > 0
    ensures MinFitness(pop, fit) <= m <= MaxFitness(pop, fit)
  {
    AverageBetween(pop, fit, MinFitness(pop, fit), MaxFitness(pop, fit));
    SumFitness(pop, fit) / |pop| as real
  }

  /** `grade`: the loop sums the fitness of every candidate, then divides by the size;
      an empty population raises ZeroDivisionError. */
  method Grade(pop: seq<Candidate>, fit: Candidate -> real) returns (r: Result<real>)
    ensures |pop| == 0 <==> r == Err(ZeroDivision)
    ensures |pop| > 0 ==> r == Ok(SumFitness(pop, fit) / |pop| as real) && r.value == Mean(pop, fit)
  {
    var summed := 0.0;
    for i := 0 to |pop|
      invariant summed == SumFitness(pop[..i], fit)
    {
      assert pop[..i + 1][..i] == pop[..i];
      summed := summed + fit(pop[i]);
    }
    assert pop[..|pop|] == pop;
    if |pop| == 0 {
      return Err(ZeroDivision);
    }
    r := Ok(summed / (|pop| as real * 1.0));
  }
}
