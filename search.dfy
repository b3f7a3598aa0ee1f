/** The main section: initial population, then generations until the average fitness
    has matched the best average 30 times, with the controller's run state. */
module Search {
  import opened Outcomes
  import opened Candidates
  import opened Grading
  import opened Evolution

  /** The configured constants of the main section. */
  const PopSize: nat := 1500
  const XBounds: Bounds := Bounds(3.0, 10.0)
  const YBounds: Bounds := Bounds(4.0, 8.0)
  const StagnationLimit: nat := 30
  /** The default `retain` of `evolve` (select and mutate are folded into the draws). */
  const Retain: real := 0.2

  /** Both configured intervals satisfy the side condition of RandomPoint, so every
      candidate of a run stays in the box. */
  lemma ConfiguredBoundsAreClampSafe()
    ensures XBounds.ClampSafe() && YBounds.ClampSafe()
  {
  }

  /** With the configured `retain` a generation of at least 1500 candidates keeps at
      least `int(1500 * 0.2) == 300` of them, so `evolve` never meets an empty range. */
  lemma ConfiguredEvolutionNeverFails(pop: seq<Candidate>, fit: Candidate -> real, d: Draws)
    requires |pop| >= PopSize && Covers(d, |pop|)
    ensures Evolution.Evolution(pop, fit, XBounds, YBounds, Retain, d).Ok?
  {
    assert RetainLength(|pop|, Retain) >= 300;
    EvolutionFailsIff(pop, fit, XBounds, YBounds, Retain, d);
  }

  /** `pops` is a run of `evolve`: every population has n candidates, and pops[j + 1]
      is what `evolve` makes of pops[j] with the draws gens[j]. */
  predicate Evolves(pops: seq<seq<Candidate>>, fit: Candidate -> real, xb: Bounds, yb: Bounds, gens: seq<Draws>, n: nat)
    requires forall j :: 0 <= j < |gens| ==> Covers(gens[j], n)
  {
    && 0 < |pops| <= |gens| + 1
    && (forall j :: 0 <= j < |pops| ==> |pops[j]| == n)
    && forall j {:trigger Evolution.Evolution(pops[j], fit, xb, yb, Retain, gens[j])} :: 0 <= j < |pops| - 1 ==>
      Evolution.Evolution(pops[j], fit, xb, yb, Retain, gens[j]) == Ok(pops[j + 1])
  }

  /** A run extends by the population that `evolve` makes of its last one. */
  lemma EvolvesExtend(pops: seq<seq<Candidate>>, fit: Candidate -> real, xb: Bounds, yb: Bounds, gens: seq<Draws>, n: nat, next: seq<Candidate>)
    requires forall j :: 0 <= j < |gens| ==> Covers(gens[j], n)
    requires Evolves(pops, fit, xb, yb, gens, n) && |pops| <= |gens|
    requires Evolution.Evolution(pops[|pops| - 1], fit, xb, yb, Retain, gens[|pops| - 1]) == Ok(next)
    ensures Evolves(pops + [next], fit, xb, yb, gens, n)
  {
    var ext := pops + [next];
    forall j | 0 <= j < |ext| - 1
      ensures Evolution.Evolution(ext[j], fit, xb, yb, Retain, gens[j]) == Ok(ext[j + 1])
    {
      assert ext[j] == pops[j];
      if j < |pops| - 1 {
        assert ext[j + 1] == pops[j + 1];
        assert Evolution.Evolution(pops[j], fit, xb, yb, Retain, gens[j]) == Ok(pops[j + 1]);
      }
    }
  }

  /** Two runs that agree on population j agree on population j + 1. */
  lemma SameStep(p: seq<seq<Candidate>>, q: seq<seq<Candidate>>, fit: Candidate -> real, xb: Bounds, yb: Bounds, gens: seq<Draws>, n: nat, j: nat)
    requires forall j :: 0 <= j < |gens| ==> Covers(gens[j], n)
    requires Evolves(p, fit, xb, yb, gens, n) && Evolves(q, fit, xb, yb, gens, n)
    requires j + 1 < |p| && j + 1 < |q| && p[j] == q[j]
    ensures p[j + 1] == q[j + 1]
  {
    assert Evolution.Evolution(p[j], fit, xb, yb, Retain, gens[j]) == Ok(p[j + 1]);
    assert Evolution.Evolution(q[j], fit, xb, yb, Retain, gens[j]) == Ok(q[j + 1]);
  }

  /** A run is determined by its first population and the draws: two runs from the same
      population agree wherever both are defined. */
  lemma {:induction false} RunIsDetermined(p: seq<seq<Candidate>>, q: seq<seq<Candidate>>, fit: Candidate -> real, xb: Bounds, yb: Bounds, gens: seq<Draws>, n: nat, k: nat)
    requires forall j :: 0 <= j < |gens| ==> Covers(gens[j], n)
    requires Evolves(p, fit, xb, yb, gens, n) && Evolves(q, fit, xb, yb, gens, n)
    requires p[0] == q[0] && k < |p| && k < |q|
    ensures p[k] == q[k]
  {
    if k > 0 {
      RunIsDetermined(p, q, fit, xb, yb, gens, n, k - 1);
      SameStep(p, q, fit, xb, yb, gens, n, k - 1);
    }
  }

  /** The history of a run: the average fitness of each of its populations. */
  function Averages(pops: seq<seq<Candidate>>, fit: Candidate -> real): (h: seq<real>)
    requires forall j :: 0 <= j < |pops| ==> |pops[j]| > 0
    ensures |h| == |pops|
  {
    if pops == [] then []
    else
      var init := pops[..|pops| - 1];
      assert forall j :: 0 <= j < |init| ==> init[j] == pops[j];
      Averages(init, fit) + [Mean(pops[|pops| - 1], fit)]
  }

  /** Entry j of the history is the average fitness of population j. */
  lemma {:induction false} AveragesAreMeans(pops: seq<seq<Candidate>>, fit: Candidate -> real)
    requires forall j :: 0 <= j < |pops| ==> |pops[j]| > 0
    ensures forall j :: 0 <= j < |pops| ==> Averages(pops, fit)[j] == Mean(pops[j], fit)
  {
    if pops != [] {
      var init := pops[..|pops| - 1];
      assert forall j :: 0 <= j < |init| ==> init[j] == pops[j];
      AveragesAreMeans(init, fit);
    }
  }

  /** Extending a run by one population extends its history by that population's average. */
  lemma AveragesExtend(pops: seq<seq<Candidate>>, fit: Candidate -> real, next: seq<Candidate>)
    requires forall j :: 0 <= j < |pops| ==> |pops[j]| > 0
    requires |next| > 0
    ensures Averages(pops + [next], fit) == Averages(pops, fit) + [Mean(next, fit)]
  {
    assert (pops + [next])[..|pops|] == pops;
  }

  /** The largest value of a non-empty history. */
  function MaxOf(s: seq<real>): (m: real)
    requires |s| > 0
    ensures m in s
    ensures forall i :: 0 <= i < |s| ==> s[i] <= m
  {
    if |s| == 1 then s[0]
    else
      var m := MaxOf(s[..|s| - 1]);
      assert forall i :: 0 <= i < |s| - 1 ==> s[i] == s[..|s| - 1][i];
      if s[|s| - 1] > m then s[|s| - 1] else m
  }

  /** The number of entries of `s` equal to `v`. */
  function Occurrences(s: seq<real>, v: real): (k: nat)
    ensures k <= |s|
  {
    if s == [] then 0
    else Occurrences(s[..|s| - 1], v) + (if s[|s| - 1] == v then 1 else 0)
  }

  /** A value above every entry does not occur. */
  lemma {:induction false} OccurrencesAboveMax(s: seq<real>, v: real)
    requires forall i :: 0 <= i < |s| ==> s[i] < v
    ensures Occurrences(s, v) == 0
  {
    if s != [] {
      OccurrencesAboveMax(s[..|s| - 1], v);
    }
  }

  lemma AppendStep(s: seq<real>, g: real, v: real)
    requires |s| > 0
    ensures MaxOf(s + [g]) == if g > MaxOf(s) then g else MaxOf(s)
    ensures Occurrences(s + [g], v) == Occurrences(s, v) + (if g == v then 1 else 0)
  {
    assert (s + [g])[..|s|] == s;
  }

  /** The counter the controller holds after the history `h`: the number of entries
      after the first maximal one that equal the maximum. */
  function Stagnation(h: seq<real>): int
    requires |h| > 0
  {
    Occurrences(h, MaxOf(h)) - 1
  }

  /** The loop condition `fitnessCounter < 30` held after each of the first k entries
      of the history `h`. */
  predicate KeptRunning(h: seq<real>, k: nat)
    requires k <= |h|
  {
    forall n {:trigger Stagnation(h[..n])} :: 1 <= n <= k ==> Stagnation(h[..n]) < StagnationLimit
  }

  /** If the loop condition held after every prefix of a history, including the whole of
      it, it still did so in that history extended by one entry. */
  lemma StagnationOfPrefixes(h: seq<real>, v: real)
    requires |h| > 0 && KeptRunning(h, |h| - 1) && Stagnation(h) < StagnationLimit
    ensures KeptRunning(h, |h|) && KeptRunning(h + [v], |h|)
  {
    assert h[..|h|] == h;
    forall n | 1 <= n <= |h|
      ensures Stagnation((h + [v])[..n]) < StagnationLimit
    {
      assert (h + [v])[..n] == h[..n];
    }
  }

  /** The run state of the main loop. */
  class Controller {
    var generation: nat
    var bestFitness: real
    var fitnessCounter: nat
    var fitnessHistory: seq<real>

    /** One history entry per generation, including generation 0; bestFitness is the
        largest entry; fitnessCounter counts the entries after the first one that
        reached bestFitness which equal it exactly. */
    ghost predicate Valid()
      reads this
    {
      && |fitnessHistory| == generation + 1
      && bestFitness == MaxOf(fitnessHistory)
      && fitnessCounter + 1 == Occurrences(fitnessHistory, bestFitness)
    }

    /** Generation 0: the average fitness of the initial population. */
    constructor (genFitness: real)
      ensures Valid()
      ensures generation == 0 && bestFitness == genFitness && fitnessCounter == 0
      ensures fitnessHistory == [genFitness]
    {
      generation := 0;
      bestFitness := genFitness;
      fitnessCounter := 0;
      fitnessHistory := [genFitness];
      assert Occurrences([genFitness], genFitness) == Occurrences([], genFitness) + 1 by {
        assert [genFitness][..0] == [];
      }
    }

    /** Whether the loop `while fitnessCounter < 30` goes on. */
    predicate Running()
      reads this
    {
      fitnessCounter < StagnationLimit
    }

    /** One generation's bookkeeping, given that generation's average fitness: a strict
        improvement resets the counter, an exact repeat of the best increments it, a
        regression leaves it as it was. */
    method Tick(genFitness: real)
      requires Valid()
      modifies this
      ensures Valid()
      ensures generation == old(generation) + 1
      ensures fitnessHistory == old(fitnessHistory) + [genFitness]
      ensures bestFitness == if genFitness > old(bestFitness) then genFitness else old(bestFitness)
      ensures fitnessCounter ==
        if genFitness > old(bestFitness) then 0
        else if genFitness == old(bestFitness) then old(fitnessCounter) + 1
        else old(fitnessCounter)
      ensures old(bestFitness) <= bestFitness
    {
      AppendStep(fitnessHistory, genFitness, bestFitness);
      AppendStep(fitnessHistory, genFitness, genFitness);
      generation := generation + 1;
      if genFitness > bestFitness {
        OccurrencesAboveMax(fitnessHistory, genFitness);
        bestFitness := genFitness;
        fitnessCounter := 0;
      } else if genFitness == bestFitness {
        fitnessCounter := fitnessCounter + 1;
      }
      fitnessHistory := fitnessHistory + [genFitness];
    }
  }

  /** In every valid state the counter is bounded by the generation number. */
  lemma CounterBelowGeneration(c: Controller)
    requires c.Valid()
    ensures c.fitnessCounter <= c.generation
  {
  }

  /** `pops` is a run of `evolve` whose last population meets an empty range in `evolve`
      with its draws. */
  predicate Fails(pops: seq<seq<Candidate>>, fit: Candidate -> real, xb: Bounds, yb: Bounds, gens: seq<Draws>, n: nat)
    requires forall j :: 0 <= j < |gens| ==> Covers(gens[j], n)
  {
    && Evolves(pops, fit, xb, yb, gens, n) && |pops| <= |gens|
    && forall j {:trigger Evolution.Evolution(pops[j], fit, xb, yb, Retain, gens[j])} :: j == |pops| - 1 ==>
      Evolution.Evolution(pops[j], fit, xb, yb, Retain, gens[j]).Err?
  }

  /** The controller `c` has followed the run `pops` of populations of n candidates: one
      history entry per population, each the population's average fitness, and the loop
      condition held after every generation before the current one. */
  ghost predicate Tracks(c: Controller, pops: seq<seq<Candidate>>, fit: Candidate -> real, xb: Bounds, yb: Bounds, gens: seq<Draws>, n: nat)
    requires forall j :: 0 <= j < |gens| ==> Covers(gens[j], n)
    reads c
  {
    && n > 0 && c.Valid() && Evolves(pops, fit, xb, yb, gens, n) && |pops| == c.generation + 1
    && c.fitnessHistory == Averages(pops, fit)
    && KeptRunning(c.fitnessHistory, c.generation)
  }

  /** One pass of the main loop on the run `pops` so far: `evolve` its last population
      `pop` with the next draws, then grade the new population and tick the controller.
      A failing `evolve` leaves the controller as it was. */
  method Step(c: Controller, ghost pops: seq<seq<Candidate>>, pop: seq<Candidate>, fit: Candidate -> real, xb: Bounds, yb: Bounds, gens: seq<Draws>)
    returns (next: Result<seq<Candidate>>)
    requires forall j :: 0 <= j < |gens| ==> Covers(gens[j], |pop|)
    requires Tracks(c, pops, fit, xb, yb, gens, |pop|) && pops[c.generation] == pop
    requires c.Running() && c.generation < |gens|
    modifies c
    ensures next.Err? ==>
      && next.error == EmptyRange && unchanged(c)
      && Fails(pops, fit, xb, yb, gens, |pop|) && KeptRunning(Averages(pops, fit), |pops|)
    ensures next.Ok? ==>
      && |next.value| == |pop| && Tracks(c, pops + [next.value], fit, xb, yb, gens, |pop|)
      && c.generation == old(c.generation) + 1
      && c.fitnessHistory == old(c.fitnessHistory) + [Mean(next.value, fit)]
    ensures next.Ok? && xb.ClampSafe() && yb.ClampSafe() && (forall i :: 0 <= i < |pop| ==> InBox(pop[i], xb, yb)) ==>
      forall i :: 0 <= i < |next.value| ==> InBox(next.value[i], xb, yb)
  {
    ghost var before := c.fitnessHistory;
    assert Stagnation(before) == c.fitnessCounter;
    var d := gens[c.generation];
    next := Evolve(pop, fit, xb, yb, Retain, d);
    if next.Err? {
      StagnationOfPrefixes(before, 0.0);
      return;
    }
    EvolvesExtend(pops, fit, xb, yb, gens, |pop|, next.value);
    StagnationOfPrefixes(before, Mean(next.value, fit));
    AveragesExtend(pops, fit, next.value);
    if xb.ClampSafe() && yb.ClampSafe() && forall i :: 0 <= i < |pop| ==> InBox(pop[i], xb, yb) {
      EvolutionStaysInBox(pop, fit, xb, yb, Retain, d);
    }
    var genFitness := Grade(next.value, fit);
    c.Tick(genFitness.value);
  }

  /** What the run reports: generation count, the first candidate of the final
      population, the last history entry, and the controller's state. */
  datatype Report = Report(
    generation: nat,
    best: Candidate,
    finalFitness: real,
    bestFitness: real,
    fitnessCounter: nat,
    history: seq<real>)

  /** The main section with explicit draws: `seeds` for the initial population and
      gens[k] for generation k + 1. The loop stops when the counter reaches 30 or
      when the draws run out. The ghost result `pops` is the sequence of populations
      the run went through. */
  method Run(popSize: nat, fit: Candidate -> real, xb: Bounds, yb: Bounds, seeds: seq<(real, real)>, gens: seq<Draws>)
    returns (r: Result<Report>, ghost pops: seq<seq<Candidate>>)
    requires |seeds| == popSize && UnitDraws(seeds)
    requires forall k :: 0 <= k < |gens| ==> Covers(gens[k], popSize)
    ensures r == Err(ZeroDivision) <==> popSize == 0
    ensures r.Ok? ==>
      && |r.value.history| == r.value.generation + 1
      && r.value.generation <= |gens|
      && (r.value.fitnessCounter >= StagnationLimit || r.value.generation == |gens|)
      && r.value.finalFitness == r.value.history[r.value.generation]
      && r.value.bestFitness == MaxOf(r.value.history)
      && r.value.fitnessCounter + 1 == Occurrences(r.value.history, r.value.bestFitness)
    ensures r.Ok? && xb.ClampSafe() && yb.ClampSafe() ==> InBox(r.value.best, xb, yb)
    ensures popSize > 0 ==> Evolves(pops, fit, xb, yb, gens, popSize) && pops[0] == Population(popSize, xb, yb, seeds)
    ensures r.Ok? ==>
      && |pops| == r.value.generation + 1
      && r.value.best == pops[r.value.generation][0]
      && r.value.history == Averages(pops, fit)
      && KeptRunning(r.value.history, r.value.generation)
      && Stagnation(r.value.history) == r.value.fitnessCounter
    ensures r.Err? && popSize > 0 ==>
      && r.error == EmptyRange
      && Fails(pops, fit, xb, yb, gens, popSize)
      && KeptRunning(Averages(pops, fit), |pops|)
  {
    var pop := Population(popSize, xb, yb, seeds);
    pops := [pop];
    var genFitness := Grade(pop, fit);
    if genFitness.Err? {
      return Err(genFitness.error), pops;
    }
    var c := new Controller(genFitness.value);
    while c.Running() && c.generation < |gens|
      invariant |pop| == popSize > 0 && c.generation <= |gens|
      invariant Tracks(c, pops, fit, xb, yb, gens, popSize) && pops[c.generation] == pop
      invariant pops[0] == Population(popSize, xb, yb, seeds)
      invariant xb.ClampSafe() && yb.ClampSafe() ==> forall i :: 0 <= i < |pop| ==> InBox(pop[i], xb, yb)
      decreases |gens| - c.generation
    {
      var next := Step(c, pops, pop, fit, xb, yb, gens);
      if next.Err? {
        return Err(next.error), pops;
      }
      pops := pops + [next.value];
      pop := next.value;
    }
    assert Stagnation(c.fitnessHistory) == c.fitnessCounter;
    r := Ok(Report(c.generation, pop[0], c.fitnessHistory[c.generation], c.bestFitness, c.fitnessCounter, c.fitnessHistory));
  }
}
