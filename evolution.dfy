/** One generation of `evolve`: rank, keep two elite parents, retain the next
    int(len * retain) candidates, add further candidates by a per-candidate choice,
    mutate retained candidates in place, and breed children by midpoint crossover. */
module Evolution {
  import opened Outcomes
  import opened Candidates
  import opened Ranking

  /** The random choices of one generation, made explicit.
      keep[i]      : whether ranked candidate i (past the retained block) is added (`select > random()`)
      mutate[j]    : whether retained candidate j is mutated (`mutate > random()`)
      position[j]  : the draw of `randint(0, 1)`, taken modulo 2
      redraw[j]    : the uniform draw of the `randomPoint` call of that mutation
      picks[k]     : the retained and parent draws of child k, taken modulo the list sizes */
  datatype Pick = Pick(retainedDraw: nat, parentDraw: nat)

  datatype Draws = Draws(keep: seq<bool>, mutate: seq<bool>, position: seq<nat>, redraw: seq<real>, picks: seq<Pick>)

  /** Enough draws for a population of n candidates (no step draws more than n times). */
  predicate Covers(d: Draws, n: nat) {
    && |d.keep| >= n && |d.mutate| >= n && |d.position| >= n && |d.redraw| >= n && |d.picks| >= n
    && forall j :: 0 <= j < |d.redraw| ==> UnitDraw(d.redraw[j])
  }

  /** `int(len(graded) * retain)`: truncation, which is the floor for a non-negative product. */
  function RetainLength(n: nat, retain: real): (k: nat)
    requires 0.0 <= retain
    ensures k as real <= n as real * retain < k as real + 1.0
  {
    assert 0.0 <= n as real * retain;
    (n as real * retain).Floor
  }

  /** End of `graded[:2]` and of `graded[2:retainLength + 2]` after Python's slice clipping. */
  function EliteEnd(n: nat): (e: nat)
    ensures e <= 2 && e <= n && (e == 2 || e == n)
  {
    if n < 2 then n else 2
  }

  function RetainEnd(n: nat, retainLength: nat): (c: nat)
    ensures EliteEnd(n) <= c <= n && c <= 2 + retainLength
    ensures c == 2 + retainLength || c == n
  {
    if 2 + retainLength < n then 2 + retainLength else n
  }

  /** The indices i in [lo, hi) with keep[i], in increasing order. */
  function Kept(keep: seq<bool>, lo: nat, hi: nat): (idx: seq<nat>)
    requires lo <= hi <= |keep|
    ensures |idx| <= hi - lo
    ensures forall k :: 0 <= k < |idx| ==> lo <= idx[k] < hi && keep[idx[k]]
    ensures forall k, l :: 0 <= k < l < |idx| ==> idx[k] < idx[l]
    ensures forall i :: lo <= i < hi && keep[i] ==> i in idx
    decreases hi
  {
    if hi == lo then [] else Kept(keep, lo, hi - 1) + (if keep[hi - 1] then [hi - 1] else [])
  }

  /** The candidates of `s` at the indices `idx`, in that order. */
  function Gather(s: seq<Candidate>, idx: seq<nat>): (r: seq<Candidate>)
    requires forall k :: 0 <= k < |idx| ==> idx[k] < |s|
    ensures |r| == |idx|
    ensures forall k :: 0 <= k < |idx| ==> r[k] == s[idx[k]]
  {
    seq(|idx|, k requires 0 <= k < |idx| => s[idx[k]])
  }

  function Range(lo: nat, hi: nat): (idx: seq<nat>)
    requires lo <= hi
    ensures |idx| == hi - lo && forall k :: 0 <= k < |idx| ==> idx[k] == lo + k
  {
    seq(hi - lo, k requires 0 <= k < hi - lo => lo + k)
  }

  /** The ranked positions that end up in `retained`: the block [2, 2 + retainLength)
      followed by the positions chosen by `keep`. */
  function RetainedIndices(n: nat, retainLength: nat, keep: seq<bool>): (idx: seq<nat>)
    requires |keep| >= n
    ensures forall k :: 0 <= k < |idx| ==> EliteEnd(n) <= idx[k] < n
    ensures forall k, l :: 0 <= k < l < |idx| ==> idx[k] < idx[l]
  {
    Range(EliteEnd(n), RetainEnd(n, retainLength)) + Kept(keep, RetainEnd(n, retainLength), n)
  }

  /** `retained` before mutation: the slice `ranked[2:retainLength + 2]` extended by
      the candidates of `ranked[retainLength + 2:]` whose keep draw is true. */
  function Selected(ranked: seq<Candidate>, retainLength: nat, keep: seq<bool>): (sel: seq<Candidate>)
    requires |keep| >= |ranked|
    ensures |sel| <= |ranked| - EliteEnd(|ranked|)
    ensures forall j :: 0 <= j < |sel| ==> sel[j] in ranked[EliteEnd(|ranked|)..]
  {
    var n := |ranked|;
    var c := RetainEnd(n, retainLength);
    var kept := Kept(keep, c, n);
    var sel := ranked[EliteEnd(n)..c] + Gather(ranked, kept);
    forall j | 0 <= j < |sel| ensures sel[j] in ranked[EliteEnd(n)..] {
      if j < c - EliteEnd(n) {
        assert sel[j] == ranked[EliteEnd(n)..][j];
      } else {
        var i := kept[j - (c - EliteEnd(n))];
        assert sel[j] == ranked[EliteEnd(n)..][i - EliteEnd(n)];
      }
    }
    sel
  }

  /** `retained` is an order-preserving choice of ranked positions at or past the
      elite block, so it never contains a parent's position. */
  lemma SelectedIsOrderedSubsequence(ranked: seq<Candidate>, retainLength: nat, keep: seq<bool>)
    requires |keep| >= |ranked|
    ensures Selected(ranked, retainLength, keep) == Gather(ranked, RetainedIndices(|ranked|, retainLength, keep))
  {
    var n := |ranked|;
    var e, c := EliteEnd(n), RetainEnd(n, retainLength);
    var sel := Selected(ranked, retainLength, keep);
    var idx := RetainedIndices(n, retainLength, keep);
    assert |sel| == |idx|;
    forall k | 0 <= k < |sel| ensures sel[k] == ranked[idx[k]] {
      if k < c - e {
        assert idx[k] == e + k;
      }
    }
  }

  /** Mutation of one candidate: position 0 redraws x within the x bounds, any
      other position redraws y within the y bounds. */
  function MutateOne(c: Candidate, position: nat, u: real, xb: Bounds, yb: Bounds): (m: Candidate)
    requires UnitDraw(u)
    ensures position % 2 == 0 ==> m.y == c.y && m.x == RandomPoint(xb.lo, xb.hi, u)
    ensures position % 2 == 1 ==> m.x == c.x && m.y == RandomPoint(yb.lo, yb.hi, u)
    ensures m.x == c.x || m.y == c.y
    ensures InBox(c, xb, yb) && xb.ClampSafe() && yb.ClampSafe() ==> InBox(m, xb, yb)
  {
    if position % 2 == 0 then c.(x := RandomPoint(xb.lo, xb.hi, u))
    else c.(y := RandomPoint(yb.lo, yb.hi, u))
  }

  /** `retained` after the mutation loop. */
  function Mutated(sel: seq<Candidate>, d: Draws, xb: Bounds, yb: Bounds): (m: seq<Candidate>)
    requires Covers(d, |sel|)
    ensures |m| == |sel|
    ensures forall j :: 0 <= j < |sel| && !d.mutate[j] ==> m[j] == sel[j]
    ensures forall j :: 0 <= j < |sel| && d.mutate[j] ==> m[j] == MutateOne(sel[j], d.position[j], d.redraw[j], xb, yb)
    ensures forall j :: 0 <= j < |sel| ==> m[j].x == sel[j].x || m[j].y == sel[j].y
  {
    seq(|sel|, j requires 0 <= j < |sel| =>
      if d.mutate[j] then MutateOne(sel[j], d.position[j], d.redraw[j], xb, yb) else sel[j])
  }

  function Genes(c: Candidate): seq<real> {
    [c.x, c.y]
  }

  function FromGenes(g: seq<real>): Candidate
    requires |g| == 2
  {
    Candidate(g[0], g[1])
  }

  /** Crossover of a retained candidate with parent `slot`, split at `half = int(2 / 2)`:
      `r[:half] + parent[half:]` for slot 0, `parent[:half] + r[half:]` otherwise. */
  function Cross(r: Candidate, parents: seq<Candidate>, slot: nat): (child: Candidate)
    requires |parents| == 2 && slot < 2
    ensures slot == 0 ==> child == Candidate(r.x, parents[0].y)
    ensures slot == 1 ==> child == Candidate(parents[1].x, r.y)
  {
    var half := |Genes(r)| / 2;
    var parent := parents[slot];
    if slot == 0 then FromGenes(Genes(r)[..half] + Genes(parent)[half..])
    else FromGenes(Genes(parent)[..half] + Genes(r)[half..])
  }

  /** The first `count` children bred from the draws `picks`. */
  function Children(parents: seq<Candidate>, retained: seq<Candidate>, picks: seq<Pick>, count: nat): (kids: seq<Candidate>)
    requires count <= |picks|
    requires count > 0 ==> |parents| == 2 && |retained| > 0
    ensures |kids| == count
    ensures count > 0 ==> forall k :: 0 <= k < count ==> Inherits(kids[k], parents, retained)
  {
    var kids := seq(count, k requires 0 <= k < count =>
      Cross(retained[picks[k].retainedDraw % |retained|], parents, picks[k].parentDraw % 2));
    assert count > 0 ==> forall k :: 0 <= k < count ==> Inherits(kids[k], parents, retained) by {
      if count > 0 {
        forall k | 0 <= k < count ensures Inherits(kids[k], parents, retained) {
          var j := picks[k].retainedDraw % |retained|;
          assert kids[k] == Cross(retained[j], parents, picks[k].parentDraw % 2);
        }
      }
    }
    kids
  }

  /** `kid` is [r.x, parents[0].y] or [parents[1].x, r.y] for some r of `retained`. */
  predicate Inherits(kid: Candidate, parents: seq<Candidate>, retained: seq<Candidate>)
    requires |parents| == 2
  {
    exists j :: 0 <= j < |retained| &&
      ((kid.x == retained[j].x && kid.y == parents[0].y) || (kid.x == parents[1].x && kid.y == retained[j].y))
  }

  /** Every child takes one coordinate from a retained candidate and the other from
      a parent; it lies in the box when they do. */
  lemma ChildrenInherit(parents: seq<Candidate>, retained: seq<Candidate>, picks: seq<Pick>, count: nat, xb: Bounds, yb: Bounds)
    requires count <= |picks|
    requires count > 0 ==> |parents| == 2 && |retained| > 0
    ensures forall k :: 0 <= k < count ==> Inherits(Children(parents, retained, picks, count)[k], parents, retained)
    ensures (forall c :: c in parents + retained ==> InBox(c, xb, yb)) ==>
      forall k :: 0 <= k < count ==> InBox(Children(parents, retained, picks, count)[k], xb, yb)
  {
    var kids := Children(parents, retained, picks, count);
    forall k | 0 <= k < count ensures Inherits(kids[k], parents, retained) {
      var j := picks[k].retainedDraw % |retained|;
      assert kids[k] == Cross(retained[j], parents, picks[k].parentDraw % 2);
    }
    if forall c :: c in parents + retained ==> InBox(c, xb, yb) {
      forall k | 0 <= k < count ensures InBox(kids[k], xb, yb) {
        var j := picks[k].retainedDraw % |retained|;
        assert retained[j] in parents + retained;
        assert parents[0] in parents + retained && parents[1] in parents + retained;
      }
    }
  }

  /** `parents + retained + children`, where `len(pop) - len(parents) - len(retained)`
      children are bred; breeding from an empty `retained` raises. */
  function Assemble(n: nat, parents: seq<Candidate>, retained: seq<Candidate>, picks: seq<Pick>): (r: Result<seq<Candidate>>)
    requires |picks| >= n && |parents| == EliteEnd(n) && |parents| + |retained| <= n
    ensures r.Ok? ==> |r.value| == n && r.value[..|parents|] == parents
    ensures r.Err? ==> r.error == EmptyRange
  {
    var desired := n - |parents| - |retained|;
    if desired > 0 && |retained| == 0 then Err(EmptyRange)
    else Ok(parents + retained + Children(parents, retained, picks, desired))
  }

  /** Assembly fills the population up to exactly n candidates, fails exactly when
      children are needed and `retained` is empty, keeps `parents` at the front, and
      stays in the box when parents and retained candidates do. */
  lemma AssembleProperties(n: nat, parents: seq<Candidate>, retained: seq<Candidate>, picks: seq<Pick>, xb: Bounds, yb: Bounds)
    requires |picks| >= n && |parents| == EliteEnd(n) && |parents| + |retained| <= n
    ensures Assemble(n, parents, retained, picks).Err? <==> |retained| == 0 && n > 2
    ensures Assemble(n, parents, retained, picks).Ok? ==>
      var next := Assemble(n, parents, retained, picks).value;
      |next| == n && next[..|parents|] == parents && next[|parents|..|parents| + |retained|] == retained
    ensures Assemble(n, parents, retained, picks).Ok? && (forall c :: c in parents + retained ==> InBox(c, xb, yb)) ==>
      forall i :: 0 <= i < n ==> InBox(Assemble(n, parents, retained, picks).value[i], xb, yb)
  {
    var desired := n - |parents| - |retained|;
    if !(desired > 0 && |retained| == 0) {
      var kids := Children(parents, retained, picks, desired);
      ChildrenInherit(parents, retained, picks, desired, xb, yb);
      var next := parents + retained + kids;
      if forall c :: c in parents + retained ==> InBox(c, xb, yb) {
        forall i | 0 <= i < n ensures InBox(next[i], xb, yb) {
          if i < |parents| + |retained| {
            assert next[i] == (parents + retained)[i];
          } else {
            assert next[i] == kids[i - |parents| - |retained|];
          }
        }
      }
    }
  }

  /** `retained` before mutation has at most n - EliteEnd(n) candidates. */
  lemma SelectedLength(ranked: seq<Candidate>, retainLength: nat, keep: seq<bool>)
    requires |keep| >= |ranked|
    ensures |Selected(ranked, retainLength, keep)| <= |ranked| - EliteEnd(|ranked|)
    ensures |Selected(ranked, retainLength, keep)| == 0 <==>
      RetainEnd(|ranked|, retainLength) == EliteEnd(|ranked|) && forall i :: EliteEnd(|ranked|) <= i < |ranked| ==> !keep[i]
  {
    var n := |ranked|;
    var e, c := EliteEnd(n), RetainEnd(n, retainLength);
    var kept := Kept(keep, c, n);
    assert |Selected(ranked, retainLength, keep)| == (c - e) + |kept|;
    if |kept| > 0 {
      assert keep[kept[0]];
    }
    if c == e && exists i :: e <= i < n && keep[i] {
      var i :| e <= i < n && keep[i];
      assert i in kept;
    }
  }

  /** `evolve` as a function of the population and the draws. */
  function Evolution(pop: seq<Candidate>, fit: Candidate -> real, xb: Bounds, yb: Bounds, retain: real, d: Draws): (r: Result<seq<Candidate>>)
    requires 0.0 <= retain && Covers(d, |pop|)
    ensures r.Ok? ==> |r.value| == |pop| && r.value[..EliteEnd(|pop|)] == Ranked(fit, pop)[..EliteEnd(|pop|)]
    ensures r.Err? ==> r.error == EmptyRange
  {
    var ranked := Ranked(fit, pop);
    var n := |ranked|;
    SelectedLength(ranked, RetainLength(n, retain), d.keep);
    Assemble(n, ranked[..EliteEnd(n)], Mutated(Selected(ranked, RetainLength(n, retain), d.keep), d, xb, yb), d.picks)
  }

  /** The next generation has exactly as many candidates as the old one, and its
      first EliteEnd(|pop|) candidates are the best-ranked ones, so its first candidate
      ranks at least as high as every candidate of the old population. */
  lemma EvolutionKeepsSizeAndElite(pop: seq<Candidate>, fit: Candidate -> real, xb: Bounds, yb: Bounds, retain: real, d: Draws)
    requires 0.0 <= retain && Covers(d, |pop|)
    ensures Evolution(pop, fit, xb, yb, retain, d).Ok? ==>
      var next := Evolution(pop, fit, xb, yb, retain, d).value;
      && |next| == |pop|
      && next[..EliteEnd(|pop|)] == Ranked(fit, pop)[..EliteEnd(|pop|)]
      && forall c :: c in pop ==> RanksAtLeast(fit, next[0], c)
  {
    var ranked := Ranked(fit, pop);
    var n := |pop|;
    var rl := RetainLength(n, retain);
    SelectedLength(ranked, rl, d.keep);
    var retained := Mutated(Selected(ranked, rl, d.keep), d, xb, yb);
    AssembleProperties(n, ranked[..EliteEnd(n)], retained, d.picks, xb, yb);
    var r := Evolution(pop, fit, xb, yb, retain, d);
    if r.Ok? {
      forall c | c in pop ensures RanksAtLeast(fit, r.value[0], c) {
        RankedHeadIsBest(fit, pop, c);
        assert r.value[0] == r.value[..EliteEnd(n)][0];
      }
    }
  }

  /** `evolve` raises exactly when more than two candidates are ranked, the retained
      block is empty (int(len * retain) == 0) and no later candidate is chosen. */
  lemma EvolutionFailsIff(pop: seq<Candidate>, fit: Candidate -> real, xb: Bounds, yb: Bounds, retain: real, d: Draws)
    requires 0.0 <= retain && Covers(d, |pop|)
    ensures Evolution(pop, fit, xb, yb, retain, d).Err? <==>
      |pop| > 2 && RetainLength(|pop|, retain) == 0 && forall i :: 2 <= i < |pop| ==> !d.keep[i]
  {
    var ranked := Ranked(fit, pop);
    var n := |pop|;
    var rl := RetainLength(n, retain);
    SelectedLength(ranked, rl, d.keep);
    var retained := Mutated(Selected(ranked, rl, d.keep), d, xb, yb);
    AssembleProperties(n, ranked[..EliteEnd(n)], retained, d.picks, xb, yb);
  }

  /** Retained candidates, mutated or not, stay in the box when the ranked ones do. */
  lemma RetainedStaysInBox(ranked: seq<Candidate>, retainLength: nat, d: Draws, xb: Bounds, yb: Bounds)
    requires |d.keep| >= |ranked| && Covers(d, |Selected(ranked, retainLength, d.keep)|)
    requires xb.ClampSafe() && yb.ClampSafe()
    requires forall i :: 0 <= i < |ranked| ==> InBox(ranked[i], xb, yb)
    ensures forall j :: 0 <= j < |Selected(ranked, retainLength, d.keep)| ==>
      InBox(Mutated(Selected(ranked, retainLength, d.keep), d, xb, yb)[j], xb, yb)
  {
    var sel := Selected(ranked, retainLength, d.keep);
    SelectedIsOrderedSubsequence(ranked, retainLength, d.keep);
    var idx := RetainedIndices(|ranked|, retainLength, d.keep);
    forall j | 0 <= j < |sel| ensures InBox(sel[j], xb, yb) {
      assert sel[j] == ranked[idx[j]];
    }
  }

  lemma RankedStaysInBox(fit: Candidate -> real, pop: seq<Candidate>, xb: Bounds, yb: Bounds)
    requires forall i :: 0 <= i < |pop| ==> InBox(pop[i], xb, yb)
    ensures forall i :: 0 <= i < |pop| ==> InBox(Ranked(fit, pop)[i], xb, yb)
  {
    var ranked := Ranked(fit, pop);
    forall i | 0 <= i < |pop| ensures InBox(ranked[i], xb, yb) {
      assert ranked[i] in multiset(pop);
      var k :| 0 <= k < |pop| && pop[k] == ranked[i];
    }
  }

  lemma ConcatStaysInBox(s: seq<Candidate>, t: seq<Candidate>, xb: Bounds, yb: Bounds)
    requires forall i :: 0 <= i < |s| ==> InBox(s[i], xb, yb)
    requires forall i :: 0 <= i < |t| ==> InBox(t[i], xb, yb)
    ensures forall c :: c in s + t ==> InBox(c, xb, yb)
  {
    forall c | c in s + t ensures InBox(c, xb, yb) {
      var i :| 0 <= i < |s + t| && (s + t)[i] == c;
      if i >= |s| {
        assert c == t[i - |s|];
      }
    }
  }

  /** When the population lies in the box and both intervals are ClampSafe, so does
      the next generation: retained candidates are redrawn inside their interval and
      children only recombine coordinates. */
  lemma EvolutionStaysInBox(pop: seq<Candidate>, fit: Candidate -> real, xb: Bounds, yb: Bounds, retain: real, d: Draws)
    requires 0.0 <= retain && Covers(d, |pop|)
    requires xb.ClampSafe() && yb.ClampSafe()
    requires forall i :: 0 <= i < |pop| ==> InBox(pop[i], xb, yb)
    ensures Evolution(pop, fit, xb, yb, retain, d).Ok? ==>
      var next := Evolution(pop, fit, xb, yb, retain, d).value;
      |next| == |pop| && forall i :: 0 <= i < |pop| ==> InBox(next[i], xb, yb)
  {
    var ranked := Ranked(fit, pop);
    var n := |pop|;
    RankedStaysInBox(fit, pop, xb, yb);
    var rl := RetainLength(n, retain);
    var parents := ranked[..EliteEnd(n)];
    SelectedLength(ranked, rl, d.keep);
    RetainedStaysInBox(ranked, rl, d, xb, yb);
    var retained := Mutated(Selected(ranked, rl, d.keep), d, xb, yb);
    ConcatStaysInBox(parents, retained, xb, yb);
    AssembleProperties(n, parents, retained, d.picks, xb, yb);
    assert Evolution(pop, fit, xb, yb, retain, d) == Assemble(n, parents, retained, d.picks);
  }

  /** The diversify loop: append `ranked[i]` for every i >= start whose keep draw is true. */
  method Diversify(ranked: seq<Candidate>, start: nat, keep: seq<bool>, retained: seq<Candidate>) returns (r: seq<Candidate>)
    requires start <= |ranked| <= |keep|
    ensures r == retained + Gather(ranked, Kept(keep, start, |ranked|))
  {
    r := retained;
    for i := start to |ranked|
      invariant r == retained + Gather(ranked, Kept(keep, start, i))
    {
      if keep[i] {
        r := r + [ranked[i]];
      }
    }
  }

  /** The mutation loop, in place on the retained candidates. */
  method MutateRetained(retained: array<Candidate>, d: Draws, xb: Bounds, yb: Bounds)
    requires Covers(d, retained.Length)
    modifies retained
    ensures retained[..] == Mutated(old(retained[..]), d, xb, yb)
  {
    for j := 0 to retained.Length
      invariant forall k :: 0 <= k < j ==> retained[k] == Mutated(old(retained[..]), d, xb, yb)[k]
      invariant forall k :: j <= k < retained.Length ==> retained[k] == old(retained[k])
    {
      if d.mutate[j] {
        var positionToMutate := d.position[j] % 2;
        if positionToMutate == 0 {
          retained[j] := retained[j].(x := RandomPoint(xb.lo, xb.hi, d.redraw[j]));
        } else {
          retained[j] := retained[j].(y := RandomPoint(yb.lo, yb.hi, d.redraw[j]));
        }
      }
    }
  }

  /** The crossover loop: one child per pick until `desired` children exist. */
  method Breed(parents: seq<Candidate>, retained: seq<Candidate>, picks: seq<Pick>, desired: nat) returns (children: seq<Candidate>)
    requires desired <= |picks|
    requires desired > 0 ==> |parents| == 2 && |retained| > 0
    ensures children == Children(parents, retained, picks, desired)
  {
    children := [];
    while |children| < desired
      invariant |children| <= desired
      invariant children == Children(parents, retained, picks, |children|)
    {
      var k := |children|;
      var randRetained := retained[picks[k].retainedDraw % |retained|];
      var randParent := picks[k].parentDraw % |parents|;
      children := children + [Cross(randRetained, parents, randParent)];
    }
  }

  /** `evolve(pop, ...)`: the method follows the source step by step and computes Evolution. */
  method Evolve(pop: seq<Candidate>, fit: Candidate -> real, xb: Bounds, yb: Bounds, retain: real, d: Draws)
    returns (r: Result<seq<Candidate>>)
    requires 0.0 <= retain && Covers(d, |pop|)
    ensures r == Evolution(pop, fit, xb, yb, retain, d)
    ensures r.Ok? ==> |r.value| == |pop|
  {
    var graded := Ranked(fit, pop);
    assert |graded| == |multiset(graded)| == |pop|;
    var n := |graded|;
    var retainLength := RetainLength(n, retain);
    var parents := graded[..EliteEnd(n)];
    var selected := graded[EliteEnd(n)..RetainEnd(n, retainLength)];
    selected := Diversify(graded, RetainEnd(n, retainLength), d.keep, selected);
    var retained := new Candidate[|selected|](j requires 0 <= j < |selected| => selected[j]);
    assert retained[..] == selected;
    MutateRetained(retained, d, xb, yb);
    assert retained[..] == Mutated(Selected(graded, retainLength, d.keep), d, xb, yb);
    var desired := n - |parents| - retained.Length;
    if desired > 0 && retained.Length == 0 {
      assert Assemble(n, parents, retained[..], d.picks) == Err(EmptyRange);
      return Err(EmptyRange);
    }
    var children := Breed(parents, retained[..], d.picks, if desired > 0 then desired else 0);
    r := Ok(parents + retained[..] + children);
    assert r == Assemble(n, parents, retained[..], d.picks);
    EvolutionKeepsSizeAndElite(pop, fit, xb, yb, retain, d);
  }
}
