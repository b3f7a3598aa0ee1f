/** Ranking of a population: `sorted([(fitness(x), x) for x in pop], reverse = True)`,
    keeping only the candidates. Tuples compare by fitness first and then by the
    list [x, y], so equal fitness is ordered by x and then y, all descending. */
module Ranking {
  import opened Candidates

  /** `a` sorts at or before `b` in the descending tuple order. */
  predicate RanksAtLeast(fit: Candidate -> real, a: Candidate, b: Candidate)
    ensures RanksAtLeast(fit, a, b) ==> fit(a) >= fit(b)
    ensures fit(a) > fit(b) ==> RanksAtLeast(fit, a, b)
  {
    fit(a) > fit(b) || (fit(a) == fit(b) && (a.x > b.x || (a.x == b.x && a.y >= b.y)))
  }

  /** The order is a total order on candidates: reflexive, total, antisymmetric
      (the tuple holds the whole candidate) and transitive. */
  lemma RanksAtLeastIsTotalOrder(fit: Candidate -> real, a: Candidate, b: Candidate, c: Candidate)
    ensures RanksAtLeast(fit, a, a)
    ensures RanksAtLeast(fit, a, b) || RanksAtLeast(fit, b, a)
    ensures RanksAtLeast(fit, a, b) && RanksAtLeast(fit, b, a) ==> a == b
    ensures RanksAtLeast(fit, a, b) && RanksAtLeast(fit, b, c) ==> RanksAtLeast(fit, a, c)
  {
  }

  /** Fitness never increases along `s`, and ties are in descending [x, y] order. */
  predicate Descending(fit: Candidate -> real, s: seq<Candidate>) {
    forall i, j :: 0 <= i < j < |s| ==> RanksAtLeast(fit, s[i], s[j])
  }

  /** When `c` does not go before the head of `s`, the head ranks at least as high as
      every candidate of `c` inserted into the rest of `s`. */
  lemma HeadRanksAtLeastInserted(fit: Candidate -> real, c: Candidate, s: seq<Candidate>, rest: seq<Candidate>)
    requires Descending(fit, s) && |s| > 0 && !RanksAtLeast(fit, c, s[0])
    requires multiset(rest) == multiset(s[1..]) + multiset{c}
    ensures forall k :: 0 <= k < |rest| ==> RanksAtLeast(fit, s[0], rest[k])
  {
    forall k | 0 <= k < |rest| ensures RanksAtLeast(fit, s[0], rest[k]) {
      assert rest[k] in multiset(rest);
      if rest[k] != c {
        assert rest[k] in multiset(s[1..]);
        var j :| 0 <= j < |s[1..]| && s[1..][j] == rest[k];
        assert s[j + 1] == rest[k];
      } else {
        RanksAtLeastIsTotalOrder(fit, c, s[0], s[0]);
      }
    }
  }

  function Insert(fit: Candidate -> real, c: Candidate, s: seq<Candidate>): (r: seq<Candidate>)
    requires Descending(fit, s)
    ensures Descending(fit, r)
    ensures multiset(r) == multiset(s) + multiset{c}
  {
    if s == [] then [c]
    else if RanksAtLeast(fit, c, s[0]) then
      assert forall j :: 0 < j < |s| ==> RanksAtLeast(fit, c, s[j]) by {
        forall j | 0 < j < |s| ensures RanksAtLeast(fit, c, s[j]) {
          RanksAtLeastIsTotalOrder(fit, c, s[0], s[j]);
        }
      }
      assert s == [s[0]] + s[1..];
      [c] + s
    else
      var rest := Insert(fit, c, s[1..]);
      HeadRanksAtLeastInserted(fit, c, s, rest);
      assert s == [s[0]] + s[1..];
      [s[0]] + rest
  }

  /** The ranked population: a descending permutation of `pop`. */
  function Ranked(fit: Candidate -> real, pop: seq<Candidate>): (r: seq<Candidate>)
    ensures Descending(fit, r)
    ensures multiset(r) == multiset(pop)
    ensures |r| == |pop|
  {
    if pop == [] then []
    else
      assert pop == [pop[0]] + pop[1..];
      var r := Insert(fit, pop[0], Ranked(fit, pop[1..]));
      assert |r| == |multiset(r)|;
      r
  }

  /** Two descending arrangements of the same non-empty population start alike: each
      head ranks at least as high as the other. */
  lemma DescendingHeadsAgree(fit: Candidate -> real, a: seq<Candidate>, b: seq<Candidate>)
    requires Descending(fit, a) && Descending(fit, b)
    requires multiset(a) == multiset(b) && |a| > 0
    ensures |b| == |a| && a[0] == b[0]
  {
    assert |b| == |multiset(b)| == |a|;
    assert a[0] in multiset(b) && b[0] in multiset(a);
    var i :| 0 <= i < |a| && a[i] == b[0];
    var j :| 0 <= j < |b| && b[j] == a[0];
    RanksAtLeastIsTotalOrder(fit, a[0], b[0], a[0]);
    assert RanksAtLeast(fit, a[0], b[0]);
    assert RanksAtLeast(fit, b[0], a[0]);
  }

  /** Removing the head of a sequence removes it from the multiset. */
  lemma TailMultiset(s: seq<Candidate>)
    requires |s| > 0
    ensures multiset(s[1..]) == multiset(s) - multiset{s[0]}
  {
    assert s == [s[0]] + s[1..];
  }

  /** A descending arrangement of a population is unique, so Ranked is exactly the
      list that Python's stable `sorted(..., reverse = True)` returns. */
  lemma {:induction false} DescendingPermutationIsUnique(fit: Candidate -> real, a: seq<Candidate>, b: seq<Candidate>)
    requires Descending(fit, a) && Descending(fit, b)
    requires multiset(a) == multiset(b)
    ensures a == b
  {
    if a == [] {
      assert |b| == |multiset(b)| == 0;
    } else {
      DescendingHeadsAgree(fit, a, b);
      TailMultiset(a);
      TailMultiset(b);
      DescendingPermutationIsUnique(fit, a[1..], b[1..]);
      assert a == [a[0]] + a[1..] && b == [b[0]] + b[1..];
    }
  }

  /** The head of the ranking ranks at least as high as every candidate of `pop`. */
  lemma RankedHeadIsBest(fit: Candidate -> real, pop: seq<Candidate>, c: Candidate)
    requires c in pop
    ensures |Ranked(fit, pop)| > 0
    ensures RanksAtLeast(fit, Ranked(fit, pop)[0], c)
    ensures fit(Ranked(fit, pop)[0]) >= fit(c)
  {
    var r := Ranked(fit, pop);
    assert c in multiset(pop);
    assert c in multiset(r);
    var j :| 0 <= j < |r| && r[j] == c;
    RanksAtLeastIsTotalOrder(fit, r[0], r[0], r[0]);
  }
}
