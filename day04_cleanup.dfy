/** Day 4: camp cleanup. Each line assigns two elves a range of sections;
    the answer counts the pairs in which one range contains the other. */
module Cleanup {

  /** A range of section ids, both ends included. */
  datatype Range = Range(start: nat, end: nat)

  /** `Range::contains`: `other` lies within `self`. */
  predicate Contains(self: Range, other: Range)
  {
    other.start >= self.start && other.end <= self.end
  }

  /** Section `k` lies in the range. */
  predicate Holds(r: Range, k: int)
  {
    r.start <= k <= r.end
  }

  /** A non-empty range contains another exactly when it holds every
      section of it. */
  lemma ContainsIffEverySection(a: Range, b: Range)
    requires b.start <= b.end
    ensures Contains(a, b) <==> forall k :: Holds(b, k) ==> Holds(a, k)
  {
    if forall k :: Holds(b, k) ==> Holds(a, k) {
      assert Holds(b, b.start) && Holds(b, b.end);
    }
  }

  lemma ContainsIsReflexive(a: Range)
    ensures Contains(a, a)
  {
  }

  lemma ContainsIsTransitive(a: Range, b: Range, c: Range)
    requires Contains(a, b) && Contains(b, c)
    ensures Contains(a, c)
  {
  }

  /** Two ranges contain each other only when they are equal. */
  lemma ContainsIsAntisymmetric(a: Range, b: Range)
    requires Contains(a, b) && Contains(b, a)
    ensures a == b
  {
  }

  /** One range of the pair contains the other. */
  predicate FullyContained(pair: (Range, Range))
  {
    Contains(pair.0, pair.1) || Contains(pair.1, pair.0)
  }

  /** The `map`/`fold` of `solve_part1` over the parsed pairs. */
  function CountContained(pairs: seq<(Range, Range)>): (n: nat)
    ensures n <= |pairs|
  {
    if pairs == [] then 0
    else CountContained(pairs[..|pairs| - 1]) + (if FullyContained(pairs[|pairs| - 1]) then 1 else 0)
  }

  /** The positions of the pairs that count. */
  function ContainedAt(pairs: seq<(Range, Range)>): set<nat>
  {
    set i: nat | i < |pairs| && FullyContained(pairs[i])
  }

  /** The count is the number of positions holding a pair that counts. */
  lemma {:induction false} CountIsNumberOfContainedPairs(pairs: seq<(Range, Range)>)
    ensures CountContained(pairs) == |ContainedAt(pairs)|
  {
    if pairs != [] {
      var n := |pairs| - 1;
      var init := pairs[..n];
      CountIsNumberOfContainedPairs(init);
      var last := if FullyContained(pairs[n]) then {n} else {};
      assert ContainedAt(pairs) == ContainedAt(init) + last;
      assert n !in ContainedAt(init);
    }
  }

  /** Swapping the two ranges of every pair does not change the count. */
  function Swapped(pairs: seq<(Range, Range)>): (r: seq<(Range, Range)>)
    ensures |r| == |pairs|
    ensures forall i :: 0 <= i < |pairs| ==> r[i] == (pairs[i].1, pairs[i].0)
  {
    if pairs == [] then []
    else Swapped(pairs[..|pairs| - 1]) + [(pairs[|pairs| - 1].1, pairs[|pairs| - 1].0)]
  }

  lemma {:induction false} CountIsSymmetric(pairs: seq<(Range, Range)>)
    ensures CountContained(Swapped(pairs)) == CountContained(pairs)
  {
    if pairs != [] {
      var n := |pairs| - 1;
      CountIsSymmetric(pairs[..n]);
      assert Swapped(pairs)[..n] == Swapped(pairs[..n]);
    }
  }

  /** The example: only `2-8,3-7` and `6-6,4-6` count. */
  lemma Example(pairs: seq<(Range, Range)>)
    requires pairs == [
      (Range(2, 4), Range(6, 8)), (Range(2, 3), Range(4, 5)), (Range(5, 7), Range(7, 9)),
      (Range(2, 8), Range(3, 7)), (Range(6, 6), Range(4, 6)), (Range(2, 6), Range(4, 8))]
    ensures CountContained(pairs) == 2
  {
    assert pairs[..0] == [];
    assert pairs[..1][..0] == pairs[..0];
    assert pairs[..2][..1] == pairs[..1];
    assert pairs[..3][..2] == pairs[..2];
    assert pairs[..4][..3] == pairs[..3];
    assert pairs[..5][..4] == pairs[..4];
    assert pairs[..6][..5] == pairs[..5] && pairs[..6] == pairs;
    assert CountContained(pairs[..1]) == 0;
    assert CountContained(pairs[..2]) == 0;
    assert CountContained(pairs[..3]) == 0;
    assert CountContained(pairs[..4]) == 1;
    assert CountContained(pairs[..5]) == 2;
  }
}
