/**
 * Order crossover on routes (TSP/TSP/gen_model.py, `Population.__order_crossover`):
 * a child keeps a segment of one parent in place and takes the remaining
 * positions, in the other parent's order, from the other parent.
 * It is written over any element type compared with `==`; the routes of the
 * travelling-salesman engine instantiate it with city objects, compared by identity
 * as Python's `in` does for objects without `__eq__`.
 */
module OrderCrossover {
  import opened Sequences

  /** `[c for c in s if c not in exclude]`: `s` in order, less what `exclude` holds. */
  function Without<T(==)>(s: seq<T>, exclude: seq<T>): (r: seq<T>)
    ensures forall x :: x in r ==> x in s && x !in exclude
    ensures forall x :: x in s && x !in exclude ==> x in r
    ensures |r| <= |s|
  {
    if s == [] then []
    else (if s[0] in exclude then [] else [s[0]]) + Without(s[1..], exclude)
  }

  /**
   * One child: `remaining[:j1] + section + remaining[j1:]`, where `section` is
   * `donor[j1:j2]` and `remaining` is `other` without the cities of `section`.
   */
  function Child<T(==)>(donor: seq<T>, other: seq<T>, j1: nat, j2: nat): (child: seq<T>)
    requires j1 <= j2
  {
    var hi := if j2 <= |donor| then j2 else |donor|;
    var section := donor[if j1 <= hi then j1 else hi..hi];
    var remaining := Without(other, section);
    var cut := if j1 <= |remaining| then j1 else |remaining|;
    remaining[..cut] + section + remaining[cut..]
  }

  /**
   * Both children of one crossover. The cuts are drawn as
   * `jcross1 = randint(1, n - 2)` and `jcross2 = randint(jcross1 + 1, n - 1)`
   * with `n = len(parent1)`, so the segment is never empty and never reaches
   * the last position.
   */
  function Cross<T(==)>(parent1: seq<T>, parent2: seq<T>, j1: nat, j2: nat): (children: (seq<T>, seq<T>))
    requires 1 <= j1 <= |parent1| - 2 && j1 < j2 <= |parent1| - 1
    ensures Distinct(parent1) && IsPermutationOf(parent2, parent1) ==>
      && |parent2| == |children.0| == |children.1| == |parent1|
      && children.0[j1..j2] == parent1[j1..j2]
      && children.0[..j1] + children.0[j2..] == Without(parent2, parent1[j1..j2])
      && children.1[j1..j2] == parent2[j1..j2]
      && children.1[..j1] + children.1[j2..] == Without(parent1, parent2[j1..j2])
      && IsPermutationOf(children.0, parent1) && IsPermutationOf(children.1, parent1)
  {
    CrossLayout(parent1, parent2, j1, j2);
    (Child(parent1, parent2, j1, j2), Child(parent2, parent1, j1, j2))
  }

  /** The layout of both children, for parents that are permutations of each other. */
  lemma CrossLayout<T>(parent1: seq<T>, parent2: seq<T>, j1: nat, j2: nat)
    requires j1 <= j2 <= |parent1|
    ensures Distinct(parent1) && IsPermutationOf(parent2, parent1) ==>
      && |parent2| == |parent1|
      && var child1, child2 := Child(parent1, parent2, j1, j2), Child(parent2, parent1, j1, j2);
         && |child1| == |child2| == |parent1|
         && child1[j1..j2] == parent1[j1..j2]
         && child1[..j1] + child1[j2..] == Without(parent2, parent1[j1..j2])
         && child2[j1..j2] == parent2[j1..j2]
         && child2[..j1] + child2[j2..] == Without(parent1, parent2[j1..j2])
         && IsPermutationOf(child1, parent1) && IsPermutationOf(child2, parent1)
  {
    if Distinct(parent1) && IsPermutationOf(parent2, parent1) {
      PermutationLength(parent2, parent1);
      ChildLayout(parent1, parent2, parent1, j1, j2);
      ChildLayout(parent2, parent1, parent1, j1, j2);
      ChildIsPermutation(parent1, parent2, parent1, j1, j2);
      ChildIsPermutation(parent2, parent1, parent1, j1, j2);
    }
  }

  /** How often `x` survives the filter. */
  lemma {:induction false} WithoutCount<T>(s: seq<T>, exclude: seq<T>, x: T)
    ensures multiset(Without(s, exclude))[x] == if x in exclude then 0 else multiset(s)[x]
  {
    if s != [] {
      assert s == [s[0]] + s[1..];
      WithoutCount(s[1..], exclude, x);
    }
  }

  /**
   * Removing a repetition-free part of a repetition-free list and putting it
   * back gives the same multiset.
   */
  lemma WithoutComplement<T>(s: seq<T>, exclude: seq<T>)
    requires forall x :: multiset(s)[x] <= 1
    requires forall x :: multiset(exclude)[x] <= 1
    requires forall x :: x in exclude ==> x in s
    ensures multiset(Without(s, exclude)) + multiset(exclude) == multiset(s)
  {
    forall x | x in s
      ensures (multiset(Without(s, exclude)) + multiset(exclude))[x] == multiset(s)[x]
    {
      WithoutCount(s, exclude, x);
      if x in exclude {
        assert multiset(exclude)[x] == 1 && multiset(s)[x] == 1;
      } else {
        assert multiset(exclude)[x] == 0;
      }
    }
  }

  /** A segment of a list is part of its multiset. */
  lemma SegmentCount<T>(s: seq<T>, lo: nat, hi: nat)
    requires lo <= hi <= |s|
    ensures multiset(s[lo..hi]) <= multiset(s)
  {
    assert s == s[..lo] + s[lo..hi] + s[hi..];
  }

  /**
   * When both parents are permutations of the same repetition-free catalog,
   * so is each child (and it has the catalog's length).
   */
  lemma ChildIsPermutation<T>(donor: seq<T>, other: seq<T>, catalog: seq<T>, j1: nat, j2: nat)
    requires Distinct(catalog)
    requires IsPermutationOf(donor, catalog) && IsPermutationOf(other, catalog)
    requires j1 <= j2 <= |donor|
    ensures IsPermutationOf(Child(donor, other, j1, j2), catalog)
    ensures |Child(donor, other, j1, j2)| == |catalog|
  {
    ChildMultiset(donor, other, j1, j2);
    SectionRestored(donor, other, catalog, j1, j2);
    assert |multiset(Child(donor, other, j1, j2))| == |multiset(catalog)|;
  }

  /** A child holds the remaining cities and the segment, whatever the parents. */
  lemma ChildMultiset<T>(donor: seq<T>, other: seq<T>, j1: nat, j2: nat)
    requires j1 <= j2 <= |donor|
    ensures multiset(Child(donor, other, j1, j2))
      == multiset(Without(other, donor[j1..j2])) + multiset(donor[j1..j2])
  {
    var section := donor[j1..j2];
    var remaining := Without(other, section);
    var cut := if j1 <= |remaining| then j1 else |remaining|;
    SpliceMultiset(remaining, section, cut);
  }

  /** Inserting `section` anywhere in `remaining` adds exactly its elements. */
  lemma SpliceMultiset<T>(remaining: seq<T>, section: seq<T>, cut: nat)
    requires cut <= |remaining|
    ensures multiset(remaining[..cut] + section + remaining[cut..]) == multiset(remaining) + multiset(section)
  {
    assert remaining[..cut] + remaining[cut..] == remaining;
  }

  /** The segment and what the other parent keeps without it make up the catalog again. */
  lemma SectionRestored<T>(donor: seq<T>, other: seq<T>, catalog: seq<T>, j1: nat, j2: nat)
    requires Distinct(catalog)
    requires IsPermutationOf(donor, catalog) && IsPermutationOf(other, catalog)
    requires j1 <= j2 <= |donor|
    ensures multiset(Without(other, donor[j1..j2])) + multiset(donor[j1..j2]) == multiset(catalog)
  {
    var section := donor[j1..j2];
    forall x ensures multiset(catalog)[x] <= 1 {
      DistinctCount(catalog, x);
    }
    SegmentCount(donor, j1, j2);
    forall x | x in section ensures x in other {
      assert multiset(donor)[x] >= multiset(section)[x] > 0;
    }
    WithoutComplement(other, section);
  }

  /**
   * Where the child's cities sit: the donor's segment in place, and around it
   * the other parent's remaining cities in that parent's order, the first `j1`
   * of them before the segment.
   */
  lemma ChildLayout<T>(donor: seq<T>, other: seq<T>, catalog: seq<T>, j1: nat, j2: nat)
    requires Distinct(catalog)
    requires IsPermutationOf(donor, catalog) && IsPermutationOf(other, catalog)
    requires j1 <= j2 <= |donor|
    ensures var child := Child(donor, other, j1, j2);
      |child| == |donor|
      && child[j1..j2] == donor[j1..j2]
      && child[..j1] + child[j2..] == Without(other, donor[j1..j2])
  {
    var section := donor[j1..j2];
    var remaining := Without(other, section);
    ChildIsPermutation(donor, other, catalog, j1, j2);
    assert |donor| == |catalog| by {
      assert |multiset(donor)| == |multiset(catalog)|;
    }
    assert |remaining| + |section| == |donor|;
    Splice(remaining, section, j1);
  }

  /** Inserting `section` at position `j1` of `remaining`, and taking it out again. */
  lemma Splice<T>(remaining: seq<T>, section: seq<T>, j1: nat)
    requires j1 <= |remaining|
    ensures var child := remaining[..j1] + section + remaining[j1..];
      child[j1..j1 + |section|] == section
      && child[..j1] + child[j1 + |section|..] == remaining
  {
    var child := remaining[..j1] + section + remaining[j1..];
    assert child[..j1] == remaining[..j1];
    assert child[j1 + |section|..] == remaining[j1..];
    assert remaining[..j1] + remaining[j1..] == remaining;
  }

  /** The operator's main promise: both children are again permutations. */
  lemma CrossPreservesPermutation<T>(parent1: seq<T>, parent2: seq<T>, catalog: seq<T>, j1: nat, j2: nat)
    requires Distinct(catalog)
    requires IsPermutationOf(parent1, catalog) && IsPermutationOf(parent2, catalog)
    requires 1 <= j1 <= |parent1| - 2 && j1 < j2 <= |parent1| - 1
    ensures IsPermutationOf(Cross(parent1, parent2, j1, j2).0, catalog)
    ensures IsPermutationOf(Cross(parent1, parent2, j1, j2).1, catalog)
    ensures |Cross(parent1, parent2, j1, j2).0| == |Cross(parent1, parent2, j1, j2).1| == |catalog|
  {
    assert |parent1| == |catalog| == |parent2| by {
      assert |multiset(parent1)| == |multiset(catalog)| == |multiset(parent2)|;
    }
    ChildIsPermutation(parent1, parent2, catalog, j1, j2);
    ChildIsPermutation(parent2, parent1, catalog, j1, j2);
  }
}
