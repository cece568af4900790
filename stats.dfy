/**
 * The per-generation statistics of the function-maximising engine: Python's
 * `sum`, `max` and `min` over a non-empty list of fitness values, and the
 * mean `sum / len`.
 */
module Stats {

  /** `sum(s)`: a left fold from 0. */
  function Sum(s: seq<real>): real
  {
    if s == [] then 0.0 else Sum(s[..|s| - 1]) + s[|s| - 1]
  }

  /** `max(s)`: an element of `s` that no element exceeds. */
  function Max(s: seq<real>): (m: real)
    requires |s| >= 1
    ensures m in s
    ensures forall i :: 0 <= i < |s| ==> s[i] <= m
  {
    if |s| == 1 then s[0]
    else
      var m := Max(s[..|s| - 1]);
      if s[|s| - 1] > m then s[|s| - 1] else m
  }

  /** `min(s)`: an element of `s` that no element undercuts. */
  function Min(s: seq<real>): (m: real)
    requires |s| >= 1
    ensures m in s
    ensures forall i :: 0 <= i < |s| ==> m <= s[i]
  {
    if |s| == 1 then s[0]
    else
      var m := Min(s[..|s| - 1]);
      if s[|s| - 1] < m then s[|s| - 1] else m
  }

  /** Bounds on every element bound the maximum and the minimum. */
  lemma MaxMinWithin(s: seq<real>, lo: real, hi: real)
    requires |s| >= 1
    requires forall i :: 0 <= i < |s| ==> lo <= s[i] <= hi
    ensures lo <= Min(s) && Max(s) <= hi
  {
    var maxIndex :| 0 <= maxIndex < |s| && s[maxIndex] == Max(s);
    var minIndex :| 0 <= minIndex < |s| && s[minIndex] == Min(s);
  }

  /** The sum of a prefix one longer adds the next element. */
  lemma SumStep(s: seq<real>, i: nat)
    requires i < |s|
    ensures Sum(s[..i + 1]) == Sum(s[..i]) + s[i]
  {
    assert s[..i + 1][..i] == s[..i];
  }

  /** Every element at most `b` bounds the sum by `|s| * b`. */
  lemma {:induction false} SumAtMost(s: seq<real>, b: real)
    requires forall i :: 0 <= i < |s| ==> s[i] <= b
    ensures Sum(s) <= |s| as real * b
  {
    if s != [] {
      SumAtMost(s[..|s| - 1], b);
    }
  }

  /** Every element at least `b` bounds the sum by `|s| * b` from below. */
  lemma {:induction false} SumAtLeast(s: seq<real>, b: real)
    requires forall i :: 0 <= i < |s| ==> b <= s[i]
    ensures |s| as real * b <= Sum(s)
  {
    if s != [] {
      SumAtLeast(s[..|s| - 1], b);
    }
  }

  /** The mean lies between the minimum and the maximum. */
  lemma MeanBetween(s: seq<real>)
    requires |s| >= 1
    ensures Min(s) <= Sum(s) / |s| as real <= Max(s)
  {
    MeanWithin(s, Min(s), Max(s));
  }

  /** Bounds on every element bound the mean. */
  lemma MeanWithin(s: seq<real>, lo: real, hi: real)
    requires |s| >= 1
    requires forall i :: 0 <= i < |s| ==> lo <= s[i] <= hi
    ensures lo <= Sum(s) / |s| as real <= hi
  {
    SumAtLeast(s, lo);
    SumAtMost(s, hi);
    DivideBetween(lo, Sum(s), hi, |s|);
  }

  /** `n * lo <= t <= n * hi` with `n >= 1` gives `lo <= t / n <= hi`. */
  lemma DivideBetween(lo: real, t: real, hi: real, n: nat)
    requires n >= 1 && n as real * lo <= t <= n as real * hi
    ensures lo <= t / n as real <= hi
  {
    assert t / n as real * n as real == t;
  }
}
