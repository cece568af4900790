/**
 * Binary chromosomes of the function-maximising engine (GenMax/GenMax/GenMax.py):
 * lists of 0/1 integers read as big-endian unsigned numbers and mapped
 * linearly onto `[x_min, x_max]` by `decode`, with Python's `round`
 * (round half to even). Floating-point arithmetic is modelled by exact reals.
 */
module Binary {

  predicate IsBits(s: seq<int>)
  {
    forall i :: 0 <= i < |s| ==> s[i] == 0 || s[i] == 1
  }

  function Pow2(n: nat): (p: nat)
    ensures p >= 1
  {
    if n == 0 then 1 else 2 * Pow2(n - 1)
  }

  /** `int(''.join(map(str, bits)), 2)`: the first bit is the most significant. */
  function Value(bits: seq<int>): (v: nat)
    requires IsBits(bits)
    ensures v < Pow2(|bits|)
  {
    if bits == [] then 0 else 2 * Value(bits[..|bits| - 1]) + bits[|bits| - 1]
  }

  /** `n` zero bits and `n` one bits. */
  function Zeros(n: nat): (s: seq<int>)
    ensures |s| == n && IsBits(s)
  {
    seq(n, _ => 0)
  }

  function Ones(n: nat): (s: seq<int>)
    ensures |s| == n && IsBits(s)
  {
    seq(n, _ => 1)
  }

  lemma {:induction false} ValueOfZeros(n: nat)
    ensures Value(Zeros(n)) == 0
  {
    if n > 0 {
      assert Zeros(n)[..n - 1] == Zeros(n - 1);
      ValueOfZeros(n - 1);
    }
  }

  lemma {:induction false} ValueOfOnes(n: nat)
    ensures Value(Ones(n)) == Pow2(n) - 1
  {
    if n > 0 {
      assert Ones(n)[..n - 1] == Ones(n - 1);
      ValueOfOnes(n - 1);
    }
  }

  /**
   * Python's `round` on a number: the nearest integer, and on a tie (a
   * fractional part of exactly one half) the even neighbour.
   */
  function RoundHalfEven(q: real): (r: int)
    ensures -0.5 <= r as real - q <= 0.5
    ensures (r as real - q == 0.5 || q - r as real == 0.5) ==> r % 2 == 0
  {
    var f := q.Floor;
    var fraction := q - f as real;
    if fraction < 0.5 then f
    else if fraction > 0.5 then f + 1
    else if f % 2 == 0 then f
    else f + 1
  }

  /** Rounding leaves integers alone. */
  lemma RoundInteger(n: int)
    ensures RoundHalfEven(n as real) == n
  {
    var r := RoundHalfEven(n as real);
    assert -1 < r - n < 1 by {
      assert -0.5 <= (r - n) as real <= 0.5;
    }
  }

  /** Rounding is monotone, ties included. */
  lemma RoundMonotone(a: real, b: real)
    requires a <= b
    ensures RoundHalfEven(a) <= RoundHalfEven(b)
  {
    var ra, rb := RoundHalfEven(a), RoundHalfEven(b);
    assert ra <= rb + 1;
    if ra == rb + 1 {
      // both would be ties half a unit from a == b, and both even
      assert false;
    }
  }

  /** The unrounded position `x_min + (x_max - x_min) * value / (2^len - 1)`. */
  function Position(bits: seq<int>, xMin: int, xMax: int): real
    requires IsBits(bits) && |bits| >= 1
  {
    xMin as real + ((xMax - xMin) * Value(bits)) as real / (Pow2(|bits|) - 1) as real
  }

  /** `decode`: the position rounded half to even. */
  function Decode(bits: seq<int>, xMin: int, xMax: int): (x: int)
    requires IsBits(bits) && |bits| >= 1
    ensures xMin <= xMax ==> xMin <= x <= xMax
  {
    PositionWithin(bits, xMin, xMax);
    RoundHalfEven(Position(bits, xMin, xMax))
  }

  /** With `0 <= value <= 2^len - 1`, the position lies in `[x_min, x_max]`; rounding keeps it there. */
  lemma PositionWithin(bits: seq<int>, xMin: int, xMax: int)
    requires IsBits(bits) && |bits| >= 1
    ensures xMin <= xMax ==> xMin <= RoundHalfEven(Position(bits, xMin, xMax)) <= xMax
  {
    if xMin <= xMax {
      var p := Position(bits, xMin, xMax);
      Fraction(xMax - xMin, Value(bits), Pow2(|bits|) - 1);
      assert xMin as real <= p <= xMax as real;
      RoundMonotone(xMin as real, p);
      RoundMonotone(p, xMax as real);
      RoundInteger(xMin);
      RoundInteger(xMax);
    }
  }

  /** `span * v / m` lies in `[0, span]` when `0 <= v <= m`. */
  lemma Fraction(span: int, v: int, m: int)
    requires span >= 0 && 0 <= v <= m && m > 0
    ensures 0.0 <= (span * v) as real / m as real <= span as real
  {
    FractionMonotone(span, 0, v, m);
    FractionMonotone(span, v, m, m);
    assert (span * m) as real / m as real == span as real by {
      assert (span * m) as real == span as real * m as real;
    }
  }

  /** `span * v / m` grows with `v`. */
  lemma FractionMonotone(span: int, v: int, w: int, m: int)
    requires span >= 0 && v <= w && m > 0
    ensures (span * v) as real / m as real <= (span * w) as real / m as real
  {
    assert span * v <= span * w by {
      assert span * (w - v) >= 0;
    }
  }

  /** The all-zero chromosome decodes to `x_min`. */
  lemma DecodeZeros(n: nat, xMin: int, xMax: int)
    requires n >= 1
    ensures Decode(Zeros(n), xMin, xMax) == xMin
  {
    ValueOfZeros(n);
    RoundInteger(xMin);
  }

  /** The all-one chromosome decodes to `x_max`. */
  lemma DecodeOnes(n: nat, xMin: int, xMax: int)
    requires n >= 1
    ensures Decode(Ones(n), xMin, xMax) == xMax
  {
    ValueOfOnes(n);
    var m := Pow2(n) - 1;
    assert ((xMax - xMin) * m) as real / m as real == (xMax - xMin) as real;
    RoundInteger(xMax);
  }

  /** Decoding is non-decreasing in the unsigned value of the bits. */
  lemma DecodeMonotone(a: seq<int>, b: seq<int>, xMin: int, xMax: int)
    requires IsBits(a) && IsBits(b) && |a| == |b| >= 1
    requires Value(a) <= Value(b) && xMin <= xMax
    ensures Decode(a, xMin, xMax) <= Decode(b, xMin, xMax)
  {
    PositionMonotone(a, b, xMin, xMax);
    RoundMonotone(Position(a, xMin, xMax), Position(b, xMin, xMax));
  }

  /** Before rounding, the position grows with the unsigned value of the bits. */
  lemma PositionMonotone(a: seq<int>, b: seq<int>, xMin: int, xMax: int)
    requires IsBits(a) && IsBits(b) && |a| == |b| >= 1
    requires Value(a) <= Value(b) && xMin <= xMax
    ensures Position(a, xMin, xMax) <= Position(b, xMin, xMax)
  {
    var m := Pow2(|a|) - 1;
    assert m > 0 by {
      assert Pow2(|a|) == 2 * Pow2(|a| - 1);
    }
    FractionMonotone(xMax - xMin, Value(a), Value(b), m);
  }
}
