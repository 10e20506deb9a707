/** Frame counting and the per-frame sums the feature calculators accumulate.

    Every sum is defined by peeling off the LAST element, the same order in which the
    calculators' loops add bin after bin, so a loop invariant is a statement about a prefix.
 */
module Sums {

  /** C#'s `samples.Length / FrameLength`: integer division truncating toward zero
      (Dafny's `/` is Euclidean, which differs for a negative divisor). */
  function FrameCount(sampleCount: nat, frameLength: int): (c: int)
    requires frameLength != 0
    ensures frameLength > 0 ==> 0 <= c && c * frameLength <= sampleCount < (c + 1) * frameLength
    ensures frameLength < 0 ==> c <= 0 && c * frameLength <= sampleCount < (1 - c) * -frameLength
  {
    if frameLength > 0 then sampleCount / frameLength else -(sampleCount / -frameLength)
  }

  /** At least one whole frame fits exactly when the frame length is positive and at most the
      sample count. */
  lemma WholeFrameFits(sampleCount: nat, frameLength: int)
    requires frameLength != 0
    ensures FrameCount(sampleCount, frameLength) >= 1 <==> 0 < frameLength <= sampleCount
  {
    var c := FrameCount(sampleCount, frameLength);
    if frameLength > 0 {
      if c >= 1 {
        assert frameLength <= c * frameLength;
      }
    }
  }

  function Min(a: int, b: int): int
  {
    if a < b then a else b
  }

  /** The exclusive end of the band [f1, f2] clamped to a spectrum of n bins: min(f2 + 1, n). */
  function BandEnd(n: nat, f2: nat): (e: nat)
    ensures e <= n && e <= f2 + 1
    ensures e == n || e == f2 + 1
  {
    if f2 + 1 < n then f2 + 1 else n
  }

  /** Σ s[k]² over the band [f1, f2] clamped to s; 0 when the clamped band is empty. */
  function BandSquares(s: seq<real>, f1: nat, f2: nat): real
  {
    if f1 < BandEnd(|s|, f2) then SumSquares(s[f1..BandEnd(|s|, f2)]) else 0.0
  }

  /** Σ s[k] */
  function Sum(s: seq<real>): real
  {
    if s == [] then 0.0 else Sum(s[..|s| - 1]) + s[|s| - 1]
  }

  /** Σ k·s[k] */
  function WeightedSum(s: seq<real>): real
  {
    if s == [] then 0.0 else WeightedSum(s[..|s| - 1]) + (|s| - 1) as real * s[|s| - 1]
  }

  /** Σ s[k]² */
  function SumSquares(s: seq<real>): real
  {
    if s == [] then 0.0 else SumSquares(s[..|s| - 1]) + s[|s| - 1] * s[|s| - 1]
  }

  /** Σ (k − c)²·s[k]² */
  function Spread(s: seq<real>, c: real): real
  {
    if s == [] then 0.0
    else
      var d := (|s| - 1) as real - c;
      Spread(s[..|s| - 1], c) + d * d * s[|s| - 1] * s[|s| - 1]
  }

  /** The largest element of a non-empty sequence. */
  function Max(s: seq<real>): (r: real)
    requires |s| > 0
    ensures forall k :: 0 <= k < |s| ==> s[k] <= r
    ensures exists k :: 0 <= k < |s| && r == s[k]
  {
    if |s| == 1 then s[0]
    else
      var init := s[..|s| - 1];
      var m := Max(init);
      assert forall k :: 0 <= k < |init| ==> init[k] == s[k];
      if m < s[|s| - 1] then s[|s| - 1] else m
  }

  /** Extending a prefix by one element: the maximum of the longer prefix is the larger of the
      shorter prefix's maximum and the new element. */
  lemma MaxOfLongerPrefix(s: seq<real>, n: nat)
    requires 0 < n < |s|
    ensures Max(s[..n + 1]) == if Max(s[..n]) < s[n] then s[n] else Max(s[..n])
  {
    assert s[..n + 1][..n] == s[..n];
  }

  /** The squares of the elements, the values LINQ's `Max (f => f * f)` compares. */
  function Squares(s: seq<real>): seq<real>
  {
    seq(|s|, k requires 0 <= k < |s| => s[k] * s[k])
  }

  /** Every bin of `s` except bin `b` is zero: the spectrum of a pure tone. */
  ghost predicate IsTone(s: seq<real>, b: nat)
  {
    b < |s| && forall k :: 0 <= k < |s| && k != b ==> s[k] == 0.0
  }

  ghost predicate AllZero(s: seq<real>)
  {
    forall k :: 0 <= k < |s| ==> s[k] == 0.0
  }

  ghost predicate NonNegative(s: seq<real>)
  {
    forall k :: 0 <= k < |s| ==> s[k] >= 0.0
  }

  lemma {:induction false} SumSquaresNonNegative(s: seq<real>)
    ensures SumSquares(s) >= 0.0
  {
    if s != [] {
      SumSquaresNonNegative(s[..|s| - 1]);
    }
  }

  lemma {:induction false} SpreadNonNegative(s: seq<real>, c: real)
    ensures Spread(s, c) >= 0.0
  {
    if s != [] {
      SpreadNonNegative(s[..|s| - 1], c);
      var d := (|s| - 1) as real - c;
      var x := s[|s| - 1];
      assert d * d * x * x == (d * x) * (d * x);
    }
  }

  lemma {:induction false} SumSquaresOfZeros(s: seq<real>)
    requires AllZero(s)
    ensures SumSquares(s) == 0.0
  {
    if s != [] {
      SumSquaresOfZeros(s[..|s| - 1]);
    }
  }

  /** Each square is at most `bound`, so the sum is at most |s|·bound. */
  lemma {:induction false} SumSquaresAtMost(s: seq<real>, bound: real)
    requires forall k :: 0 <= k < |s| ==> s[k] * s[k] <= bound
    ensures SumSquares(s) <= bound * |s| as real
  {
    if s != [] {
      SumSquaresAtMost(s[..|s| - 1], bound);
    }
  }

  /** Every square is at most the largest square. */
  lemma SquaresAtMostMax(s: seq<real>)
    requires |s| > 0
    ensures forall k :: 0 <= k < |s| ==> s[k] * s[k] <= Max(Squares(s))
  {
    var q := Squares(s);
    forall k | 0 <= k < |s|
      ensures s[k] * s[k] <= Max(q)
    {
      assert q[k] == s[k] * s[k];
    }
  }

  /** The mean of the squares lies between 0 and any bound on the squares. */
  lemma MeanSquareBounds(s: seq<real>, bound: real)
    requires |s| > 0
    requires forall k :: 0 <= k < |s| ==> s[k] * s[k] <= bound
    ensures 0.0 <= SumSquares(s) / |s| as real <= bound
  {
    SumSquaresNonNegative(s);
    SumSquaresAtMost(s, bound);
    QuotientBounds(SumSquares(s), |s| as real, bound);
  }

  /** For a non-negative spectrum the weighted sum lies between 0 and (|s| − 1)·Σ s. */
  lemma {:induction false} WeightedSumBounds(s: seq<real>)
    requires NonNegative(s)
    ensures 0.0 <= Sum(s) && 0.0 <= WeightedSum(s)
    ensures |s| > 0 ==> WeightedSum(s) <= (|s| - 1) as real * Sum(s)
  {
    if s != [] {
      var init := s[..|s| - 1];
      assert NonNegative(init);
      WeightedSumBounds(init);
      var x := s[|s| - 1];
      var n := (|s| - 1) as real;
      if |init| > 0 {
        assert WeightedSum(init) <= (n - 1.0) * Sum(init);
        assert (n - 1.0) * Sum(init) <= n * Sum(init);
      }
      assert WeightedSum(s) == WeightedSum(init) + n * x;
      assert WeightedSum(init) <= n * Sum(init);
    }
  }

  /** The sums of a pure tone at bin `b` reduce to the tone's own bin. */
  lemma {:induction false} ToneSums(s: seq<real>, b: nat)
    requires IsTone(s, b)
    ensures Sum(s) == s[b]
    ensures WeightedSum(s) == b as real * s[b]
    ensures SumSquares(s) == s[b] * s[b]
    ensures Spread(s, b as real) == 0.0
  {
    var init := s[..|s| - 1];
    if b == |s| - 1 {
      assert AllZero(init);
      ZeroSums(init, b as real);
    } else {
      assert IsTone(init, b);
      ToneSums(init, b);
    }
  }

  lemma {:induction false} ZeroSums(s: seq<real>, c: real)
    requires AllZero(s)
    ensures Sum(s) == 0.0 && WeightedSum(s) == 0.0 && SumSquares(s) == 0.0 && Spread(s, c) == 0.0
  {
    if s != [] {
      assert AllZero(s[..|s| - 1]);
      ZeroSums(s[..|s| - 1], c);
    }
  }

  /** A value p that is the square of a non-zero x is positive. */
  lemma SquarePositive(x: real, p: real)
    requires x != 0.0 && p == x * x
    ensures p > 0.0
  {
    if x > 0.0 {
      ProductPositive(x, x, p);
    } else {
      assert p == (-x) * (-x);
      ProductPositive(-x, -x, p);
    }
  }

  /** The product of two positive reals is positive. */
  lemma ProductPositive(a: real, b: real, p: real)
    requires a > 0.0 && b > 0.0 && p == a * b
    ensures p > 0.0
  {
  }

  /** No square is negative. */
  lemma SquareNonNegative(x: real)
    ensures x * x >= 0.0
  {
    if x < 0.0 {
      assert x * x == (-x) * (-x);
    }
  }

  /** 0 <= a <= c·b with b > 0 puts a / b between 0 and c. */
  lemma QuotientBounds(a: real, b: real, c: real)
    requires b > 0.0 && 0.0 <= a <= c * b
    ensures 0.0 <= a / b <= c
  {
    var q := a / b;
    assert q * b == a;
    if q > c {
      assert (q - c) * b > 0.0;
    }
  }
}
