/** The integer part of cosine similarity on int8 vectors: three accumulators and the bounds between them. */
module Cosine {
  import opened Wrappers
  import opened Bytes
  import opened Types

  const I64_MIN: int := -I64_MAX - 1

  /** 2^49: below this length no accumulator can leave `i64`. */
  const SAFE_LENGTH: nat := 0x2_0000_0000_0000

  function Dot(a: seq<i8>, b: seq<i8>): int
    requires |a| == |b|
  {
    if a == [] then 0 else
    var x: int, y: int := a[|a| - 1], b[|b| - 1];
    Dot(a[..|a| - 1], b[..|b| - 1]) + x * y
  }

  /** One product of two int8 values. */
  lemma {:induction false} ProductBound(x: int, y: int)
    requires -128 <= x < 128 && -128 <= y < 128
    ensures -16384 <= x * y <= 16384
  {
    if x >= 0 {
      assert x * y <= x * 128;
      assert x * y >= x * -128;
    } else {
      assert x * y <= x * -128;
      assert x * y >= x * 128;
    }
  }

  lemma {:induction false} DotBound(a: seq<i8>, b: seq<i8>)
    requires |a| == |b|
    ensures -16384 * |a| <= Dot(a, b) <= 16384 * |a|
  {
    if a != [] {
      DotBound(a[..|a| - 1], b[..|b| - 1]);
      ProductBound(a[|a| - 1], b[|b| - 1]);
    }
  }

  predicate FitsI64(n: int)
  {
    I64_MIN <= n <= I64_MAX
  }

  // ---------- dot^2 <= norm_a * norm_b ----------

  /** The squared length of `t * a + u * b`. */
  function Quadratic(a: seq<i8>, b: seq<i8>, t: int, u: int): (q: int)
    requires |a| == |b|
    ensures q >= 0
  {
    if a == [] then 0 else
    var x: int, y: int := a[|a| - 1], b[|b| - 1];
    var w := t * x + u * y;
    Quadratic(a[..|a| - 1], b[..|b| - 1], t, u) + Square(w)
  }

  function Square(w: int): (s: int)
    ensures s >= 0 && s == w * w
  {
    if w >= 0 then w * w else (-w) * (-w)
  }

  lemma {:induction false} Rearrange(t: int, x: int, u: int, y: int)
    ensures (t * x) * (u * y) == t * u * (x * y)
  {
  }

  lemma {:induction false} QuadraticExpands(a: seq<i8>, b: seq<i8>, t: int, u: int)
    requires |a| == |b|
    ensures Quadratic(a, b, t, u) == t * t * Dot(a, a) + 2 * t * u * Dot(a, b) + u * u * Dot(b, b)
  {
    if a != [] {
      var a0, b0 := a[..|a| - 1], b[..|b| - 1];
      var x: int, y: int := a[|a| - 1], b[|b| - 1];
      QuadraticExpands(a0, b0, t, u);
      assert Square(t * x + u * y) == t * t * (x * x) + 2 * t * u * (x * y) + u * u * (y * y) by {
        var p, q := t * x, u * y;
        Rearrange(t, x, t, x);
        Rearrange(u, y, u, y);
        Rearrange(t, x, u, y);
      }
      assert (t * t) * (Dot(a0, a0) + (x * x)) == (t * t) * Dot(a0, a0) + (t * t) * (x * x);
      assert (2 * t * u) * (Dot(a0, b0) + (x * y)) == (2 * t * u) * Dot(a0, b0) + (2 * t * u) * (x * y);
      assert (u * u) * (Dot(b0, b0) + (y * y)) == (u * u) * Dot(b0, b0) + (u * u) * (y * y);
    }
  }

  lemma {:induction false} NormZero(a: seq<i8>, b: seq<i8>)
    requires |a| == |b|
    ensures Dot(b, b) >= 0
    ensures Dot(b, b) == 0 ==> Dot(a, b) == 0 && forall i :: 0 <= i < |b| ==> b[i] == 0
  {
    if a != [] {
      var y: int := b[|b| - 1];
      NormZero(a[..|a| - 1], b[..|b| - 1]);
    }
  }

  /** Cauchy-Schwarz for the accumulators: the exact form of the documented score range -1..1. */
  lemma {:induction false} DotSquaredAtMostNorms(a: seq<i8>, b: seq<i8>)
    requires |a| == |b|
    ensures Dot(a, b) * Dot(a, b) <= Dot(a, a) * Dot(b, b)
    ensures a == b ==> Dot(a, b) * Dot(a, b) == Dot(a, a) * Dot(b, b)
  {
    var d, p, q := Dot(a, b), Dot(a, a), Dot(b, b);
    NormZero(a, b);
    if q > 0 {
      QuadraticExpands(a, b, q, -d);
    }
  }

  /** The three sums of `cosine_similarity`, each within `i64` at every step. */
  method Accumulate(a: seq<i8>, b: seq<i8>) returns (dotProduct: int, normA: int, normB: int)
    requires |a| == |b| < SAFE_LENGTH
    ensures dotProduct == Dot(a, b) && normA == Dot(a, a) && normB == Dot(b, b)
    ensures FitsI64(dotProduct) && FitsI64(normA) && FitsI64(normB)
  {
    dotProduct, normA, normB := 0, 0, 0;
    for i := 0 to |a|
      invariant dotProduct == Dot(a[..i], b[..i]) && normA == Dot(a[..i], a[..i]) && normB == Dot(b[..i], b[..i])
      invariant FitsI64(dotProduct) && FitsI64(normA) && FitsI64(normB)
    {
      assert a[..i + 1][..i] == a[..i] && b[..i + 1][..i] == b[..i];
      var x: int, y: int := a[i], b[i];
      dotProduct := dotProduct + x * y;
      normA := normA + x * x;
      normB := normB + y * y;
      DotBound(a[..i + 1], b[..i + 1]);
      DotBound(a[..i + 1], a[..i + 1]);
      DotBound(b[..i + 1], b[..i + 1]);
    }
    assert a[..|a|] == a && b[..|b|] == b;
  }

  /** The length limit is the exact one: at 2^49 the norm of the all -128 vector no longer fits. */
  lemma {:induction false} LimitIsExact(a: seq<i8>)
    requires forall i :: 0 <= i < |a| ==> a[i] == -128
    ensures Dot(a, a) == 16384 * |a|
    ensures FitsI64(Dot(a, a)) <==> |a| < SAFE_LENGTH
  {
    NormOfMinimum(a);
  }

  lemma {:induction false} NormOfMinimum(a: seq<i8>)
    requires forall i :: 0 <= i < |a| ==> a[i] == -128
    ensures Dot(a, a) == 16384 * |a|
  {
    if a != [] {
      NormOfMinimum(a[..|a| - 1]);
    }
  }

  // ---------- The score ----------

  /** A score as the square of the cosine, with the cosine's sign: the same order, no square root. */
  type Score = real

  function SignedSquare(dot: int): int
  {
    if dot >= 0 then dot * dot else -(dot * dot)
  }

  /** `cosine_similarity`, exact; `None` for unequal lengths and for empty vectors. */
  method CosineSimilarity(a: seq<i8>, b: seq<i8>) returns (score: Option<Score>)
    requires |a| < SAFE_LENGTH
    ensures score == Similarity(a, b)
  {
    if |a| != |b| || a == [] {
      return None;
    }
    var dot, normA, normB := Accumulate(a, b);
    NormZero(b, a);
    NormZero(a, b);
    if normA == 0 || normB == 0 {
      return Some(0.0);
    }
    assert normA * normB != 0;
    return Some(SignedSquare(dot) as real / (normA * normB) as real);
  }

  function Similarity(a: seq<i8>, b: seq<i8>): Option<Score>
  {
    if |a| != |b| || a == [] then None
    else if Dot(a, a) == 0 || Dot(b, b) == 0 then Some(0.0)
    else Some(SignedSquare(Dot(a, b)) as real / (Dot(a, a) * Dot(b, b)) as real)
  }

  /** A score is within -1..1, and 1 for a vector compared with itself, unless that is all zeros. */
  lemma {:induction false} ScoreRange(a: seq<i8>, b: seq<i8>)
    requires |a| == |b| > 0
    ensures
      var s := Similarity(a, b);
      && s.Some? && -1.0 <= s.value <= 1.0
      && (a == b ==> s.value == if forall i :: 0 <= i < |a| ==> a[i] == 0 then 0.0 else 1.0)
      && Similarity(b, a) == s
  {
    NormZero(b, a);
    NormZero(a, b);
    DotSquaredAtMostNorms(a, b);
    DotCommutes(a, b);
    var n, d := Dot(a, a) * Dot(b, b), Dot(a, b);
    if Dot(a, a) > 0 && Dot(b, b) > 0 {
      assert n > 0;
      assert d * d >= 0 by { assert Square(d) >= 0; }
      QuotientRange(SignedSquare(d), n);
    }
    if a == b && !(forall i :: 0 <= i < |a| ==> a[i] == 0) {
      assert Dot(a, a) != 0;
      assert SignedSquare(d) == n;
    }
    if a == b && forall i :: 0 <= i < |a| ==> a[i] == 0 {
      ZeroNorm(a);
    }
  }

  /**
   * What a score says: it has the sign of the dot product, and its size is the square of the cosine. Two zero
   * vectors score zero.
   */
  lemma {:induction false} ScoreMeans(a: seq<i8>, b: seq<i8>)
    requires |a| == |b| > 0
    ensures Similarity(a, b).Some?
    ensures
      var s, d, n := Similarity(a, b).value, Dot(a, b), (Dot(a, a) * Dot(b, b)) as real;
      && (s > 0.0 <==> d > 0) && (s < 0.0 <==> d < 0)
      && (if s < 0.0 then -s else s) * n == (d * d) as real
  {
    NormZero(b, a);
    NormZero(a, b);
    DotCommutes(a, b);
    var d, n := Dot(a, b), Dot(a, a) * Dot(b, b);
    if Dot(a, a) > 0 && Dot(b, b) > 0 {
      assert n > 0;
      assert d != 0 ==> d * d > 0 by { assert d != 0 ==> Square(d) > 0; }
      QuotientSign(SignedSquare(d), n);
    } else {
      assert d == 0;
    }
  }

  lemma {:induction false} QuotientSign(x: int, n: int)
    requires n > 0
    ensures
      var q := x as real / n as real;
      && q * n as real == x as real
      && (q > 0.0 <==> x > 0) && (q < 0.0 <==> x < 0)
  {
    var q, m := x as real / n as real, n as real;
    assert q * m == x as real;
    assert q > 0.0 ==> q * m > 0.0;
    assert q < 0.0 ==> q * m < 0.0;
  }

  /** Every element negated; -128 has no negative. */
  function Opposite(a: seq<i8>): (r: seq<i8>)
    requires forall i :: 0 <= i < |a| ==> a[i] > -128
    ensures |r| == |a|
  {
    seq(|a|, i requires 0 <= i < |a| => -a[i])
  }

  lemma {:induction false} OppositeDot(a: seq<i8>, b: seq<i8>)
    requires |a| == |b| && forall i :: 0 <= i < |a| ==> a[i] > -128
    ensures Dot(Opposite(a), b) == -Dot(a, b) && Dot(Opposite(a), Opposite(a)) == Dot(a, a)
  {
    if a != [] {
      var n := |a| - 1;
      OppositeDot(a[..n], b[..n]);
      assert Opposite(a)[..n] == Opposite(a[..n]);
      var x: int, y: int := a[n], b[n];
      assert -x * y == -(x * y);
      assert -x * -x == x * x;
    }
  }

  /** The opposite vector has the opposite score. */
  lemma {:induction false} OppositeScore(a: seq<i8>, b: seq<i8>)
    requires |a| == |b| > 0 && forall i :: 0 <= i < |a| ==> a[i] > -128
    ensures Similarity(a, b).Some? && Similarity(Opposite(a), b) == Some(-Similarity(a, b).value)
  {
    OppositeDot(a, b);
    NormZero(b, a);
    NormZero(a, b);
    var d, n := Dot(a, b), Dot(a, a) * Dot(b, b);
    assert -d * -d == d * d;
    if n != 0 {
      assert SignedSquare(-d) == -SignedSquare(d) by {
        assert d > 0 || d == 0 || d < 0;
      }
      QuotientNegates(SignedSquare(d), n);
    }
  }

  lemma {:induction false} QuotientNegates(x: int, n: int)
    requires n != 0
    ensures (-x) as real / n as real == -(x as real / n as real)
  {
    var q, q', m := x as real / n as real, (-x) as real / n as real, n as real;
    assert (q + q') * m == 0.0;
  }

  lemma {:induction false} QuotientRange(x: int, n: int)
    requires n > 0 && -n <= x <= n
    ensures -1.0 <= x as real / n as real <= 1.0
    ensures x == n ==> x as real / n as real == 1.0
  {
    assert x as real <= n as real;
    assert -(n as real) <= x as real;
  }

  lemma {:induction false} ZeroNorm(a: seq<i8>)
    requires forall i :: 0 <= i < |a| ==> a[i] == 0
    ensures Dot(a, a) == 0
  {
    if a != [] {
      ZeroNorm(a[..|a| - 1]);
    }
  }

  lemma {:induction false} DotCommutes(a: seq<i8>, b: seq<i8>)
    requires |a| == |b|
    ensures Dot(a, b) == Dot(b, a)
  {
    if a != [] {
      DotCommutes(a[..|a| - 1], b[..|b| - 1]);
    }
  }
}
