/**
 * Cosine similarity over the reals: its bound (Cauchy–Schwarz) and the case of equality.
 *
 * The square root `x ** 0.5` is a parameter with its two defining properties.
 */
module CosineSimilarity {

  ghost predicate IsSqrt(sqrt: real -> real) {
    forall x :: x >= 0.0 ==> sqrt(x) >= 0.0 && sqrt(x) * sqrt(x) == x
  }

  function Dot(a: seq<real>, b: seq<real>): real
    requires |a| == |b|
  {
    if a == [] then 0.0 else a[0] * b[0] + Dot(a[1..], b[1..])
  }

  /** `_cosine_similarity`: 0 for vectors of different lengths and for a zero vector. */
  function Cosine(sqrt: real -> real, a: seq<real>, b: seq<real>): real {
    if |a| != |b| then 0.0 else Normalized(sqrt, Dot(a, a), Dot(a, b), Dot(b, b))
  }

  /** The inner product divided by both norms. */
  function Normalized(sqrt: real -> real, aa: real, ab: real, bb: real): real {
    var normA, normB := sqrt(aa), sqrt(bb);
    if normA == 0.0 || normB == 0.0 then 0.0
    else
      NonZeroProduct(normA, normB);
      ab / (normA * normB)
  }

  ghost predicate IsZero(a: seq<real>) {
    forall i :: 0 <= i < |a| ==> a[i] == 0.0
  }

  /** `a` is `t` times `b`. */
  ghost predicate Scaled(a: seq<real>, t: real, b: seq<real>) {
    |a| == |b| && forall i :: 0 <= i < |a| ==> a[i] == t * b[i]
  }

  /** `a - t * b`. */
  function Minus(a: seq<real>, t: real, b: seq<real>): (c: seq<real>)
    requires |a| == |b|
    ensures |c| == |a|
  {
    if a == [] then [] else [a[0] - t * b[0]] + Minus(a[1..], t, b[1..])
  }

  /* ---------- Facts about single numbers ---------- */

  lemma Commutes(x: real, y: real)
    ensures x * y == y * x
  {
  }

  lemma PositiveProduct(x: real, y: real)
    requires x > 0.0
    ensures x * y >= 0.0 <==> y >= 0.0
    ensures x * y == 0.0 <==> y == 0.0
    ensures x * y > 0.0 <==> y > 0.0
  {
  }

  lemma NonZeroProduct(x: real, y: real)
    requires x != 0.0 && y != 0.0
    ensures x * y != 0.0
  {
    PositiveProduct(if x > 0.0 then x else -x, y);
    assert (-x) * y == -(x * y);
  }

  lemma Square(x: real)
    ensures x * x >= 0.0
    ensures x * x == 0.0 <==> x == 0.0
  {
    if x > 0.0 {
      PositiveProduct(x, x);
    } else if x < 0.0 {
      PositiveProduct(-x, -x);
      assert (-x) * (-x) == x * x;
    }
  }

  lemma LinearStep(x: real, t: real, y: real, z: real, ad: real, bd: real)
    ensures (x - t * y) * z + (ad - t * bd) == (x * z + ad) - t * (y * z + bd)
  {
    assert (x - t * y) * z == x * z - t * (y * z);
    assert t * (y * z + bd) == t * (y * z) + t * bd;
  }

  lemma SquaresOrder(x: real, y: real)
    requires y >= 0.0
    ensures x * x <= y * y ==> -y <= x <= y
    ensures x * x == y * y && x >= 0.0 ==> x == y
  {
    if x * x <= y * y {
      if x > y {
        Increasing(y, x);
      } else if x < -y {
        Increasing(y, -x);
      }
    }
    if x * x == y * y && 0.0 <= x < y {
      Increasing(x, y);
    }
  }

  lemma Increasing(x: real, y: real)
    requires 0.0 <= x < y
    ensures x * x < y * y && y * y == (-y) * (-y)
  {
    PositiveProduct(y - x, y + x);
    assert (y - x) * (y + x) == y * y - x * x;
  }

  lemma ProductOfSquares(x: real, y: real)
    ensures (x * y) * (x * y) == (x * x) * (y * y)
  {
    assert (x * y) * (x * y) == x * (y * (x * y)) == x * (x * (y * y));
  }

  lemma QuotientSign(x: real, y: real)
    requires y > 0.0
    ensures x / y > 0.0 <==> x > 0.0
    ensures (x / y) * y == x
  {
    PositiveProduct(y, x / y);
  }

  lemma DivideBounds(d: real, m: real)
    requires m > 0.0
    ensures -m <= d <= m ==> -1.0 <= d / m <= 1.0
    ensures d / m == 1.0 <==> d == m
  {
    var q := d / m;
    QuotientSign(d, m);
    PositiveProduct(m, 1.0 - q);
    PositiveProduct(m, 1.0 + q);
    assert m * (1.0 - q) == m - m * q && m * (1.0 + q) == m + m * q;
  }

  lemma RootsPositive(sqrt: real -> real, x: real)
    requires IsSqrt(sqrt)
    ensures x > 0.0 ==> sqrt(x) > 0.0 && sqrt(x) * sqrt(x) == x
    ensures x == 0.0 ==> sqrt(x) == 0.0
  {
    if x >= 0.0 {
      Square(sqrt(x));
    }
  }

  lemma ClearDenominator(aa: real, ab: real, bb: real, t: real, gap: real)
    requires bb > 0.0 && t * bb == ab && gap == aa - t * ab
    ensures ab * ab <= aa * bb <==> gap >= 0.0
    ensures ab * ab == aa * bb <==> gap == 0.0
  {
    assert bb * gap == bb * aa - bb * (t * ab);
    assert bb * (t * ab) == (t * bb) * ab;
    PositiveProduct(bb, gap);
  }

  /** From the squared gap to the quotient: all that is needed about the numbers involved. */
  lemma QuotientBounds(aa: real, ab: real, bb: real, t: real, gap: real, na: real, nb: real)
    requires na > 0.0 && nb > 0.0 && na * na == aa && nb * nb == bb
    requires t * bb == ab && gap == aa - t * ab && gap >= 0.0
    ensures na * nb > 0.0 && -1.0 <= ab / (na * nb) <= 1.0
    ensures ab / (na * nb) == 1.0 <==> gap == 0.0 && t > 0.0
  {
    PositiveProduct(na, nb);
    PositiveProduct(nb, nb);
    ClearDenominator(aa, ab, bb, t, gap);
    ProductOfSquares(na, nb);
    SquaresOrder(ab, na * nb);
    DivideBounds(ab, na * nb);
    Commutes(t, bb);
    PositiveProduct(bb, t);
  }

  lemma NormalizedBounds(sqrt: real -> real, aa: real, ab: real, bb: real, t: real)
    requires IsSqrt(sqrt) && aa > 0.0 && bb > 0.0 && t * bb == ab && aa - t * ab >= 0.0
    ensures -1.0 <= Normalized(sqrt, aa, ab, bb) <= 1.0
    ensures Normalized(sqrt, aa, ab, bb) == 1.0 <==> aa - t * ab == 0.0 && t > 0.0
  {
    hide IsSqrt;
    RootsPositive(sqrt, aa);
    RootsPositive(sqrt, bb);
    QuotientBounds(aa, ab, bb, t, aa - t * ab, sqrt(aa), sqrt(bb));
    NormalizedIsQuotient(sqrt, aa, ab, bb);
    hide Normalized;
  }

  lemma NormalizedIsQuotient(sqrt: real -> real, aa: real, ab: real, bb: real)
    requires sqrt(aa) > 0.0 && sqrt(bb) > 0.0
    ensures sqrt(aa) * sqrt(bb) > 0.0 && Normalized(sqrt, aa, ab, bb) == ab / (sqrt(aa) * sqrt(bb))
  {
    PositiveProduct(sqrt(aa), sqrt(bb));
  }

  /* ---------- Facts about vectors ---------- */

  lemma ScaledCons(a: seq<real>, t: real, b: seq<real>)
    requires |a| == |b| && a != []
    ensures Scaled(a, t, b) <==> a[0] == t * b[0] && Scaled(a[1..], t, b[1..])
  {
    if a[0] == t * b[0] && Scaled(a[1..], t, b[1..]) {
      forall i | 0 <= i < |a|
        ensures a[i] == t * b[i]
      {
        if i > 0 {
          assert a[1..][i - 1] == t * b[1..][i - 1];
        }
      }
    }
  }

  lemma {:induction false} DotSymmetric(a: seq<real>, b: seq<real>)
    requires |a| == |b|
    ensures Dot(a, b) == Dot(b, a)
  {
    if a != [] {
      DotSymmetric(a[1..], b[1..]);
    }
  }

  lemma {:induction false} DotLinear(a: seq<real>, t: real, b: seq<real>, d: seq<real>)
    requires |a| == |b| == |d|
    ensures Dot(Minus(a, t, b), d) == Dot(a, d) - t * Dot(b, d)
  {
    if a != [] {
      DotLinear(a[1..], t, b[1..], d[1..]);
      assert Minus(a, t, b)[1..] == Minus(a[1..], t, b[1..]);
      LinearStep(a[0], t, b[0], d[0], Dot(a[1..], d[1..]), Dot(b[1..], d[1..]));
    }
  }

  lemma {:induction false} SelfDotPositive(a: seq<real>)
    ensures Dot(a, a) >= 0.0
  {
    if a != [] {
      Square(a[0]);
      SelfDotPositive(a[1..]);
    }
  }

  lemma {:induction false} SelfDotZero(a: seq<real>)
    ensures Dot(a, a) == 0.0 <==> IsZero(a)
  {
    if a != [] {
      Square(a[0]);
      SelfDotZero(a[1..]);
      SelfDotPositive(a[1..]);
      assert a == [a[0]] + a[1..];
    }
  }

  lemma {:induction false} MinusZero(a: seq<real>, t: real, b: seq<real>)
    requires |a| == |b|
    ensures IsZero(Minus(a, t, b)) <==> Scaled(a, t, b)
  {
    if a != [] {
      var c := Minus(a, t, b);
      MinusZero(a[1..], t, b[1..]);
      ScaledCons(a, t, b);
      assert c == [c[0]] + c[1..] && c[1..] == Minus(a[1..], t, b[1..]);
    }
  }

  lemma GapZero(a: seq<real>, t: real, b: seq<real>)
    requires |a| == |b|
    ensures Dot(Minus(a, t, b), Minus(a, t, b)) == 0.0 <==> Scaled(a, t, b)
  {
    SelfDotZero(Minus(a, t, b));
    MinusZero(a, t, b);
  }

  /** With the best scale `t` the gap is orthogonal to `b`. */
  lemma GapOrthogonal(a: seq<real>, t: real, b: seq<real>)
    requires |a| == |b| && t * Dot(b, b) == Dot(a, b)
    ensures Dot(Minus(a, t, b), b) == 0.0
  {
    DotLinear(a, t, b, b);
  }

  lemma GapAgainstItself(a: seq<real>, t: real, b: seq<real>)
    requires |a| == |b| && Dot(Minus(a, t, b), b) == 0.0
    ensures Dot(Minus(a, t, b), Minus(a, t, b)) == Dot(Minus(a, t, b), a)
  {
    var c := Minus(a, t, b);
    DotLinear(a, t, b, c);
    DotSymmetric(b, c);
    DotSymmetric(a, c);
  }

  lemma GapAgainstFirst(a: seq<real>, t: real, b: seq<real>)
    requires |a| == |b|
    ensures Dot(Minus(a, t, b), a) == Dot(a, a) - t * Dot(a, b)
  {
    DotLinear(a, t, b, a);
    DotSymmetric(a, b);
  }

  /**
   * Cauchy–Schwarz, without its denominator: at the best scale `t` the squared gap between `a` and
   * `t * b` is `a.a - t * (a.b)`, so this is never negative, and zero exactly for `a == t * b`.
   */
  lemma CauchySchwarz(a: seq<real>, t: real, b: seq<real>)
    requires |a| == |b| && t * Dot(b, b) == Dot(a, b)
    ensures Dot(a, a) - t * Dot(a, b) >= 0.0
    ensures Dot(a, a) - t * Dot(a, b) == 0.0 <==> Scaled(a, t, b)
  {
    GapOrthogonal(a, t, b);
    GapAgainstItself(a, t, b);
    GapAgainstFirst(a, t, b);
    SelfDotPositive(Minus(a, t, b));
    GapZero(a, t, b);
  }

  lemma DistributeStep(x: real, t: real, y: real, ab: real, bb: real)
    requires x == t * y && ab == t * bb
    ensures x * y + ab == t * (y * y + bb)
  {
    assert t * (y * y + bb) == t * (y * y) + t * bb;
    assert t * (y * y) == (t * y) * y;
  }

  lemma {:induction false} ScaledDot(a: seq<real>, t: real, b: seq<real>)
    requires Scaled(a, t, b)
    ensures Dot(a, b) == t * Dot(b, b)
  {
    if a != [] {
      ScaledCons(a, t, b);
      ScaledDot(a[1..], t, b[1..]);
      DistributeStep(a[0], t, b[0], Dot(a[1..], b[1..]), Dot(b[1..], b[1..]));
    }
  }

  /* ---------- The score ---------- */

  lemma NonZeroPositive(a: seq<real>)
    ensures Dot(a, a) > 0.0 <==> !IsZero(a)
  {
    SelfDotPositive(a);
    SelfDotZero(a);
  }

  lemma CosineOfZero(sqrt: real -> real, a: seq<real>, b: seq<real>)
    requires IsSqrt(sqrt) && (|a| != |b| || IsZero(a) || IsZero(b))
    ensures Cosine(sqrt, a, b) == 0.0
  {
    SelfDotZero(a);
    SelfDotZero(b);
    RootsPositive(sqrt, Dot(a, a));
    RootsPositive(sqrt, Dot(b, b));
  }

  /** The factor at which `t * b` comes closest to `a`. */
  predicate BestScale(a: seq<real>, t: real, b: seq<real>)
    requires |a| == |b|
  {
    t * Dot(b, b) == Dot(a, b)
  }

  lemma BestScaleExists(a: seq<real>, b: seq<real>)
    requires |a| == |b| && !IsZero(b)
    ensures exists t :: BestScale(a, t, b)
  {
    SelfDotPositive(b);
    SelfDotZero(b);
    QuotientSign(Dot(a, b), Dot(b, b));
    assert BestScale(a, Dot(a, b) / Dot(b, b), b);
  }

  lemma CosineIsNormalized(sqrt: real -> real, a: seq<real>, b: seq<real>)
    requires |a| == |b|
    ensures Cosine(sqrt, a, b) == Normalized(sqrt, Dot(a, a), Dot(a, b), Dot(b, b))
  {
    hide Dot;
    hide Normalized;
  }

  /** The inner product is the sum of the products, place by place. */
  lemma {:induction false} DotAdds(a: seq<real>, b: seq<real>, x: real, y: real)
    requires |a| == |b|
    ensures Dot(a + [x], b + [y]) == Dot(a, b) + x * y
    ensures Dot([], []) == 0.0
  {
    if a == [] {
      assert a + [x] == [x] && b + [y] == [y] && [x][1..] == [] && [y][1..] == [];
    } else {
      DotAdds(a[1..], b[1..], x, y);
      assert (a + [x])[1..] == a[1..] + [x] && (b + [y])[1..] == b[1..] + [y];
    }
  }

  /** The score times both norms is the inner product. */
  lemma CosineTimesNorms(sqrt: real -> real, a: seq<real>, b: seq<real>)
    requires IsSqrt(sqrt) && |a| == |b| && !IsZero(a) && !IsZero(b)
    ensures Cosine(sqrt, a, b) * (sqrt(Dot(a, a)) * sqrt(Dot(b, b))) == Dot(a, b)
  {
    NonZeroPositive(a);
    NonZeroPositive(b);
    RootsPositive(sqrt, Dot(a, a));
    RootsPositive(sqrt, Dot(b, b));
    hide Dot, IsSqrt;
    NormalizedIsQuotient(sqrt, Dot(a, a), Dot(a, b), Dot(b, b));
    QuotientSign(Dot(a, b), sqrt(Dot(a, a)) * sqrt(Dot(b, b)));
  }

  /** The score of non-zero vectors, in terms of the best scale. */
  lemma CosineAtScale(sqrt: real -> real, a: seq<real>, b: seq<real>, t: real)
    requires IsSqrt(sqrt) && |a| == |b| && !IsZero(a) && !IsZero(b) && t * Dot(b, b) == Dot(a, b)
    ensures -1.0 <= Cosine(sqrt, a, b) <= 1.0
    ensures Cosine(sqrt, a, b) == 1.0 <==> t > 0.0 && Scaled(a, t, b)
  {
    hide *;
    CosineIsNormalized(sqrt, a, b);
    NonZeroPositive(a);
    NonZeroPositive(b);
    CauchySchwarz(a, t, b);
    NormalizedBounds(sqrt, Dot(a, a), Dot(a, b), Dot(b, b), t);
  }

  /** Every score lies between -1 and 1. */
  lemma CosineBounded(sqrt: real -> real, a: seq<real>, b: seq<real>)
    requires IsSqrt(sqrt)
    ensures -1.0 <= Cosine(sqrt, a, b) <= 1.0
  {
    if |a| == |b| && !IsZero(a) && !IsZero(b) {
      BestScaleExists(a, b);
      var t :| BestScale(a, t, b);
      CosineAtScale(sqrt, a, b, t);
    } else {
      CosineOfZero(sqrt, a, b);
    }
  }

  lemma ScaledZero(a: seq<real>, t: real, b: seq<real>)
    requires t > 0.0 && Scaled(a, t, b)
    ensures IsZero(a) <==> IsZero(b)
  {
    forall i | 0 <= i < |a|
      ensures a[i] == 0.0 <==> b[i] == 0.0
    {
      PositiveProduct(t, b[i]);
    }
  }

  /** The score is 1 exactly for non-zero vectors that are positive multiples of each other. */
  lemma CosineOneExactly(sqrt: real -> real, a: seq<real>, b: seq<real>)
    requires IsSqrt(sqrt)
    ensures Cosine(sqrt, a, b) == 1.0 <==> !IsZero(b) && exists t :: t > 0.0 && Scaled(a, t, b)
  {
    if |a| == |b| && !IsZero(a) && !IsZero(b) {
      BestScaleExists(a, b);
      var best :| BestScale(a, best, b);
      CosineAtScale(sqrt, a, b, best);
      forall t | t > 0.0 && Scaled(a, t, b)
        ensures Cosine(sqrt, a, b) == 1.0
      {
        ScaledDot(a, t, b);
        CosineAtScale(sqrt, a, b, t);
      }
    } else {
      CosineOfZero(sqrt, a, b);
      forall t | t > 0.0 && Scaled(a, t, b)
        ensures IsZero(b)
      {
        ScaledZero(a, t, b);
      }
    }
  }

  /** A non-zero vector scores 1 against itself. */
  lemma CosineSelf(sqrt: real -> real, a: seq<real>)
    requires IsSqrt(sqrt) && !IsZero(a)
    ensures Cosine(sqrt, a, a) == 1.0
  {
    assert Scaled(a, 1.0, a);
    CosineOneExactly(sqrt, a, a);
  }
}
