/** Cosine similarity of embeddings, over the reals. */
module Cosine {
  type Vector = seq<real>

  /** `zip(a, b, strict=False)` stops at the shorter vector. */
  function Dot(a: Vector, b: Vector): real {
    if a == [] || b == [] then 0.0 else a[0] * b[0] + Dot(a[1..], b[1..])
  }

  function Squares(a: Vector): real {
    if a == [] then 0.0 else a[0] * a[0] + Squares(a[1..])
  }

  /** t*a - u*b, pointwise. */
  function Combine(t: real, a: Vector, u: real, b: Vector): Vector
    requires |a| == |b|
  {
    if a == [] then [] else [t * a[0] - u * b[0]] + Combine(t, a[1..], u, b[1..])
  }

  function Scale(k: real, a: Vector): Vector {
    if a == [] then [] else [k * a[0]] + Scale(k, a[1..])
  }

  /** One more component on either side adds its product; what one vector has beyond the other adds nothing. */
  lemma {:induction false} DotAppends(a: Vector, b: Vector, x: real, y: real)
    requires |a| == |b|
    ensures Dot(a + [x], b + [y]) == Dot(a, b) + x * y
    ensures Dot(a + [x], b) == Dot(a, b) == Dot(a, b + [y])
    ensures Dot([], b) == 0.0 == Dot(a, [])
  {
    if a != [] {
      assert (a + [x])[1..] == a[1..] + [x] && (b + [y])[1..] == b[1..] + [y];
      DotAppends(a[1..], b[1..], x, y);
    }
  }

  lemma SquareIsNonNegative(x: real)
    ensures x * x >= 0.0
    ensures x != 0.0 ==> x * x > 0.0
  {
    if x < 0.0 {
      assert x * x == (-x) * (-x);
    }
  }

  lemma {:induction false} SquaresNonNegative(a: Vector)
    ensures Squares(a) >= 0.0
    ensures Squares(a) == 0.0 ==> forall i | 0 <= i < |a| :: a[i] == 0.0
  {
    if a != [] {
      var head, rest := a[0] * a[0], Squares(a[1..]);
      SquareIsNonNegative(a[0]);
      SquaresNonNegative(a[1..]);
      if Squares(a) == 0.0 {
        assert head == 0.0 && rest == 0.0;
        ProductIsZero(a[0], a[0]);
        forall i | 0 <= i < |a| ensures a[i] == 0.0 {
          if i > 0 { assert a[i] == a[1..][i - 1]; }
        }
      }
    }
  }

  lemma Binomial(t: real, x: real, u: real, y: real)
    ensures (t * x - u * y) * (t * x - u * y) == t * t * (x * x) - 2.0 * t * u * (x * y) + u * u * (y * y)
  {
    var p, q := t * x, u * y;
    assert (p - q) * (p - q) == p * p - 2.0 * (p * q) + q * q;
    assert p * p == t * t * (x * x);
    assert q * q == u * u * (y * y);
    assert p * q == t * u * (x * y);
  }

  /** The squared length of t*a - u*b is a quadratic form in t and u. */
  function Form(t: real, A: real, u: real, B: real, D: real): real {
    t * t * A - 2.0 * t * u * D + u * u * B
  }

  lemma FormIsLinear(
      t: real, A: real, A': real, sumA: real, u: real, B: real, B': real, sumB: real, D: real, D': real, sumD: real)
    requires sumA == A + A' && sumB == B + B' && sumD == D + D'
    ensures Form(t, sumA, u, sumB, sumD) == Form(t, A, u, B, D) + Form(t, A', u, B', D')
  {
    Distribute(t * t, A, A');
    Distribute(2.0 * t * u, D, D');
    Distribute(u * u, B, B');
  }

  lemma FormOfOne(t: real, x: real, u: real, y: real)
    ensures (t * x - u * y) * (t * x - u * y) == Form(t, x * x, u, y * y, x * y)
    ensures Form(t, 0.0, u, 0.0, 0.0) == 0.0
  {
    Binomial(t, x, u, y);
  }

  /** One component more on both sides. */
  lemma Unfold(t: real, a: Vector, u: real, b: Vector)
    requires |a| == |b| && a != []
    ensures Squares(a) == a[0] * a[0] + Squares(a[1..]) && Squares(b) == b[0] * b[0] + Squares(b[1..])
    ensures Dot(a, b) == a[0] * b[0] + Dot(a[1..], b[1..])
    ensures
      var head := t * a[0] - u * b[0];
      Squares(Combine(t, a, u, b)) == head * head + Squares(Combine(t, a[1..], u, b[1..]))
  {
    var head, rest := t * a[0] - u * b[0], Combine(t, a[1..], u, b[1..]);
    assert ([head] + rest)[1..] == rest;
  }

  lemma {:induction false} QuadraticForm(t: real, a: Vector, u: real, b: Vector)
    requires |a| == |b|
    ensures Squares(Combine(t, a, u, b)) == Form(t, Squares(a), u, Squares(b), Dot(a, b))
  {
    if a == [] {
      hide Form;
      FormOfOne(t, 0.0, u, 0.0);
    } else {
      hide Form, Squares, Dot, Combine;
      var x, y := a[0], b[0];
      Unfold(t, a, u, b);
      QuadraticForm(t, a[1..], u, b[1..]);
      FormOfOne(t, x, u, y);
      FormIsLinear(t, x * x, Squares(a[1..]), Squares(a), u, y * y, Squares(b[1..]), Squares(b),
                   x * y, Dot(a[1..], b[1..]), Dot(a, b));
    }
  }

  lemma Distribute(k: real, x: real, y: real)
    ensures k * (x + y) == k * x + k * y
  {
  }

  // ----- Cauchy-Schwarz -----

  /** The form at t = |b|^2, u = a.b is |b|^2 times the defect of Cauchy-Schwarz. */
  lemma FormAtDefect(A: real, B: real, D: real)
    ensures Form(B, A, D, B, D) == B * (A * B - D * D)
  {
    var p, q := A * B, D * D;
    assert B * B * A == B * p;
    assert 2.0 * B * D * D == 2.0 * (B * q);
    assert D * D * B == B * q;
    assert B * (p - q) == B * p - B * q;
  }

  lemma DefectSign(A: real, B: real, D: real)
    requires B > 0.0 && Form(B, A, D, B, D) >= 0.0
    ensures D * D <= A * B
    ensures D * D == A * B <==> Form(B, A, D, B, D) == 0.0
  {
    FormAtDefect(A, B, D);
    hide Form;
    PositiveFactor(B, A * B - D * D);
  }

  lemma {:induction false} ZeroVectorDot(a: Vector, b: Vector)
    requires forall i | 0 <= i < |b| :: b[i] == 0.0
    ensures Dot(a, b) == 0.0
  {
    if a != [] && b != [] {
      ZeroVectorDot(a[1..], b[1..]);
    }
  }

  lemma CauchySchwarzEqualLengths(a: Vector, b: Vector)
    requires |a| == |b|
    ensures Dot(a, b) * Dot(a, b) <= Squares(a) * Squares(b)
  {
    hide Squares, Dot, Combine, Form;
    var A, B, D := Squares(a), Squares(b), Dot(a, b);
    SquaresNonNegative(b);
    if B == 0.0 {
      ZeroVectorDot(a, b);
    } else {
      QuadraticForm(B, a, D, b);
      SquaresNonNegative(Combine(B, a, D, b));
      DefectSign(A, B, D);
    }
  }

  lemma PositiveFactor(b: real, x: real)
    requires b > 0.0 && b * x >= 0.0
    ensures x >= 0.0
    ensures b * x == 0.0 ==> x == 0.0
  {
    assert x == b * x / b;
  }

  lemma {:induction false} DotTruncates(a: Vector, b: Vector)
    requires |a| <= |b|
    ensures Dot(a, b) == Dot(a, b[..|a|]) && Squares(b[..|a|]) <= Squares(b)
  {
    if a == [] {
      SquaresNonNegative(b);
    } else {
      DotTruncates(a[1..], b[1..]);
      assert b[..|a|][1..] == b[1..][..|a| - 1];
    }
  }

  lemma {:induction false} DotSymmetric(a: Vector, b: Vector)
    ensures Dot(a, b) == Dot(b, a)
  {
    if a != [] && b != [] { DotSymmetric(a[1..], b[1..]); }
  }

  lemma CauchySchwarzShorterFirst(a: Vector, b: Vector)
    requires |a| <= |b|
    ensures Dot(a, b) * Dot(a, b) <= Squares(a) * Squares(b)
  {
    hide Squares, Dot;
    var c := b[..|a|];
    DotTruncates(a, b);
    CauchySchwarzEqualLengths(a, c);
    SquaresNonNegative(a);
    Monotone(Squares(a), Squares(c), Squares(b));
  }

  lemma Monotone(k: real, x: real, y: real)
    requires k >= 0.0 && x <= y
    ensures k * x <= k * y
  {
    assert k * (y - x) >= 0.0;
    Distribute(k, x, y - x);
  }

  /** For any two vectors, of any lengths: the dot product runs over the shorter, the norms over all. */
  lemma CauchySchwarz(a: Vector, b: Vector)
    ensures Dot(a, b) * Dot(a, b) <= Squares(a) * Squares(b)
  {
    hide Squares, Dot;
    if |a| <= |b| {
      CauchySchwarzShorterFirst(a, b);
    } else {
      CauchySchwarzShorterFirst(b, a);
      DotSymmetric(a, b);
      assert Squares(a) * Squares(b) == Squares(b) * Squares(a);
    }
  }

  // ----- the similarity -----

  /** `n` is the square root of the sum of squares. */
  ghost predicate IsNorm(n: real, a: Vector) { n >= 0.0 && n * n == Squares(a) }

  datatype Similarity = Similar(value: real) | ZeroDivision

  function Cosine(a: Vector, b: Vector, na: real, nb: real): Similarity {
    if na * nb == 0.0 then ZeroDivision else Similar(Dot(a, b) / (na * nb))
  }

  ghost predicate IsZero(a: Vector) { forall i | 0 <= i < |a| :: a[i] == 0.0 }

  lemma {:induction false} ZeroSquares(a: Vector)
    requires IsZero(a)
    ensures Squares(a) == 0.0
  {
    if a != [] { ZeroSquares(a[1..]); }
  }

  lemma ProductIsZero(x: real, y: real)
    requires x * y == 0.0
    ensures x == 0.0 || y == 0.0
  {
    if x != 0.0 { assert y == x * y / x; }
  }

  lemma NormIsZeroIff(n: real, a: Vector)
    requires IsNorm(n, a)
    ensures n == 0.0 <==> IsZero(a)
  {
    hide Squares;
    SquaresNonNegative(a);
    if IsZero(a) {
      ZeroSquares(a);
      ProductIsZero(n, n);
    }
  }

  /** The helper divides by zero exactly when one of the vectors is zero. */
  lemma DividesByZeroIff(a: Vector, b: Vector, na: real, nb: real)
    requires IsNorm(na, a) && IsNorm(nb, b)
    ensures Cosine(a, b, na, nb) == ZeroDivision <==> IsZero(a) || IsZero(b)
  {
    hide Squares, Dot;
    NormIsZeroIff(na, a);
    NormIsZeroIff(nb, b);
    if na * nb == 0.0 { ProductIsZero(na, nb); }
  }

  lemma LargerSquare(x: real, p: real)
    requires 0.0 <= p < x
    ensures p * p < x * x
  {
    var d := x - p;
    PositiveProduct(d, x);
    Monotone(d, 0.0, p);
    assert x * x - p * p == d * x + d * p;
  }

  lemma PositiveProduct(x: real, y: real)
    requires x > 0.0 && y > 0.0
    ensures x * y > 0.0
  {
  }

  lemma SquareBound(d: real, p: real)
    requires p > 0.0 && d * d <= p * p
    ensures -1.0 <= d / p <= 1.0
  {
    if d > p { LargerSquare(d, p); }
    if -d > p { LargerSquare(-d, p); }
    Quotient(d, p);
  }

  lemma Quotient(d: real, p: real)
    requires p > 0.0 && -p <= d <= p
    ensures -1.0 <= d / p <= 1.0
  {
    var q := d / p;
    assert q * p == d;
    if q > 1.0 { PositiveProduct(q - 1.0, p); }
    if q < -1.0 { PositiveProduct(-1.0 - q, p); }
  }

  lemma SquareOfProduct(x: real, y: real)
    ensures (x * y) * (x * y) == (x * x) * (y * y)
  {
  }

  lemma NormProduct(a: Vector, b: Vector, na: real, nb: real)
    requires IsNorm(na, a) && IsNorm(nb, b)
    ensures (na * nb) * (na * nb) == Squares(a) * Squares(b) && na * nb >= 0.0
  {
    hide Squares;
    SquareOfProduct(na, nb);
  }

  /** MAIN RESULT: a similarity lies between -1 and 1, whatever the two lengths. */
  lemma CosineInRange(a: Vector, b: Vector, na: real, nb: real)
    requires IsNorm(na, a) && IsNorm(nb, b) && Cosine(a, b, na, nb).Similar?
    ensures -1.0 <= Cosine(a, b, na, nb).value <= 1.0
  {
    hide Squares, Dot;
    CauchySchwarz(a, b);
    NormProduct(a, b, na, nb);
    SquareBound(Dot(a, b), na * nb);
  }

  lemma CosineSymmetric(a: Vector, b: Vector, na: real, nb: real)
    ensures Cosine(a, b, na, nb) == Cosine(b, a, nb, na)
  {
    hide Dot;
    DotSymmetric(a, b);
    assert na * nb == nb * na;
  }

  lemma {:induction false} DotSelf(a: Vector)
    ensures Dot(a, a) == Squares(a)
  {
    if a != [] { DotSelf(a[1..]); }
  }

  lemma Itself(x: real)
    requires x != 0.0
    ensures x / x == 1.0
  {
  }

  /** A vector is exactly similar to itself. */
  lemma CosineOfSelf(a: Vector, na: real)
    requires IsNorm(na, a) && !IsZero(a)
    ensures Cosine(a, a, na, na) == Similar(1.0)
  {
    hide Squares, Dot;
    DotSelf(a);
    DividesByZeroIff(a, a, na, na);
    Itself(na * na);
  }

  lemma {:induction false} ScaleSquares(k: real, a: Vector)
    ensures Squares(Scale(k, a)) == k * k * Squares(a)
  {
    if a != [] {
      ScaleSquares(k, a[1..]);
      var rest := Scale(k, a[1..]);
      assert ([k * a[0]] + rest)[1..] == rest;
      SquareOfProduct(k, a[0]);
      Distribute(k * k, a[0] * a[0], Squares(a[1..]));
    }
  }

  lemma {:induction false} ScaleDot(k: real, a: Vector, b: Vector)
    ensures Dot(Scale(k, a), b) == k * Dot(a, b)
  {
    if a != [] && b != [] {
      ScaleDot(k, a[1..], b[1..]);
      var rest := Scale(k, a[1..]);
      assert ([k * a[0]] + rest)[1..] == rest;
      Distribute(k, a[0] * b[0], Dot(a[1..], b[1..]));
      assert k * a[0] * b[0] == k * (a[0] * b[0]);
    }
  }

  lemma CancelFactor(k: real, d: real, p: real)
    requires k != 0.0 && p != 0.0
    ensures k * p != 0.0 && k * d / (k * p) == d / p
  {
    if k * p == 0.0 { ProductIsZero(k, p); }
    var q := d / p;
    assert q * p == d;
    assert k * d == q * (k * p);
  }

  /** Stretching a vector changes its norm but not the similarity. */
  lemma CosineScales(k: real, a: Vector, b: Vector, na: real, nb: real)
    requires k > 0.0 && IsNorm(na, a) && IsNorm(nb, b)
    ensures IsNorm(k * na, Scale(k, a))
    ensures Cosine(Scale(k, a), b, k * na, nb) == Cosine(a, b, na, nb)
  {
    hide Squares, Dot, Scale;
    ScaleSquares(k, a);
    ScaleDot(k, a, b);
    SquareOfProduct(k, na);
    assert k * na * nb == k * (na * nb);
    if na * nb != 0.0 { CancelFactor(k, Dot(a, b), na * nb); }
  }

  lemma NegatedQuotient(d: real, p: real)
    requires p != 0.0
    ensures (-1.0 * d) / p == -(d / p)
  {
    var q := d / p;
    assert q * p == d;
    assert -q * p == -1.0 * d;
  }

  /** Turning a vector round turns the sign of every similarity round. */
  lemma CosineFlips(a: Vector, b: Vector, na: real, nb: real)
    requires IsNorm(na, a) && IsNorm(nb, b)
    ensures IsNorm(na, Scale(-1.0, a))
    ensures Cosine(a, b, na, nb).Similar? ==>
              Cosine(Scale(-1.0, a), b, na, nb) == Similar(-Cosine(a, b, na, nb).value)
  {
    hide Squares, Dot, Scale;
    ScaleSquares(-1.0, a);
    ScaleDot(-1.0, a, b);
    if na * nb != 0.0 { NegatedQuotient(Dot(a, b), na * nb); }
  }

  /** With both norms undone the similarity is the dot product again. */
  lemma CosineTimesNorms(a: Vector, b: Vector, na: real, nb: real)
    requires IsNorm(na, a) && IsNorm(nb, b) && !IsZero(a) && !IsZero(b)
    ensures Cosine(a, b, na, nb).Similar? && Cosine(a, b, na, nb).value * na * nb == Dot(a, b)
  {
    hide Squares, Dot;
    DividesByZeroIff(a, b, na, nb);
    var d, p := Dot(a, b), na * nb;
    assert d / p * p == d;
    assert d / p * na * nb == d / p * p;
  }

  // ----- when the bound is attained -----

  /** Every component of a is the same multiple of b's. */
  ghost predicate Collinear(a: Vector, b: Vector)
    requires |a| == |b|
  {
    exists k: real :: IsMultiple(k, a, b)
  }

  ghost predicate IsMultiple(k: real, a: Vector, b: Vector)
    requires |a| == |b|
  {
    forall i | 0 <= i < |a| :: a[i] == k * b[i]
  }

  /** The multiplier of a's projection on b. */
  ghost predicate IsProjection(a: Vector, b: Vector)
    requires |a| == |b|
  {
    forall i | 0 <= i < |a| :: Squares(b) * a[i] == Dot(a, b) * b[i]
  }

  lemma {:induction false} DotOfMultiple(k: real, a: Vector, b: Vector)
    requires |a| == |b| && IsMultiple(k, a, b)
    ensures Dot(a, b) == k * Squares(b)
  {
    if a != [] {
      assert forall i | 0 <= i < |a[1..]| :: a[1..][i] == a[i + 1] && b[1..][i] == b[i + 1];
      DotOfMultiple(k, a[1..], b[1..]);
      var x := b[0];
      assert a[0] * x == k * (x * x) by { assert k * x * x == k * (x * x); }
      Distribute(k, x * x, Squares(b[1..]));
    }
  }

  /** A multiple of a non-zero vector is its own projection. */
  lemma CollinearIffProjection(a: Vector, b: Vector)
    requires |a| == |b| && !IsZero(b)
    ensures Collinear(a, b) <==> IsProjection(a, b)
  {
    hide Dot, Squares;
    var B, D := Squares(b), Dot(a, b);
    SquaresNonNegative(b);
    if k: real :| IsMultiple(k, a, b) {
      DotOfMultiple(k, a, b);
      forall i | 0 <= i < |a| ensures B * a[i] == D * b[i] {
        assert B * (k * b[i]) == k * B * b[i];
      }
    }
    if IsProjection(a, b) {
      var k := D / B;
      forall i | 0 <= i < |a| ensures a[i] == k * b[i] {
        DivideOut(B, a[i], D, b[i]);
      }
      assert IsMultiple(k, a, b);
    }
  }

  lemma DivideOut(p: real, x: real, q: real, y: real)
    requires p != 0.0 && p * x == q * y
    ensures x == q / p * y
  {
    var k := q / p;
    assert k * p == q;
    assert p * (x - k * y) == 0.0;
    ProductIsZero(p, x - k * y);
  }

  lemma {:induction false} CombineAt(t: real, a: Vector, u: real, b: Vector, i: nat)
    requires |a| == |b| && i < |a|
    ensures |Combine(t, a, u, b)| == |a| && Combine(t, a, u, b)[i] == t * a[i] - u * b[i]
  {
    if i > 0 {
      CombineAt(t, a[1..], u, b[1..], i - 1);
    } else if |a| > 1 {
      CombineAt(t, a[1..], u, b[1..], 0);
    }
  }

  lemma {:induction false} CombineLength(t: real, a: Vector, u: real, b: Vector)
    requires |a| == |b|
    ensures |Combine(t, a, u, b)| == |a|
  {
    if a != [] { CombineLength(t, a[1..], u, b[1..]); }
  }

  lemma CombineIsZeroIff(t: real, a: Vector, u: real, b: Vector)
    requires |a| == |b|
    ensures IsZero(Combine(t, a, u, b)) <==> forall i | 0 <= i < |a| :: t * a[i] == u * b[i]
  {
    hide Combine;
    var c := Combine(t, a, u, b);
    CombineLength(t, a, u, b);
    forall i | 0 <= i < |a| ensures c[i] == 0.0 <==> t * a[i] == u * b[i] {
      CombineAt(t, a, u, b, i);
    }
  }

  lemma EqualityIffProjection(a: Vector, b: Vector)
    requires |a| == |b| && !IsZero(b)
    ensures Dot(a, b) * Dot(a, b) == Squares(a) * Squares(b) <==> IsProjection(a, b)
  {
    hide Squares, Dot, Combine, Form;
    var A, B, D := Squares(a), Squares(b), Dot(a, b);
    var c := Combine(B, a, D, b);
    SquaresNonNegative(b);
    SquaresNonNegative(c);
    QuadraticForm(B, a, D, b);
    DefectSign(A, B, D);
    CombineIsZeroIff(B, a, D, b);
    if IsZero(c) { ZeroSquares(c); }
  }

  /** For vectors of equal length the bound is attained exactly when one is a multiple of the other. */
  lemma EqualityIffCollinear(a: Vector, b: Vector)
    requires |a| == |b|
    ensures Dot(a, b) * Dot(a, b) == Squares(a) * Squares(b) <==> IsZero(b) || Collinear(a, b)
  {
    hide Squares, Dot, IsProjection, Collinear;
    if IsZero(b) {
      ZeroSquares(b);
      ZeroVectorDot(a, b);
    } else {
      EqualityIffProjection(a, b);
      CollinearIffProjection(a, b);
    }
  }
}
