/** Similarity scores between result vectors, over the reals. `math.sqrt` is a parameter
    that returns exact roots; rounding and non-finite inputs are outside the model. */
module Similarity {
  import opened Common

  type Vector = seq<real>

  const EPS: real := 0.000000000001

  datatype ScoreError =
    | LengthMismatch | TooFewSamples | NegativeValue(index: nat) | Duplicates | ZeroDivision

  ghost predicate IsSqrt(sqrt: real -> real) {
    forall x :: x >= 0.0 ==> sqrt(x) >= 0.0 && sqrt(x) * sqrt(x) == x
  }

  function Dot(a: Vector, b: Vector): real
    requires |a| == |b|
  {
    if a == [] then 0.0 else Dot(a[..|a| - 1], b[..|b| - 1]) + a[|a| - 1] * b[|b| - 1]
  }

  function Sum(a: Vector): real {
    if a == [] then 0.0 else Sum(a[..|a| - 1]) + a[|a| - 1]
  }

  // ------------------------------------------------ Cauchy-Schwarz

  lemma Product(x: real, y: real)
    ensures x >= 0.0 && y >= 0.0 ==> x * y >= 0.0
    ensures x > 0.0 && y > 0.0 ==> x * y > 0.0
    ensures x > 0.0 && y < 0.0 ==> x * y < 0.0
  {
  }

  lemma Square(x: real)
    ensures x * x >= 0.0
  {
  }

  // The squared norm of x * a + y * b, from the three dot products.
  function Form(x: real, y: real, aa: real, ab: real, bb: real): real {
    x * x * aa + 2.0 * (x * y) * ab + y * y * bb
  }

  lemma FormAdds(x: real, y: real, aa: real, ab: real, bb: real, p: real, q: real)
    ensures Form(x, y, aa + p * p, ab + p * q, bb + q * q)
         == Form(x, y, aa, ab, bb) + (x * p + y * q) * (x * p + y * q)
  {
    Expand(x * p, y * q);
    assert (x * p) * (x * p) == x * x * (p * p);
    assert (x * p) * (y * q) == (x * y) * (p * q);
    assert (y * q) * (y * q) == y * y * (q * q);
    Distribute(x * x, aa, p * p);
    Distribute(2.0 * (x * y), ab, p * q);
    Distribute(y * y, bb, q * q);
  }

  lemma Expand(u: real, v: real)
    ensures (u + v) * (u + v) == u * u + 2.0 * (u * v) + v * v
  {
  }

  lemma Distribute(c: real, u: real, v: real)
    ensures c * (u + v) == c * u + c * v
  {
  }

  // It is never negative.
  lemma {:induction false} FormNonNegative(a: Vector, b: Vector, x: real, y: real)
    requires |a| == |b|
    ensures Form(x, y, Dot(a, a), Dot(a, b), Dot(b, b)) >= 0.0
  {
    if a == [] {
    } else {
      hide Form;
      var n := |a| - 1;
      FormNonNegative(a[..n], b[..n], x, y);
      FormAdds(x, y, Dot(a[..n], a[..n]), Dot(a[..n], b[..n]), Dot(b[..n], b[..n]), a[n], b[n]);
      Square(x * a[n] + y * b[n]);
    }
  }

  lemma {:induction false} NormNonNegative(a: Vector)
    ensures Dot(a, a) >= 0.0
  {
    if a == [] {
    } else {
      NormNonNegative(a[..|a| - 1]);
      Square(a[|a| - 1]);
    }
  }

  lemma CauchySchwarz(a: Vector, b: Vector)
    requires |a| == |b|
    ensures Dot(a, b) * Dot(a, b) <= Dot(a, a) * Dot(b, b)
  {
    hide Dot, Form;
    var aa, ab, bb := Dot(a, a), Dot(a, b), Dot(b, b);
    NormNonNegative(a);
    NormNonNegative(b);
    FormNonNegative(a, b, -ab, aa);
    FormNonNegative(a, b, -bb - 1.0, ab);
    if aa > 0.0 {
      Discriminant(aa, ab, bb);
    } else {
      ZeroNorm(ab, bb);
      assert aa * bb == 0.0;
    }
  }

  lemma Discriminant(aa: real, ab: real, bb: real)
    requires aa > 0.0 && Form(-ab, aa, aa, ab, bb) >= 0.0
    ensures ab * ab <= aa * bb
  {
    var d := aa * bb - ab * ab;
    assert Form(-ab, aa, aa, ab, bb) == aa * d by {
      assert (-ab) * (-ab) * aa == aa * (ab * ab);
      assert 2.0 * ((-ab) * aa) * ab == -2.0 * (aa * (ab * ab));
      assert aa * aa * bb == aa * (aa * bb);
      Distribute(aa, aa * bb, -(ab * ab));
      assert aa * -(ab * ab) == -(aa * (ab * ab));
    }
    Product(aa, d);
  }

  // A vector of norm zero has dot product zero with everything.
  lemma ZeroNorm(ab: real, bb: real)
    requires bb >= 0.0 && Form(-bb - 1.0, ab, 0.0, ab, bb) >= 0.0
    ensures ab * ab <= 0.0
  {
    var p, n := ab * ab, -bb - 2.0;
    assert Form(-bb - 1.0, ab, 0.0, ab, bb) == p * n by {
      assert 2.0 * ((-bb - 1.0) * ab) * ab == p * (-2.0 * bb - 2.0);
      assert ab * ab * bb == p * bb;
      Distribute(p, -2.0 * bb - 2.0, bb);
    }
    Product(p, n);
  }

  // ------------------------------------------------ scores

  // dot / (s * t) for the roots s and t of the norms, which Cauchy-Schwarz keeps within [-1, 1].
  lemma RatioBound(dot: real, s: real, t: real)
    requires s > 0.0 && t > 0.0 && dot * dot <= (s * s) * (t * t)
    ensures s * t > 0.0 && -1.0 <= dot / (s * t) <= 1.0
  {
    Product(s, t);
    Regroup(s, t);
    AbsBound(dot, s * t);
    QuotientBound(dot, s * t);
  }

  lemma Regroup(s: real, t: real)
    ensures (s * t) * (s * t) == (s * s) * (t * t)
  {
  }

  lemma AbsBound(d: real, s: real)
    requires s >= 0.0 && d * d <= s * s
    ensures -s <= d <= s
  {
    StrictSquares(s, d - s);
    StrictSquares(s, -d - s);
    assert s + (d - s) == d && s + (-d - s) == -d;
    Square(d);
    assert (-d) * (-d) == d * d;
  }

  lemma StrictSquares(s: real, g: real)
    ensures s >= 0.0 && g > 0.0 ==> s * s < (s + g) * (s + g)
  {
    Expand(s, g);
    Product(s, g);
    Product(g, g);
  }

  lemma QuotientBound(d: real, s: real)
    requires s > 0.0 && -s <= d <= s
    ensures -1.0 <= d / s <= 1.0
  {
    var q := d / s;
    assert q * s == d;
    assert (q - 1.0) * s == d - s && (q + 1.0) * s == d + s;
    Product(s, q - 1.0);
    Product(s, q + 1.0);
    Product(q - 1.0, s);
  }

  lemma SqrtPositive(x: real, sqrt: real -> real)
    requires IsSqrt(sqrt) && x > 0.0
    ensures sqrt(x) > 0.0 && sqrt(x) * sqrt(x) == x
  {
  }

  // Either norm is too small to divide by.
  predicate Negligible(n: real) {
    n <= EPS
  }

  // A quotient, told by multiplication.
  lemma Divides(d: real, s: real)
    requires s > 0.0
    ensures (d / s) * s == d
  {
  }

  // The last line of both correlation metrics.
  ghost function Ratio(dot: real, n: real, m: real, sqrt: real -> real): real
    requires IsSqrt(sqrt) && !Negligible(n) && !Negligible(m)
  {
    SqrtPositive(n, sqrt);
    SqrtPositive(m, sqrt);
    Product(sqrt(n), sqrt(m));
    dot / (sqrt(n) * sqrt(m))
  }

  lemma RatioInRange(a: Vector, b: Vector, sqrt: real -> real)
    requires IsSqrt(sqrt) && |a| == |b| && !Negligible(Dot(a, a)) && !Negligible(Dot(b, b))
    ensures -1.0 <= Ratio(Dot(a, b), Dot(a, a), Dot(b, b), sqrt) <= 1.0
  {
    hide Dot;
    CauchySchwarz(a, b);
    SqrtPositive(Dot(a, a), sqrt);
    SqrtPositive(Dot(b, b), sqrt);
    RatioBound(Dot(a, b), sqrt(Dot(a, a)), sqrt(Dot(b, b)));
  }

  // Times both roots it is the dot product.
  lemma RatioTimesRoots(dot: real, n: real, m: real, sqrt: real -> real)
    requires IsSqrt(sqrt) && !Negligible(n) && !Negligible(m)
    ensures Ratio(dot, n, m, sqrt) * (sqrt(n) * sqrt(m)) == dot
  {
    SqrtPositive(n, sqrt);
    SqrtPositive(m, sqrt);
    Product(sqrt(n), sqrt(m));
    Divides(dot, sqrt(n) * sqrt(m));
  }

  method Divide(dot: real, n: real, m: real, sqrt: real -> real) returns (r: real)
    requires IsSqrt(sqrt) && !Negligible(n) && !Negligible(m)
    ensures r == Ratio(dot, n, m, sqrt)
  {
    SqrtPositive(n, sqrt);
    SqrtPositive(m, sqrt);
    Product(sqrt(n), sqrt(m));
    r := dot / (sqrt(n) * sqrt(m));
  }

  // ------------------------------------------------ cosine

  ghost function Cosine(a: Vector, b: Vector, sqrt: real -> real): (r: Result<real, ScoreError>)
    requires IsSqrt(sqrt)
  {
    if |a| != |b| then Err(LengthMismatch)
    else if Negligible(Dot(a, a)) && Negligible(Dot(b, b)) then Ok(1.0)
    else if Negligible(Dot(a, a)) || Negligible(Dot(b, b)) then Ok(0.0)
    else Ok(Ratio(Dot(a, b), Dot(a, a), Dot(b, b), sqrt))
  }

  // The accumulation loop of the cosine.
  method Products(left: Vector, right: Vector) returns (dot: real, normLeft: real, normRight: real)
    requires |left| == |right|
    ensures dot == Dot(left, right) && normLeft == Dot(left, left) && normRight == Dot(right, right)
  {
    dot, normLeft, normRight := 0.0, 0.0, 0.0;
    for i := 0 to |left|
      invariant dot == Dot(left[..i], right[..i])
      invariant normLeft == Dot(left[..i], left[..i]) && normRight == Dot(right[..i], right[..i])
    {
      DotNext(left, right, i);
      DotNext(left, left, i);
      DotNext(right, right, i);
      var a, b := left[i], right[i];
      dot := dot + a * b;
      normLeft := normLeft + a * a;
      normRight := normRight + b * b;
    }
    assert left[..|left|] == left && right[..|right|] == right;
  }

  method CosineSimilarity(left: Vector, right: Vector, sqrt: real -> real) returns (r: Result<real, ScoreError>)
    requires IsSqrt(sqrt)
    ensures r == Cosine(left, right, sqrt)
    ensures r == Err(LengthMismatch) <==> |left| != |right|
    ensures r.Ok? ==>
              && -1.0 <= r.value <= 1.0
              && (Dot(left, left) <= EPS && Dot(right, right) <= EPS ==> r.value == 1.0)
              && ((Dot(left, left) <= EPS) != (Dot(right, right) <= EPS) ==> r.value == 0.0)
              && (Dot(left, left) > EPS && Dot(right, right) > EPS ==>
                    r.value * (sqrt(Dot(left, left)) * sqrt(Dot(right, right))) == Dot(left, right))
  {
    hide Dot, Ratio;
    if |left| != |right| {
      return Err(LengthMismatch);
    }
    var dot, normLeft, normRight := Products(left, right);
    if normLeft <= EPS && normRight <= EPS {
      return Ok(1.0);
    }
    if normLeft <= EPS || normRight <= EPS {
      return Ok(0.0);
    }
    RatioInRange(left, right, sqrt);
    RatioTimesRoots(dot, normLeft, normRight, sqrt);
    var score := Divide(dot, normLeft, normRight, sqrt);
    return Ok(score);
  }

  lemma DotNext(a: Vector, b: Vector, i: nat)
    requires i < |a| == |b|
    ensures Dot(a[..i + 1], b[..i + 1]) == Dot(a[..i], b[..i]) + a[i] * b[i]
  {
    assert a[..i + 1][..i] == a[..i] && b[..i + 1][..i] == b[..i];
  }

  lemma {:induction false} DotSymmetric(a: Vector, b: Vector)
    requires |a| == |b|
    ensures Dot(a, b) == Dot(b, a)
  {
    if a == [] {
    } else {
      DotSymmetric(a[..|a| - 1], b[..|b| - 1]);
    }
  }

  lemma CosineSymmetric(a: Vector, b: Vector, sqrt: real -> real)
    requires IsSqrt(sqrt)
    ensures Cosine(a, b, sqrt) == Cosine(b, a, sqrt)
  {
    if |a| == |b| {
      DotSymmetric(a, b);
    }
  }

  // A vector with a direction has similarity 1 with itself.
  lemma CosineSelf(a: Vector, sqrt: real -> real)
    requires IsSqrt(sqrt) && !Negligible(Dot(a, a))
    ensures Cosine(a, a, sqrt) == Ok(1.0)
  {
    var n := Dot(a, a);
    SqrtPositive(n, sqrt);
    EqualsQuotient(n, sqrt(n) * sqrt(n));
  }

  lemma EqualsQuotient(d: real, s: real)
    requires d == s > 0.0
    ensures d / s == 1.0
  {
  }

  // ------------------------------------------------ Pearson

  function Mean(a: Vector): real
    requires a != []
  {
    Sum(a) / |a| as real
  }

  // The vector with `c` added everywhere.
  function Shift(a: Vector, c: real): Vector {
    seq(|a|, i requires 0 <= i < |a| => a[i] + c)
  }

  function Centered(a: Vector): Vector
    requires a != []
  {
    Shift(a, -Mean(a))
  }

  ghost function Pearson(a: Vector, b: Vector, sqrt: real -> real): (r: Result<real, ScoreError>)
    requires IsSqrt(sqrt)
  {
    if |a| != |b| then Err(LengthMismatch)
    else if |a| < 2 then Err(TooFewSamples)
    else
      var x, y := Centered(a), Centered(b);
      if Negligible(Dot(x, x)) && Negligible(Dot(y, y)) then Ok(if a == b then 1.0 else 0.0)
      else if Negligible(Dot(x, x)) || Negligible(Dot(y, y)) then Ok(0.0)
      else Ok(Ratio(Dot(x, y), Dot(x, x), Dot(y, y), sqrt))
  }

  method SumOf(a: Vector) returns (s: real)
    ensures s == Sum(a)
  {
    s := 0.0;
    for i := 0 to |a|
      invariant s == Sum(a[..i])
    {
      assert a[..i + 1][..i] == a[..i];
      s := s + a[i];
    }
    assert a[..|a|] == a;
  }

  // The accumulation loop of Pearson's coefficient.
  method CenteredProducts(left: Vector, right: Vector, meanLeft: real, meanRight: real)
    returns (cov: real, varLeft: real, varRight: real)
    requires |left| == |right| > 0 && meanLeft == Mean(left) && meanRight == Mean(right)
    ensures var x, y := Centered(left), Centered(right);
            cov == Dot(x, y) && varLeft == Dot(x, x) && varRight == Dot(y, y)
  {
    hide Dot, Mean;
    cov, varLeft, varRight := 0.0, 0.0, 0.0;
    ghost var x, y := Centered(left), Centered(right);
    DotEmpty();
    for i := 0 to |left|
      invariant cov == Dot(x[..i], y[..i])
      invariant varLeft == Dot(x[..i], x[..i]) && varRight == Dot(y[..i], y[..i])
    {
      var da, db := left[i] - meanLeft, right[i] - meanRight;
      DotStep(cov, da, db, x, y, i);
      DotStep(varLeft, da, da, x, x, i);
      DotStep(varRight, db, db, y, y, i);
      cov := cov + da * db;
      varLeft := varLeft + da * da;
      varRight := varRight + db * db;
    }
    assert x[..|left|] == x && y[..|right|] == y;
  }

  lemma DotStep(sum: real, p: real, q: real, x: Vector, y: Vector, i: nat)
    requires i < |x| == |y| && sum == Dot(x[..i], y[..i]) && p == x[i] && q == y[i]
    ensures sum + p * q == Dot(x[..i + 1], y[..i + 1])
  {
    DotNext(x, y, i);
  }

  lemma DotEmpty()
    ensures Dot([], []) == 0.0
  {
  }

  method PearsonSimilarity(left: Vector, right: Vector, sqrt: real -> real) returns (r: Result<real, ScoreError>)
    requires IsSqrt(sqrt)
    ensures r == Pearson(left, right, sqrt)
    ensures r == Err(LengthMismatch) <==> |left| != |right|
    ensures r == Err(TooFewSamples) <==> |left| == |right| < 2
    ensures r.Ok? ==>
              var x, y := Centered(left), Centered(right);
              && -1.0 <= r.value <= 1.0
              && (Dot(x, x) <= EPS && Dot(y, y) <= EPS ==> r.value == if left == right then 1.0 else 0.0)
              && ((Dot(x, x) <= EPS) != (Dot(y, y) <= EPS) ==> r.value == 0.0)
              && (Dot(x, x) > EPS && Dot(y, y) > EPS ==> r.value * (sqrt(Dot(x, x)) * sqrt(Dot(y, y))) == Dot(x, y))
  {
    hide Dot, Ratio;
    if |left| != |right| {
      return Err(LengthMismatch);
    }
    if |left| < 2 {
      return Err(TooFewSamples);
    }
    var n := |left| as real;
    var sumLeft := SumOf(left);
    var sumRight := SumOf(right);
    var cov, varLeft, varRight := CenteredProducts(left, right, sumLeft / n, sumRight / n);
    if varLeft <= EPS && varRight <= EPS {
      return Ok(if left == right then 1.0 else 0.0);
    }
    if varLeft <= EPS || varRight <= EPS {
      return Ok(0.0);
    }
    RatioInRange(Centered(left), Centered(right), sqrt);
    RatioTimesRoots(cov, varLeft, varRight, sqrt);
    var score := Divide(cov, varLeft, varRight, sqrt);
    return Ok(score);
  }

  lemma PearsonSymmetric(a: Vector, b: Vector, sqrt: real -> real)
    requires IsSqrt(sqrt)
    ensures Pearson(a, b, sqrt) == Pearson(b, a, sqrt)
  {
    if |a| == |b| >= 2 {
      DotSymmetric(Centered(a), Centered(b));
    }
  }

  lemma {:induction false} SumShift(a: Vector, c: real)
    ensures Sum(Shift(a, c)) == Sum(a) + |a| as real * c
  {
    if a == [] {
    } else {
      SumShift(a[..|a| - 1], c);
      assert Shift(a, c)[..|a| - 1] == Shift(a[..|a| - 1], c);
      OneMore(|a| - 1, c);
    }
  }

  // Centering takes away the mean, and nothing but a constant.
  lemma CenteredIs(a: Vector)
    requires a != []
    ensures Sum(Centered(a)) == 0.0
    ensures |Centered(a)| == |a| && forall i, j :: 0 <= i < |a| && 0 <= j < |a| ==>
              Centered(a)[i] - Centered(a)[j] == a[i] - a[j]
  {
    SumShift(a, -Mean(a));
    Divides(Sum(a), |a| as real);
  }

  lemma OneMore(n: nat, c: real)
    ensures (n + 1) as real * c == n as real * c + c
  {
  }

  // Centering forgets a constant that was added.
  lemma CenteredShift(a: Vector, c: real)
    requires a != []
    ensures Centered(Shift(a, c)) == Centered(a)
  {
    SumShift(a, c);
    MeanMoves(Sum(a), |a| as real, c);
    var x, y := Centered(Shift(a, c)), Centered(a);
    assert forall i :: 0 <= i < |a| ==> x[i] == y[i];
  }

  lemma MeanMoves(s: real, n: real, c: real)
    requires n > 0.0
    ensures (s + n * c) / n == s / n + c
  {
    assert (s / n + c) * n == s + n * c;
  }

  // Both inputs are constant, up to the threshold.
  ghost predicate BothConstant(a: Vector, b: Vector)
    requires a != [] && b != []
  {
    Negligible(Dot(Centered(a), Centered(a))) && Negligible(Dot(Centered(b), Centered(b)))
  }

  // Adding a constant to an input leaves the score alone, unless both inputs are constant
  // and the shift makes them equal or different.
  lemma PearsonShiftIff(a: Vector, b: Vector, c: real, sqrt: real -> real)
    requires IsSqrt(sqrt) && |a| == |b| >= 2
    ensures Pearson(Shift(a, c), b, sqrt) == Pearson(a, b, sqrt)
       <==> BothConstant(a, b) ==> (Shift(a, c) == b <==> a == b)
  {
    CenteredShift(a, c);
  }

  // Two equal constant vectors stop agreeing when one is shifted.
  lemma ShiftCanChangeTheScore(sqrt: real -> real)
    requires IsSqrt(sqrt)
    ensures Pearson([1.0, 1.0], [1.0, 1.0], sqrt) == Ok(1.0)
    ensures Pearson(Shift([1.0, 1.0], 1.0), [1.0, 1.0], sqrt) == Ok(0.0)
  {
    var a := [1.0, 1.0];
    assert a[..1] == [1.0] && [1.0][..0] == [];
    assert Sum([1.0]) == 1.0 && Sum(a) == 2.0;
    assert Mean(a) == 1.0;
    var z := Centered(a);
    assert z == [0.0, 0.0] && z[..1] == [0.0] && [0.0][..0] == [];
    assert Dot([0.0], [0.0]) == 0.0 && Dot(z, z) == 0.0;
    CenteredShift(a, 1.0);
    assert Shift(a, 1.0)[0] == 2.0;
  }

  // ------------------------------------------------ min-max

  function Min(a: real, b: real): real {
    if b < a then b else a
  }

  function Max(a: real, b: real): real {
    if b > a then b else a
  }

  function SumMin(a: Vector, b: Vector): real
    requires |a| == |b|
  {
    if a == [] then 0.0 else SumMin(a[..|a| - 1], b[..|b| - 1]) + Min(a[|a| - 1], b[|b| - 1])
  }

  function SumMax(a: Vector, b: Vector): real
    requires |a| == |b|
  {
    if a == [] then 0.0 else SumMax(a[..|a| - 1], b[..|b| - 1]) + Max(a[|a| - 1], b[|b| - 1])
  }

  ghost predicate NonNegative(a: Vector) {
    forall i :: 0 <= i < |a| ==> a[i] >= 0.0
  }

  function MinMaxScore(num: real, den: real): real {
    if den == 0.0 then 1.0 else num / den
  }

  method MinMaxSimilarity(left: Vector, right: Vector) returns (r: Result<real, ScoreError>)
    ensures |left| != |right| ==> r == Err(LengthMismatch)
    ensures |left| == |right| && NonNegative(left) && NonNegative(right)
        ==> r == Ok(MinMaxScore(SumMin(left, right), SumMax(left, right)))
    ensures |left| == |right| && !(NonNegative(left) && NonNegative(right))
        ==> r.Err? && r.error.NegativeValue? && r.error.index < |left|
            && (left[r.error.index] < 0.0 || right[r.error.index] < 0.0)
            && NonNegative(left[..r.error.index]) && NonNegative(right[..r.error.index])
  {
    if |left| != |right| {
      return Err(LengthMismatch);
    }
    var num, den := 0.0, 0.0;
    for i := 0 to |left|
      invariant NonNegative(left[..i]) && NonNegative(right[..i])
      invariant num == SumMin(left[..i], right[..i]) && den == SumMax(left[..i], right[..i])
    {
      var a, b := left[i], right[i];
      if a < 0.0 || b < 0.0 {
        return Err(NegativeValue(i));
      }
      assert left[..i + 1][..i] == left[..i] && right[..i + 1][..i] == right[..i];
      num := num + Min(a, b);
      den := den + Max(a, b);
    }
    assert left[..|left|] == left && right[..|right|] == right;
    return Ok(MinMaxScore(num, den));
  }

  // The two sums account for everything: an inclusion-exclusion.
  lemma {:induction false} MinMaxConserves(a: Vector, b: Vector)
    requires |a| == |b|
    ensures SumMin(a, b) + SumMax(a, b) == Sum(a) + Sum(b)
    ensures SumMin(a, b) == SumMin(b, a) && SumMax(a, b) == SumMax(b, a)
    ensures SumMin(a, b) <= SumMax(a, b)
    ensures SumMin(a, b) == SumMax(a, b) <==> a == b
    ensures NonNegative(a) && NonNegative(b) ==> SumMin(a, b) >= 0.0
  {
    if a == [] {
    } else {
      var n := |a| - 1;
      MinMaxConserves(a[..n], b[..n]);
      assert a == a[..n] + [a[n]] && b == b[..n] + [b[n]];
    }
  }

  // The score times the sum of the maxima is the sum of the minima.
  lemma MinMaxIsQuotient(a: Vector, b: Vector)
    requires |a| == |b| && NonNegative(a) && NonNegative(b)
    ensures MinMaxScore(SumMin(a, b), SumMax(a, b)) * SumMax(a, b) == SumMin(a, b)
  {
    hide *;
    assert 0.0 <= SumMin(a, b) <= SumMax(a, b) by {
      MinMaxConserves(a, b);
    }
    ScoreTimes(SumMin(a, b), SumMax(a, b));
  }

  lemma ScoreTimes(num: real, den: real)
    requires 0.0 <= num <= den
    ensures MinMaxScore(num, den) * den == num
  {
    if den > 0.0 {
      Divides(num, den);
    }
  }

  // It lies in [0, 1], is symmetric, and is 1 exactly for equal vectors.
  lemma MinMaxBounds(a: Vector, b: Vector)
    requires |a| == |b| && NonNegative(a) && NonNegative(b)
    ensures 0.0 <= MinMaxScore(SumMin(a, b), SumMax(a, b)) <= 1.0
    ensures MinMaxScore(SumMin(a, b), SumMax(a, b)) == MinMaxScore(SumMin(b, a), SumMax(b, a))
    ensures MinMaxScore(SumMin(a, b), SumMax(a, b)) == 1.0 <==> a == b
  {
    MinMaxConserves(a, b);
    hide SumMin, SumMax, MinMaxScore;
    MinMaxScoreIs(SumMin(a, b), SumMax(a, b));
  }

  lemma MinMaxScoreIs(num: real, den: real)
    requires 0.0 <= num <= den
    ensures 0.0 <= MinMaxScore(num, den) <= 1.0
    ensures MinMaxScore(num, den) == 1.0 <==> num == den
  {
    if den > 0.0 {
      UnitQuotient(num, den);
    }
  }

  lemma UnitQuotient(n: real, d: real)
    requires 0.0 <= n <= d && d > 0.0
    ensures 0.0 <= n / d <= 1.0
    ensures n / d == 1.0 <==> n == d
  {
    QuotientBound(n, d);
    var q := n / d;
    assert q * d == n;
    Product(d, q);
    Product(q, d);
  }

  // ------------------------------------------------ Jaccard

  // Intersection and union of multisets: minimum and maximum of the counts.
  ghost function Union<T>(a: multiset<T>, b: multiset<T>): multiset<T> {
    a + b - a * b
  }

  function JaccardScore(num: nat, den: nat): real {
    if den == 0 then 1.0 else num as real / den as real
  }

  method JaccardMultisetSimilarity<T(==)>(left: seq<T>, right: seq<T>) returns (score: real)
    ensures score == JaccardScore(|multiset(left) * multiset(right)|, |Union(multiset(left), multiset(right))|)
  {
    var a, b := multiset(left), multiset(right);
    var keys := (set x | x in left) + (set x | x in right);
    var den, num := 0, 0;
    ghost var most, least: multiset<T> := multiset{}, multiset{};
    var rest := keys;
    while rest != {}
      invariant rest <= keys
      invariant den == |most| && num == |least|
      invariant forall x :: most[x] == if x in keys - rest then NatMax(a[x], b[x]) else 0
      invariant forall x :: least[x] == if x in keys - rest then NatMin(a[x], b[x]) else 0
      decreases |rest|
    {
      var k :| k in rest;
      rest := rest - {k};
      most, least := most[k := NatMax(a[k], b[k])], least[k := NatMin(a[k], b[k])];
      den := den + NatMax(a[k], b[k]);
      num := num + NatMin(a[k], b[k]);
    }
    AllCounted(a, b, keys, most, least);
    return JaccardScore(num, den);
  }

  lemma AllCounted<T>(a: multiset<T>, b: multiset<T>, keys: set<T>, most: multiset<T>, least: multiset<T>)
    requires forall x :: x in a || x in b ==> x in keys
    requires forall x :: most[x] == if x in keys then NatMax(a[x], b[x]) else 0
    requires forall x :: least[x] == if x in keys then NatMin(a[x], b[x]) else 0
    ensures most == Union(a, b) && least == a * b
  {
  }

  function NatMax(m: nat, n: nat): nat {
    if n > m then n else m
  }

  function NatMin(m: nat, n: nat): nat {
    if n < m then n else m
  }

  lemma UnionConserves<T>(a: multiset<T>, b: multiset<T>)
    ensures |a * b| + |Union(a, b)| == |a| + |b|
    ensures a * b <= Union(a, b) && |a * b| <= |Union(a, b)|
    ensures a * b == b * a && Union(a, b) == Union(b, a)
    ensures a * b == Union(a, b) <==> a == b
  {
    UnionAndIntersection(a, b);
    IntersectionInUnion(a, b);
    hide Union;
    assert |a * b + Union(a, b)| == |a + b|;
    Smaller(a * b, Union(a, b));
  }

  lemma UnionAndIntersection<T>(a: multiset<T>, b: multiset<T>)
    ensures a * b + Union(a, b) == a + b
  {
  }

  lemma Smaller<T>(a: multiset<T>, b: multiset<T>)
    requires a <= b
    ensures |a| <= |b|
  {
    assert a + (b - a) == b;
  }

  lemma IntersectionInUnion<T>(a: multiset<T>, b: multiset<T>)
    ensures a * b <= Union(a, b)
    ensures a * b == b * a && Union(a, b) == Union(b, a)
    ensures a * b == Union(a, b) <==> a == b
  {
    if a * b == Union(a, b) {
      forall x ensures a[x] == b[x] {
        assert (a * b)[x] == Union(a, b)[x];
      }
    }
  }

  // Numerator and denominator add up to the lengths of the inputs; the score lies in [0, 1], is symmetric, and is 1 exactly when the inputs are permutations of each other.
  lemma JaccardBounds<T>(left: seq<T>, right: seq<T>)
    ensures var a, b := multiset(left), multiset(right);
            var score := JaccardScore(|a * b|, |Union(a, b)|);
            && |a * b| + |Union(a, b)| == |left| + |right|
            && 0.0 <= score <= 1.0
            && score == JaccardScore(|b * a|, |Union(b, a)|)
            && (score == 1.0 <==> a == b)
  {
    var a, b := multiset(left), multiset(right);
    UnionConserves(a, b);
    hide Union, JaccardScore;
    JaccardScoreIs(|a * b|, |Union(a, b)|);
    if |a * b| == |Union(a, b)| {
      SameSize(a * b, Union(a, b));
    }
  }

  lemma JaccardIsQuotient<T>(a: multiset<T>, b: multiset<T>)
    ensures JaccardScore(|a * b|, |Union(a, b)|) * |Union(a, b)| as real == |a * b| as real
  {
    hide *;
    assert |a * b| <= |Union(a, b)| by {
      UnionConserves(a, b);
    }
    JaccardScoreTimes(|a * b|, |Union(a, b)|);
  }

  lemma JaccardScoreTimes(num: nat, den: nat)
    requires num <= den
    ensures JaccardScore(num, den) * den as real == num as real
  {
    ScoreTimes(num as real, den as real);
  }

  lemma JaccardScoreIs(num: nat, den: nat)
    requires num <= den
    ensures 0.0 <= JaccardScore(num, den) <= 1.0
    ensures JaccardScore(num, den) == 1.0 <==> num == den
  {
    MinMaxScoreIs(num as real, den as real);
  }

  lemma SameSize<T>(a: multiset<T>, b: multiset<T>)
    requires a <= b && |a| == |b|
    ensures a == b
  {
    assert a + (b - a) == b;
  }

  // The counts of the listed values, as a vector.
  function Counts<T(==)>(m: multiset<T>, ks: seq<T>): Vector {
    if ks == [] then [] else Counts(m, ks[..|ks| - 1]) + [m[ks[|ks| - 1]] as real]
  }

  // Multiset Jaccard is min-max on the count vectors, whatever the order of the values.
  lemma {:induction false} JaccardIsMinMax<T>(a: multiset<T>, b: multiset<T>, ks: seq<T>)
    requires forall x :: x in a || x in b ==> x in ks
    requires forall i, j :: 0 <= i < j < |ks| ==> ks[i] != ks[j]
    ensures |Counts(a, ks)| == |Counts(b, ks)| == |ks|
    ensures SumMin(Counts(a, ks), Counts(b, ks)) == |a * b| as real
    ensures SumMax(Counts(a, ks), Counts(b, ks)) == |Union(a, b)| as real
    decreases |ks|
  {
    hide Union;
    if ks == [] {
      NoKeys(a, b);
    } else {
      var init, k := ks[..|ks| - 1], ks[|ks| - 1];
      var a', b' := a[k := 0], b[k := 0];
      assert ks == init + [k];
      forall x | x in a' || x in b' ensures x in init {
        assert x in ks;
      }
      JaccardIsMinMax(a', b', init);
      CountsElsewhere(a, k, init);
      CountsElsewhere(b, k, init);
      OneKey(a, b, k);
      LastSums(Counts(a, init), a[k] as real, Counts(b, init), b[k] as real);
    }
  }

  lemma LastSums(a: Vector, x: real, b: Vector, y: real)
    requires |a| == |b|
    ensures SumMin(a + [x], b + [y]) == SumMin(a, b) + Min(x, y)
    ensures SumMax(a + [x], b + [y]) == SumMax(a, b) + Max(x, y)
  {
    assert (a + [x])[..|a|] == a && (b + [y])[..|b|] == b;
  }

  lemma NoKeys<T>(a: multiset<T>, b: multiset<T>)
    requires forall x :: x !in a && x !in b
    ensures |a * b| == 0 && |Union(a, b)| == 0
  {
    assert a == multiset{} && b == multiset{};
  }

  lemma OneKey<T>(a: multiset<T>, b: multiset<T>, k: T)
    ensures |a * b| == |a[k := 0] * b[k := 0]| + NatMin(a[k], b[k])
    ensures |Union(a, b)| == |Union(a[k := 0], b[k := 0])| + NatMax(a[k], b[k])
  {
    assert (a * b)[k := 0] == a[k := 0] * b[k := 0];
    assert Union(a, b)[k := 0] == Union(a[k := 0], b[k := 0]);
  }

  lemma {:induction false} CountsElsewhere<T>(m: multiset<T>, k: T, ks: seq<T>)
    requires k !in ks
    ensures Counts(m[k := 0], ks) == Counts(m, ks) && |Counts(m, ks)| == |ks|
  {
    if ks == [] {
    } else {
      CountsElsewhere(m, k, ks[..|ks| - 1]);
    }
  }

  predicate NoDuplicates<T(==)>(a: seq<T>) {
    forall i, j :: 0 <= i < j < |a| ==> a[i] != a[j]
  }

  method JaccardSetSimilarity<T(==)>(left: seq<T>, right: seq<T>) returns (r: Result<real, ScoreError>)
    ensures r == if NoDuplicates(left) && NoDuplicates(right)
                 then Ok(JaccardScore(|multiset(left) * multiset(right)|, |Union(multiset(left), multiset(right))|))
                 else Err(Duplicates)
  {
    var a, b := set x | x in left, set x | x in right;
    SetSize(left);
    SetSize(right);
    if |a| != |left| || |b| != |right| {
      return Err(Duplicates);
    }
    OnceEach(left);
    OnceEach(right);
    var union := a + b;
    assert multiset(left) * multiset(right) == multiset(a * b);
    assert Union(multiset(left), multiset(right)) == multiset(union);
    if union == {} {
      return Ok(1.0);
    }
    return Ok(|a * b| as real / |union| as real);
  }

  // A vector has as many different values as entries exactly when it has no duplicates.
  lemma {:induction false} SetSize<T>(a: seq<T>)
    ensures |set x | x in a| <= |a|
    ensures |set x | x in a| == |a| <==> NoDuplicates(a)
  {
    if a == [] {
    } else {
      var init, last := a[..|a| - 1], a[|a| - 1];
      SetSize(init);
      assert a == init + [last];
      assert (set x | x in a) == (set x | x in init) + {last};
    }
  }

  lemma {:induction false} OnceEach<T>(a: seq<T>)
    requires NoDuplicates(a)
    ensures multiset(a) == multiset(set x | x in a)
  {
    if a == [] {
    } else {
      var init, last := a[..|a| - 1], a[|a| - 1];
      OnceEach(init);
      assert a == init + [last];
      assert (set x | x in a) == (set x | x in init) + {last};
    }
  }

  // ------------------------------------------------ single numbers

  function Abs(x: real): real {
    if x < 0.0 then -x else x
  }

  // 1 - |a - b| / max(|a|, |b|, epsilon), clamped to [0, 1].
  function DefaultNumericSimilarity(a: real, b: real, absEpsilon: real): (r: Result<real, ScoreError>)
    ensures r.Err? <==> a == 0.0 && b == 0.0 && absEpsilon <= 0.0
  {
    var denom := Max(Max(Abs(a), Abs(b)), absEpsilon);
    if denom == 0.0 then Err(ZeroDivision)
    else
      var score := 1.0 - Abs(a - b) / denom;
      Ok(if score < 0.0 then 0.0 else if score > 1.0 then 1.0 else score)
  }

  // The score lies in [0, 1], is symmetric, and is 1 exactly for equal numbers; it is 0
  // exactly when the difference reaches the larger magnitude, and otherwise what it lacks of 1
  // is the difference over that magnitude.
  lemma DefaultNumericBounds(a: real, b: real, absEpsilon: real)
    requires DefaultNumericSimilarity(a, b, absEpsilon).Ok?
    ensures var score := DefaultNumericSimilarity(a, b, absEpsilon).value;
            && 0.0 <= score <= 1.0
            && DefaultNumericSimilarity(b, a, absEpsilon) == Ok(score)
            && (score == 1.0 <==> a == b)
            && (score == 0.0 <==> Abs(a - b) >= Max(Max(Abs(a), Abs(b)), absEpsilon))
            && (score > 0.0 ==> (1.0 - score) * Max(Max(Abs(a), Abs(b)), absEpsilon) == Abs(a - b))
  {
    var denom, gap := Max(Max(Abs(a), Abs(b)), absEpsilon), Abs(a - b);
    assert denom > 0.0 && gap >= 0.0;
    QuotientSigns(gap, denom);
  }

  lemma QuotientSigns(gap: real, denom: real)
    requires denom > 0.0 && gap >= 0.0
    ensures gap / denom >= 0.0
    ensures gap / denom == 0.0 <==> gap == 0.0
    ensures gap / denom >= 1.0 <==> gap >= denom
  {
    var q := gap / denom;
    assert q * denom == gap;
    Product(denom, q);
    Product(denom, q - 1.0);
    Product(denom, 1.0 - q);
    assert denom * (q - 1.0) == gap - denom && denom * (1.0 - q) == denom - gap;
  }
}
