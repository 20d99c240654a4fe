/** The vector arithmetic of vector/distance.go and index/bruteforce, in exact reals: the accumulation
    loops, Cauchy-Schwarz, and what follows for cosine scores and Euclidean distances. */
module Vectors {
  import opened Wire

  type Vec = seq<real>

  /** The exact value of a float32 vector. */
  function Reals(val: U32 -> real, v: seq<U32>): (r: Vec)
    ensures |r| == |v| && forall i :: 0 <= i < |v| ==> r[i] == val(v[i])
  {
    seq(|v|, i requires 0 <= i < |v| => val(v[i]))
  }

  function Dot(a: Vec, b: Vec): real
    requires |a| == |b|
  {
    if a == [] then 0.0
    else
      var n := |a| - 1;
      Dot(a[..n], b[..n]) + a[n] * b[n]
  }

  function Diff(a: Vec, b: Vec): (d: Vec)
    requires |a| == |b|
    ensures |d| == |a| && forall i :: 0 <= i < |a| ==> d[i] == a[i] - b[i]
  {
    seq(|a|, i requires 0 <= i < |a| => a[i] - b[i])
  }

  function SquaredDistance(a: Vec, b: Vec): real
    requires |a| == |b|
  {
    Dot(Diff(a, b), Diff(a, b))
  }

  /** What math.Sqrt computes in exact arithmetic. */
  ghost predicate IsSqrt(sqrt: real -> real) {
    forall x :: x >= 0.0 ==> sqrt(x) >= 0.0 && sqrt(x) * sqrt(x) == x
  }

  // ---------------------------------------------------------------- the loops

  lemma DotPrefix(a: Vec, b: Vec, i: nat)
    requires i < |a| == |b|
    ensures Dot(a[..i + 1], b[..i + 1]) == Dot(a[..i], b[..i]) + a[i] * b[i]
  {
    assert a[..i + 1][..i] == a[..i] && b[..i + 1][..i] == b[..i];
  }

  lemma Whole(a: Vec)
    ensures a[..|a|] == a
  {
  }

  /** bruteforce dot. */
  method DotLoop(a: Vec, b: Vec) returns (s: real)
    requires |a| <= |b|
    ensures s == Dot(a, b[..|a|])
  {
    s := 0.0;
    for i := 0 to |a|
      invariant s == Dot(a[..i], b[..i])
    {
      DotPrefix(a, b[..|a|], i);
      assert b[..|a|][..i] == b[..i] && b[..|a|][..i + 1] == b[..i + 1];
      s := s + a[i] * b[i];
    }
    Whole(a);
  }

  function CosineOf(a: Vec, b: Vec, sqrt: real -> real): real
    requires |a| == |b| && sqrt(Dot(a, a)) * sqrt(Dot(b, b)) != 0.0
  {
    Ratio(Dot(a, b), sqrt(Dot(a, a)), sqrt(Dot(b, b)))
  }

  function Ratio(d: real, m: real, n: real): real
    requires m * n != 0.0
  {
    d / (m * n)
  }

  function L2(a: Vec, b: Vec, sqrt: real -> real): real
    requires |a| == |b|
  {
    sqrt(SquaredDistance(a, b))
  }

  /** vector.CosineSimilarity: fails exactly on unequal, empty or zero vectors, and otherwise lies in [-1, 1]. */
  method CosineSimilarity(a: Vec, b: Vec, sqrt: real -> real) returns (r: Result<real>)
    requires IsSqrt(sqrt)
    ensures r.Err? <==> |a| != |b| || |a| == 0 || IsZero(a) || IsZero(b)
    ensures r.Ok? ==> sqrt(Dot(a, a)) * sqrt(Dot(b, b)) != 0.0 && r.value == CosineOf(a, b, sqrt)
    ensures r.Ok? ==> -1.0 <= r.value <= 1.0
  {
    if |a| != |b| || |a| == 0 {
      return Err;
    }
    var dot, na2, nb2 := 0.0, 0.0, 0.0;
    for i := 0 to |a|
      invariant dot == Dot(a[..i], b[..i]) && na2 == Dot(a[..i], a[..i]) && nb2 == Dot(b[..i], b[..i])
    {
      DotPrefix(a, b, i);
      DotPrefix(a, a, i);
      DotPrefix(b, b, i);
      dot := dot + a[i] * b[i];
      na2 := na2 + a[i] * a[i];
      nb2 := nb2 + b[i] * b[i];
    }
    Whole(a);
    Whole(b);
    SquareSum(a);
    SquareSum(b);
    if na2 == 0.0 || nb2 == 0.0 {
      return Err;
    }
    CosineInRange(a, b, sqrt);
    return Ok(dot / (sqrt(na2) * sqrt(nb2)));
  }

  /** vector.L2Distance. */
  method L2Distance(a: Vec, b: Vec, sqrt: real -> real) returns (r: Result<real>)
    ensures r.Err? <==> |a| != |b|
    ensures r.Ok? ==> r.value == L2(a, b, sqrt)
  {
    if |a| != |b| {
      return Err;
    }
    var sum := 0.0;
    ghost var d := Diff(a, b);
    for i := 0 to |a|
      invariant sum == Dot(d[..i], d[..i])
    {
      DotPrefix(d, d, i);
      var x := a[i] - b[i];
      sum := sum + x * x;
    }
    Whole(d);
    return Ok(sqrt(sum));
  }

  // ---------------------------------------------------------------- Cauchy-Schwarz

  ghost predicate IsZero(a: Vec) {
    forall i :: 0 <= i < |a| ==> a[i] == 0.0
  }

  lemma {:induction false} SquareSum(a: Vec)
    ensures Dot(a, a) >= 0.0
    ensures Dot(a, a) == 0.0 <==> IsZero(a)
  {
    if a == [] {
    } else {
      var n := |a| - 1;
      SquareSum(a[..n]);
      SquareIsPositive(a[n]);
      if IsZero(a) {
        assert IsZero(a[..n]);
      }
      if Dot(a, a) == 0.0 {
        assert IsZero(a[..n]);
        assert forall i :: 0 <= i < n ==> a[i] == a[..n][i];
      }
    }
  }

  lemma SquareIsPositive(x: real)
    ensures x * x >= 0.0
    ensures x * x == 0.0 <==> x == 0.0
  {
    if x > 0.0 {
      SquareGrows(x, 0.0);
    } else if x < 0.0 {
      SquareGrows(-x, 0.0);
    }
  }

  lemma SquareGrows(x: real, y: real)
    requires 0.0 <= y < x
    ensures y * y < x * x
  {
    assert (x - y) * x > 0.0 && (x - y) * y >= 0.0;
  }

  /** For non-negative y, x^2 <= y^2 gives |x| <= y. */
  lemma RootOrder(x: real, y: real)
    requires y >= 0.0 && x * x <= y * y
    ensures -y <= x <= y
  {
    if x > y {
      SquareGrows(x, y);
    } else if x < -y {
      SquareGrows(-x, y);
    }
  }

  /** The inductive step: from d^2 <= a b to (d + x y)^2 <= (a + x^2)(b + y^2). */
  lemma SchwarzStep(d: real, a: real, b: real, x: real, y: real)
    requires a >= 0.0 && b >= 0.0 && d * d <= a * b
    ensures (d + x * y) * (d + x * y) <= (a + x * x) * (b + y * y)
  {
    var p, q := x * x * b, y * y * a;
    var c := 2.0 * d * x * y;
    TwiceBelowSum(d, a, b, x, y);
    assert c <= p + q;
    assert (d + x * y) * (d + x * y) == d * d + c + (x * x) * (y * y);
    assert (a + x * x) * (b + y * y) == a * b + p + q + (x * x) * (y * y);
  }

  lemma TwiceBelowSum(d: real, a: real, b: real, x: real, y: real)
    requires a >= 0.0 && b >= 0.0 && d * d <= a * b
    ensures 2.0 * d * x * y <= x * x * b + y * y * a
  {
    var p, q := x * x * b, y * y * a;
    var c := 2.0 * d * x * y;
    SquareIsPositive(x);
    SquareIsPositive(y);
    SquareIsPositive(p - q);
    SquareIsPositive(x * y);
    assert p >= 0.0 && q >= 0.0;
    var s := (x * y) * (x * y);
    assert c * c == 4.0 * (d * d) * s;
    assert p * q == (a * b) * s;
    assert (d * d) * s <= (a * b) * s;
    assert (p + q) * (p + q) == (p - q) * (p - q) + 4.0 * (p * q);
    RootOrder(c, p + q);
  }

  lemma {:induction false} CauchySchwarz(a: Vec, b: Vec)
    requires |a| == |b|
    ensures Dot(a, b) * Dot(a, b) <= Dot(a, a) * Dot(b, b)
  {
    if a == [] {
    } else {
      var n := |a| - 1;
      CauchySchwarz(a[..n], b[..n]);
      SquareSum(a[..n]);
      SquareSum(b[..n]);
      SchwarzStep(Dot(a[..n], b[..n]), Dot(a[..n], a[..n]), Dot(b[..n], b[..n]), a[n], b[n]);
    }
  }

  lemma NormPositive(a: Vec, sqrt: real -> real)
    requires IsSqrt(sqrt)
    ensures sqrt(Dot(a, a)) >= 0.0 && sqrt(Dot(a, a)) * sqrt(Dot(a, a)) == Dot(a, a)
    ensures sqrt(Dot(a, a)) == 0.0 <==> IsZero(a)
  {
    SquareSum(a);
    SquareIsPositive(sqrt(Dot(a, a)));
  }

  lemma CosineArithmetic(d: real, aa: real, bb: real, m: real, n: real)
    requires m > 0.0 && n > 0.0 && m * m == aa && n * n == bb && d * d <= aa * bb
    ensures m * n > 0.0
    ensures -1.0 <= Ratio(d, m, n) <= 1.0
  {
    assert m * n > 0.0;
    assert (m * n) * (m * n) == aa * bb;
    RootOrder(d, m * n);
    QuotientInUnit(d, m * n);
  }

  lemma QuotientInUnit(d: real, m: real)
    requires m > 0.0 && -m <= d <= m
    ensures -1.0 <= d / m <= 1.0
  {
  }

  /** Cosine scores lie in [-1, 1] in every dimension. */
  lemma CosineInRange(a: Vec, b: Vec, sqrt: real -> real)
    requires IsSqrt(sqrt) && |a| == |b| && !IsZero(a) && !IsZero(b)
    ensures sqrt(Dot(a, a)) * sqrt(Dot(b, b)) > 0.0
    ensures -1.0 <= CosineOf(a, b, sqrt) <= 1.0
  {
    NormPositive(a, sqrt);
    NormPositive(b, sqrt);
    CauchySchwarz(a, b);
    CosineArithmetic(Dot(a, b), Dot(a, a), Dot(b, b), sqrt(Dot(a, a)), sqrt(Dot(b, b)));
  }

  // ---------------------------------------------------------------- the Euclidean metric

  lemma {:induction false} SquareOfSum(u: Vec, v: Vec, w: Vec)
    requires |u| == |v| == |w| && forall i :: 0 <= i < |u| ==> w[i] == u[i] + v[i]
    ensures Dot(w, w) == Dot(u, u) + 2.0 * Dot(u, v) + Dot(v, v)
  {
    if u == [] {
    } else {
      var n := |u| - 1;
      SquareOfSum(u[..n], v[..n], w[..n]);
      assert w[n] * w[n] == u[n] * u[n] + 2.0 * (u[n] * v[n]) + v[n] * v[n];
    }
  }

  lemma {:induction false} SquareOfNegation(u: Vec, v: Vec)
    requires |u| == |v| && forall i :: 0 <= i < |u| ==> v[i] == -u[i]
    ensures Dot(u, u) == Dot(v, v)
  {
    if u == [] {
    } else {
      var n := |u| - 1;
      SquareOfNegation(u[..n], v[..n]);
    }
  }

  lemma L2Symmetric(a: Vec, b: Vec, sqrt: real -> real)
    requires |a| == |b|
    ensures L2(a, b, sqrt) == L2(b, a, sqrt)
  {
    SquareOfNegation(Diff(a, b), Diff(b, a));
  }

  lemma L2Separates(a: Vec, b: Vec, sqrt: real -> real)
    requires IsSqrt(sqrt) && |a| == |b|
    ensures L2(a, b, sqrt) >= 0.0
    ensures L2(a, b, sqrt) == 0.0 <==> a == b
  {
    NormPositive(Diff(a, b), sqrt);
    if L2(a, b, sqrt) == 0.0 {
      forall i | 0 <= i < |a|
        ensures a[i] == b[i]
      {
        assert Diff(a, b)[i] == 0.0;
      }
    }
  }

  lemma L2Triangle(a: Vec, b: Vec, c: Vec, sqrt: real -> real)
    requires IsSqrt(sqrt) && |a| == |b| == |c|
    ensures L2(a, c, sqrt) <= L2(a, b, sqrt) + L2(b, c, sqrt)
  {
    hide Dot, Diff;
    var u, v, w := Diff(a, b), Diff(b, c), Diff(a, c);
    NormPositive(u, sqrt);
    NormPositive(v, sqrt);
    NormPositive(w, sqrt);
    SquareOfSum(u, v, w);
    CauchySchwarz(u, v);
    TriangleArithmetic(L2(a, b, sqrt), L2(b, c, sqrt), L2(a, c, sqrt), Dot(u, v));
  }

  lemma TriangleArithmetic(m: real, n: real, l: real, d: real)
    requires m >= 0.0 && n >= 0.0 && d * d <= (m * m) * (n * n)
    requires l * l == m * m + 2.0 * d + n * n
    ensures l <= m + n
  {
    assert m * n >= 0.0;
    assert (m * n) * (m * n) == (m * m) * (n * n);
    RootOrder(d, m * n);
    assert (m + n) * (m + n) == m * m + 2.0 * (m * n) + n * n;
    RootOrder(l, m + n);
  }

  // ---------------------------------------------------------------- what the two formulas mean

  lemma DotAppend(d: Vec, x: real)
    ensures Dot(d + [x], d + [x]) == Dot(d, d) + x * x
  {
    DotPrefix(d + [x], d + [x], |d|);
    assert (d + [x])[..|d|] == d && (d + [x])[..|d| + 1] == d + [x];
  }

  lemma DiffAppend(a: Vec, b: Vec, x: real, y: real)
    requires |a| == |b|
    ensures Diff(a + [x], b + [y]) == Diff(a, b) + [x - y]
  {
  }

  /** Each coordinate adds the square of its difference. */
  lemma L2OneMore(a: Vec, b: Vec, x: real, y: real, sqrt: real -> real)
    requires IsSqrt(sqrt) && |a| == |b|
    ensures L2([], [], sqrt) == 0.0
    ensures var (before, after) := (L2(a, b, sqrt), L2(a + [x], b + [y], sqrt));
            after >= 0.0 && after * after == before * before + (x - y) * (x - y)
  {
    hide Dot, Diff, IsSqrt;
    L2Separates([], [], sqrt);
    NormPositive(Diff(a, b), sqrt);
    NormPositive(Diff(a + [x], b + [y]), sqrt);
    DiffAppend(a, b, x, y);
    DotAppend(Diff(a, b), x - y);
  }

  lemma {:induction false} DotNegates(a: Vec, b: Vec, c: Vec)
    requires |a| == |b| == |c| && forall i :: 0 <= i < |b| ==> c[i] == -b[i]
    ensures Dot(a, c) == -Dot(a, b)
  {
    if a == [] {
    } else {
      var n := |a| - 1;
      DotNegates(a[..n], b[..n], c[..n]);
      assert a[n] * c[n] == -(a[n] * b[n]);
    }
  }

  lemma RatioTimes(d: real, m: real, n: real)
    requires m * n != 0.0
    ensures m * n * Ratio(d, m, n) == d
  {
  }

  lemma SquareOfDifference(a: Vec, b: Vec)
    requires |a| == |b|
    ensures Dot(Diff(a, b), Diff(a, b)) == Dot(a, a) + Dot(b, b) - 2.0 * Dot(a, b)
  {
    hide Dot, Diff;
    var opposite := seq(|b|, i requires 0 <= i < |b| => -b[i]);
    SquareOfSum(a, opposite, Diff(a, b));
    SquareOfNegation(b, opposite);
    DotNegates(a, b, opposite);
  }

  /** The law of cosines ties the two scores together: the cosine is the one of the angle between the
      vectors, whose lengths are their distances from the origin. */
  lemma LawOfCosines(a: Vec, b: Vec, sqrt: real -> real)
    requires IsSqrt(sqrt) && |a| == |b| && sqrt(Dot(a, a)) * sqrt(Dot(b, b)) != 0.0
    ensures var (m, n, l) := (Length(a, sqrt), Length(b, sqrt), L2(a, b, sqrt));
            l * l == m * m + n * n - 2.0 * (m * n * CosineOf(a, b, sqrt))
  {
    hide Dot, Diff, Ratio, IsSqrt, Length;
    LengthIsNorm(a, sqrt);
    LengthIsNorm(b, sqrt);
    NormPositive(a, sqrt);
    NormPositive(b, sqrt);
    NormPositive(Diff(a, b), sqrt);
    SquareOfDifference(a, b);
    RatioTimes(Dot(a, b), sqrt(Dot(a, a)), sqrt(Dot(b, b)));
  }

  /** The distance from the origin. */
  function Length(a: Vec, sqrt: real -> real): real {
    L2(a, seq(|a|, _ => 0.0), sqrt)
  }

  lemma LengthIsNorm(a: Vec, sqrt: real -> real)
    ensures Length(a, sqrt) == sqrt(Dot(a, a))
  {
    assert Diff(a, seq(|a|, _ => 0.0)) == a;
  }
}
