/** Cosine similarity and vector fusion of `src/embeddings.rs`, over the reals. */
module Embeddings {

  /** The inner product, summed front to back as the loop does. */
  function Dot(a: seq<real>, b: seq<real>): real
    requires |a| == |b|
  {
    if a == [] then 0.0 else Dot(a[..|a| - 1], b[..|b| - 1]) + Times(a[|a| - 1], b[|b| - 1])
  }

  function Times(x: real, y: real): real {
    x * y
  }

  function NormSq(a: seq<real>): real {
    Dot(a, a)
  }

  const DENOM_FLOOR: real := 0.000000000001

  /** The reference definition: three separate sums. */
  function Cosine(sqrt: real -> real, a: seq<real>, b: seq<real>): real {
    if |a| != |b| then 0.0
    else
      Score(Dot(a, b), Denominator(sqrt, a, b))
  }

  function Denominator(sqrt: real -> real, a: seq<real>, b: seq<real>): real {
    sqrt(NormSq(a)) * sqrt(NormSq(b))
  }

  /** A negligible denominator scores 0. */
  function Score(dot: real, denom: real): real {
    if denom < DENOM_FLOOR then 0.0 else dot / denom
  }

  ghost predicate IsRoot(sqrt: real -> real, x: real) {
    0.0 <= sqrt(x) && sqrt(x) * sqrt(x) == x
  }

  /** The sum of the products: it splits over any split of the vectors, down to single products. */
  lemma {:induction false} DotOfParts(a: seq<real>, b: seq<real>, c: seq<real>, d: seq<real>, x: real, y: real)
    requires |a| == |b| && |c| == |d|
    ensures Dot(a + c, b + d) == Dot(a, b) + Dot(c, d)
    ensures Dot([x], [y]) == x * y
    decreases |c|
  {
    assert [x][..0] == [] && [y][..0] == [];
    assert Dot([x], [y]) == Dot([], []) + Times(x, y);
    if c == [] {
      assert a + c == a && b + d == b;
    } else {
      hide Times;
      var n := |c| - 1;
      assert (a + c)[..|a| + n] == a + c[..n] && (b + d)[..|b| + n] == b + d[..n];
      DotOfParts(a, b, c[..n], d[..n], x, y);
    }
  }

  /** The score is the dot product over the two lengths, 0 where that is negligible or the dimensions differ. */
  ghost predicate IsScore(sqrt: real -> real, a: seq<real>, b: seq<real>, score: real) {
    if |a| != |b| then score == 0.0
    else
      var lengths := sqrt(Dot(a, a)) * sqrt(Dot(b, b));
      if lengths < 0.000000000001 then score == 0.0 else score * lengths == Dot(a, b)
  }

  lemma CosineIsScore(sqrt: real -> real, a: seq<real>, b: seq<real>)
    ensures IsScore(sqrt, a, b, Cosine(sqrt, a, b))
  {
    hide Dot, Score;
    if |a| == |b| {
      assert Denominator(sqrt, a, b) == sqrt(Dot(a, a)) * sqrt(Dot(b, b));
      ScoreMeans(Dot(a, b), Denominator(sqrt, a, b));
    }
  }

  lemma ScoreMeans(dot: real, denom: real)
    ensures if denom < 0.000000000001 then Score(dot, denom) == 0.0 else Score(dot, denom) * denom == dot
  {}

  /** One fused pass; the result is the three-sum definition and lies in [-1, 1]. */
  method CosineSimilarity(sqrt: real -> real, a: seq<real>, b: seq<real>) returns (score: real)
    requires IsRoot(sqrt, NormSq(a)) && IsRoot(sqrt, NormSq(b))
    ensures score == Cosine(sqrt, a, b)
    ensures -1.0 <= score <= 1.0
    ensures IsScore(sqrt, a, b, score)
  {
    CosineBounded(sqrt, a, b);
    CosineIsScore(sqrt, a, b);
    hide IsScore;
    if |a| != |b| {
      return 0.0;
    }
    var dot, sqA, sqB := 0.0, 0.0, 0.0;
    for i := 0 to |a|
      invariant dot == Dot(a[..i], b[..i])
      invariant sqA == NormSq(a[..i])
      invariant sqB == NormSq(b[..i])
    {
      assert a[..i + 1][..i] == a[..i] && b[..i + 1][..i] == b[..i];
      var x, y := a[i], b[i];
      dot := dot + x * y;
      sqA := sqA + x * x;
      sqB := sqB + y * y;
    }
    assert a[..|a|] == a && b[..|b|] == b;
    assert dot == Dot(a, b) && sqA == NormSq(a) && sqB == NormSq(b);
    var denom := sqrt(sqA) * sqrt(sqB);
    assert denom == Denominator(sqrt, a, b);
    if denom < DENOM_FLOOR {
      return 0.0;
    }
    score := dot / denom;
  }

  lemma {:induction false} DotSymmetric(a: seq<real>, b: seq<real>)
    requires |a| == |b|
    ensures Dot(a, b) == Dot(b, a)
  {
    if a != [] {
      DotSymmetric(a[..|a| - 1], b[..|b| - 1]);
    }
  }

  lemma CosineSymmetric(sqrt: real -> real, a: seq<real>, b: seq<real>)
    ensures Cosine(sqrt, a, b) == Cosine(sqrt, b, a)
  {
    if |a| == |b| {
      DotSymmetric(a, b);
    }
  }

  /** |s a + t b|^2 in terms of the three inner products. */
  function Quad(p: real, q: real, r: real, s: real, t: real): real {
    s * (s * p) + 2.0 * (s * (t * q)) + t * (t * r)
  }

  /** It is not negative. */
  lemma {:induction false} QuadraticNonNegative(a: seq<real>, b: seq<real>, s: real, t: real)
    requires |a| == |b|
    ensures Quad(NormSq(a), Dot(a, b), NormSq(b), s, t) >= 0.0
  {
    if a != [] {
      var n := |a| - 1;
      QuadraticNonNegative(a[..n], b[..n], s, t);
      hide Quad;
      AddSquare(NormSq(a[..n]), Dot(a[..n], b[..n]), NormSq(b[..n]), a[n], b[n], s, t);
    }
  }

  lemma AddSquare(p: real, q: real, r: real, x: real, y: real, s: real, t: real)
    requires Quad(p, q, r, s, t) >= 0.0
    ensures Quad(p + x * x, q + x * y, r + y * y, s, t) >= 0.0
  {
    hide Quad;
    QuadAdds(p, q, r, x * x, x * y, y * y, s, t);
    SquareIsQuad(x, y, s, t);
    SquareNonNegative(s * x + t * y);
  }

  lemma SquareNonNegative(z: real)
    ensures z * z >= 0.0
  {}

  lemma QuadAdds(p: real, q: real, r: real, p': real, q': real, r': real, s: real, t: real)
    ensures Quad(p + p', q + q', r + r', s, t) == Quad(p, q, r, s, t) + Quad(p', q', r', s, t)
  {
    Distribute(s, p, p');
    Distribute(s, s * p, s * p');
    Distribute(t, q, q');
    Distribute(s, t * q, t * q');
    Distribute(t, r, r');
    Distribute(t, t * r, t * r');
  }

  lemma Distribute(k: real, x: real, y: real)
    ensures k * (x + y) == k * x + k * y
  {}

  lemma SquareIsQuad(x: real, y: real, s: real, t: real)
    ensures var u, v := s * x, t * y; Quad(x * x, x * y, y * y, s, t) == (u + v) * (u + v)
  {
    var u, v := s * x, t * y;
    assert u * u == s * (s * (x * x));
    assert v * v == t * (t * (y * y));
    assert u * v == s * (t * (x * y));
    Distribute(u + v, u, v);
    assert (u + v) * u == u * u + u * v && (u + v) * v == u * v + v * v;
  }

  /** The Cauchy-Schwarz inequality. */
  lemma CauchySchwarz(a: seq<real>, b: seq<real>)
    requires |a| == |b|
    ensures Dot(a, b) * Dot(a, b) <= NormSq(a) * NormSq(b)
    ensures NormSq(a) >= 0.0 && NormSq(b) >= 0.0
  {
    hide Dot, Quad;
    var p, q, r := NormSq(a), Dot(a, b), NormSq(b);
    QuadraticNonNegative(a, b, 1.0, 0.0);
    QuadraticNonNegative(a, b, 0.0, 1.0);
    QuadraticNonNegative(a, b, 1.0, 1.0);
    QuadraticNonNegative(a, b, 1.0, -1.0);
    QuadUnits(p, q, r);
    QuadraticNonNegative(a, b, r, -q);
    QuadraticNonNegative(a, b, -q, p);
    Discriminant(p, q, r);
  }

  lemma QuadUnits(p: real, q: real, r: real)
    ensures Quad(p, q, r, 1.0, 0.0) == p && Quad(p, q, r, 0.0, 1.0) == r
    ensures Quad(p, q, r, 1.0, 1.0) == p + 2.0 * q + r
    ensures Quad(p, q, r, 1.0, -1.0) == p - 2.0 * q + r
  {}

  lemma Discriminant(p: real, q: real, r: real)
    requires p >= 0.0 && r >= 0.0
    requires p + 2.0 * q + r >= 0.0 && p - 2.0 * q + r >= 0.0
    requires Quad(p, q, r, r, -q) >= 0.0 && Quad(p, q, r, -q, p) >= 0.0
    ensures q * q <= p * r
  {
    QuadAtRoots(p, q, r);
    hide Quad;
    var gap := p * r - q * q;
    if r > 0.0 {
      PositiveFactor(r, gap);
    } else if p > 0.0 {
      PositiveFactor(p, gap);
    } else {
      assert q == 0.0;
    }
  }

  lemma QuadAtRoots(p: real, q: real, r: real)
    ensures Quad(p, q, r, r, -q) == r * (p * r - q * q)
    ensures Quad(p, q, r, -q, p) == p * (p * r - q * q)
  {
    var z := q * q;
    assert (-q) * q == -z;
    assert r * (-z) == -(r * z);
    assert (-q) * ((-q) * r) == r * z;
    assert r * (r * p) == r * (p * r);
    Distribute(r, p * r, -z);
    assert (-q) * ((-q) * p) == p * z;
    assert (-q) * (p * q) == -(p * z);
    assert p * (p * r) == p * (p * r);
    Distribute(p, p * r, -z);
    assert p * (-z) == -(p * z);
  }

  lemma PositiveFactor(r: real, x: real)
    requires r > 0.0 && r * x >= 0.0
    ensures x >= 0.0
  {}

  lemma CosineBounded(sqrt: real -> real, a: seq<real>, b: seq<real>)
    requires IsRoot(sqrt, NormSq(a)) && IsRoot(sqrt, NormSq(b))
    ensures -1.0 <= Cosine(sqrt, a, b) <= 1.0
  {
    hide Dot, Score;
    if |a| == |b| {
      CauchySchwarz(a, b);
      DenominatorSquared(sqrt, a, b);
      hide Denominator, NormSq;
      QuotientBounded(Dot(a, b), Denominator(sqrt, a, b));
    }
  }

  lemma DenominatorSquared(sqrt: real -> real, a: seq<real>, b: seq<real>)
    requires IsRoot(sqrt, NormSq(a)) && IsRoot(sqrt, NormSq(b))
    ensures Denominator(sqrt, a, b) * Denominator(sqrt, a, b) == NormSq(a) * NormSq(b)
  {
    hide NormSq;
    var ra, rb := sqrt(NormSq(a)), sqrt(NormSq(b));
    SquareOfProduct(ra, rb);
    SameProduct(ra * ra, NormSq(a), rb * rb, NormSq(b));
  }

  lemma QuotientBounded(d: real, denom: real)
    requires d * d <= denom * denom
    ensures -1.0 <= Score(d, denom) <= 1.0
  {
    if denom >= DENOM_FLOOR {
      SquareBound(d, denom);
      Quotient(d, denom);
    }
  }

  lemma SquareOfProduct(x: real, y: real)
    ensures (x * y) * (x * y) == (x * x) * (y * y)
  {}

  lemma SameProduct(x: real, x': real, y: real, y': real)
    requires x == x' && y == y'
    ensures x * y == x' * y'
  {}

  lemma SquareBound(d: real, e: real)
    requires d * d <= e * e && e > 0.0
    ensures -e <= d <= e
  {
    AtMostFromSquares(d, e);
    assert (-d) * (-d) == d * d;
    AtMostFromSquares(-d, e);
  }

  lemma AtMostFromSquares(x: real, y: real)
    requires x * x <= y * y && y >= 0.0
    ensures x <= y
  {
    if x > y {
      LargerSquare(x, y);
    }
  }

  lemma LargerSquare(x: real, y: real)
    requires x > y >= 0.0
    ensures x * x > y * y
  {
    assert x * x - y * y == (x - y) * (x + y);
    Positive(x - y, x + y);
  }

  lemma Positive(x: real, y: real)
    requires x > 0.0 && y > 0.0
    ensures x * y > 0.0
  {}

  lemma Quotient(d: real, e: real)
    requires -e <= d <= e && e > 0.0
    ensures -1.0 <= d / e <= 1.0
  {
    assert d / e * e == d;
  }

  /** A vector that is not negligible is fully similar to itself. */
  lemma SelfSimilarity(sqrt: real -> real, a: seq<real>)
    requires IsRoot(sqrt, NormSq(a)) && NormSq(a) >= DENOM_FLOOR
    ensures Cosine(sqrt, a, a) == 1.0
  {
    var n := NormSq(a);
    assert sqrt(n) * sqrt(n) == n;
    assert n / n == 1.0;
  }

  // ----- Fusion ----------------------------------------------------------

  function Clamp(w: real): real {
    if w < 0.0 then 0.0 else if w > 1.0 then 1.0 else w
  }

  function Blend(p: seq<real>, s: seq<real>, w: real): (f: seq<real>)
    requires |p| == |s|
    ensures |f| == |p|
  {
    if p == [] then []
    else Blend(p[..|p| - 1], s[..|s| - 1], w) + [w * p[|p| - 1] + (1.0 - w) * s[|s| - 1]]
  }

  /** Returns the primary when the dimensions differ. */
  function Fuse(primary: seq<real>, secondary: seq<real>, primaryWeight: real): seq<real> {
    if |primary| != |secondary| then primary else Blend(primary, secondary, Clamp(primaryWeight))
  }

  lemma BlendDot(p: seq<real>, s: seq<real>, w: real, x: seq<real>)
    requires |p| == |s| == |x|
    ensures Dot(Blend(p, s, w), x) == w * Dot(p, x) + (1.0 - w) * Dot(s, x)
  {
    hide Dot, Blend;
    BlendSum(p, s, w, x);
  }

  lemma {:induction false} BlendSum(p: seq<real>, s: seq<real>, w: real, x: seq<real>)
    requires |p| == |s| == |x|
    ensures Dot(Blend(p, s, w), x) == Times(w, Dot(p, x)) + Times(1.0 - w, Dot(s, x))
    decreases |p|
  {
    if p != [] {
      var n := |p| - 1;
      BlendSum(p[..n], s[..n], w, x[..n]);
      assert Blend(p, s, w)[..n] == Blend(p[..n], s[..n], w);
      DotSnoc(Blend(p, s, w), x);
      DotSnoc(p, x);
      DotSnoc(s, x);
      hide Dot, Times;
      var d, e, f := Dot(p[..n], x[..n]), Dot(s[..n], x[..n]), Dot(Blend(p[..n], s[..n], w), x[..n]);
      BlendTerm(w, 1.0 - w, p[n], s[n], x[n], d, e, f);
    }
  }

  lemma DotSnoc(a: seq<real>, b: seq<real>)
    requires |a| == |b| && a != []
    ensures var n := |a| - 1; Dot(a, b) == Dot(a[..n], b[..n]) + Times(a[n], b[n])
  {
    hide Times;
  }

  /** One more coordinate of the blend. */
  lemma BlendTerm(w: real, v: real, p: real, s: real, x: real, d: real, e: real, f: real)
    requires f == Times(w, d) + Times(v, e)
    ensures f + Times(w * p + v * s, x) == Times(w, d + Times(p, x)) + Times(v, e + Times(s, x))
  {
    Distribute(x, w * p, v * s);
    Regroup(w, p, x);
    Regroup(v, s, x);
    Distribute(w, d, p * x);
    Distribute(v, e, s * x);
  }

  lemma Regroup(w: real, p: real, x: real)
    ensures x * (w * p) == w * (p * x)
  {}

  /**
   * With vectors of equal norm and at least half the weight on the primary,
   * the fused vector is at least as close to the primary as to the secondary.
   */
  lemma FuseLeansToPrimary(sqrt: real -> real, primary: seq<real>, secondary: seq<real>, w: real)
    requires |primary| == |secondary| && NormSq(primary) == NormSq(secondary) && w >= 0.5
    ensures var f := Fuse(primary, secondary, w);
      Cosine(sqrt, f, primary) >= Cosine(sqrt, f, secondary)
  {
    BlendLeans(primary, secondary, Clamp(w));
    hide Dot, Blend;
    LargerDotIsCloser(sqrt, Fuse(primary, secondary, w), primary, secondary);
  }

  lemma BlendLeans(p: seq<real>, s: seq<real>, v: real)
    requires |p| == |s| && NormSq(p) == NormSq(s) && v >= 0.5
    ensures Dot(Blend(p, s, v), p) >= Dot(Blend(p, s, v), s)
  {
    hide Dot, Blend;
    BlendDot(p, s, v, p);
    BlendDot(p, s, v, s);
    DotSymmetric(p, s);
    var n, d := NormSq(p), Dot(p, s);
    DotAtMostNorm(p, s);
    PrimaryGap(v, n, d);
  }

  lemma DotAtMostNorm(p: seq<real>, s: seq<real>)
    requires |p| == |s| && NormSq(p) == NormSq(s)
    ensures Dot(p, s) <= NormSq(p)
  {
    hide Dot;
    CauchySchwarz(p, s);
    AtMostFromSquares(Dot(p, s), NormSq(p));
  }

  lemma LargerDotIsCloser(sqrt: real -> real, f: seq<real>, p: seq<real>, s: seq<real>)
    requires |f| == |p| == |s| && NormSq(p) == NormSq(s)
    requires Dot(f, p) >= Dot(f, s)
    ensures Cosine(sqrt, f, p) >= Cosine(sqrt, f, s)
  {
    hide Dot, Score;
    assert Denominator(sqrt, f, p) == Denominator(sqrt, f, s);
    hide Denominator;
    ScoreOrdered(Dot(f, p), Dot(f, s), Denominator(sqrt, f, p));
  }

  lemma PrimaryGap(v: real, n: real, d: real)
    requires v >= 0.5 && d <= n
    ensures v * n + (1.0 - v) * d >= v * d + (1.0 - v) * n
  {
    assert v * n + (1.0 - v) * d - (v * d + (1.0 - v) * n) == (2.0 * v - 1.0) * (n - d);
  }

  lemma ScoreOrdered(x: real, y: real, e: real)
    requires x >= y
    ensures Score(x, e) >= Score(y, e)
  {}

  /** Every coordinate of the fused vector is the weighted mean of the two. */
  lemma {:induction false} FuseAt(primary: seq<real>, secondary: seq<real>, w: real, i: nat)
    requires |primary| == |secondary| && i < |primary|
    ensures |Fuse(primary, secondary, w)| == |primary|
    ensures 0.0 <= w <= 1.0 ==>
              Fuse(primary, secondary, w)[i] == w * primary[i] + (1.0 - w) * secondary[i]
    decreases |primary|
  {
    var n := |primary| - 1;
    if i < n {
      FuseAt(primary[..n], secondary[..n], w, i);
    }
  }

  /** All the weight on one side gives that side. */
  lemma {:induction false} FuseEnds(primary: seq<real>, secondary: seq<real>, w: real)
    requires |primary| == |secondary|
    ensures w >= 1.0 ==> Fuse(primary, secondary, w) == primary
    ensures w <= 0.0 ==> Fuse(primary, secondary, w) == secondary
  {
    if primary != [] {
      var n := |primary| - 1;
      FuseEnds(primary[..n], secondary[..n], w);
      assert primary == primary[..n] + [primary[n]] && secondary == secondary[..n] + [secondary[n]];
    }
  }
}
