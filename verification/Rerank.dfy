/** The exact second pass of `vecscan`: a unit query against stored vectors, over the reals. */
module Rerank {
  import opened Common
  import opened Vecscan
  import opened Shortlist

  function DotRealTo(a: seq<real>, b: seq<real>, n: nat): real
    requires n <= |a| && n <= |b|
  {
    if n == 0 then 0.0 else DotRealTo(a, b, n - 1) + Mul(a[n - 1], b[n - 1])
  }

  function DotReal(a: seq<real>, b: seq<real>): real
    requires |a| == |b|
  {
    DotRealTo(a, b, |a|)
  }

  function SumReal(s: seq<real>): real { if s == [] then 0.0 else SumReal(s[..|s| - 1]) + s[|s| - 1] }

  lemma {:induction false} SumRealUpdate(s: seq<real>, i: nat, v: real)
    requires i < |s|
    ensures SumReal(s[i := v]) == SumReal(s) - s[i] + v
  {
    var n := |s| - 1;
    if i < n {
      SumRealUpdate(s[..n], i, v);
      assert s[i := v][..n] == s[..n][i := v];
    } else {
      assert s[i := v][..n] == s[..n];
    }
  }

  lemma {:induction false} SumRealZero(s: seq<real>)
    requires forall i :: 0 <= i < |s| ==> s[i] == 0.0
    ensures SumReal(s) == 0.0
  {
    if s != [] { SumRealZero(s[..|s| - 1]); }
  }

  lemma {:induction false} SquaresAreADot(v: seq<real>, n: nat)
    requires n <= |v|
    ensures DotRealTo(v, v, n) == SumSquares(v[..n])
  {
    if n > 0 {
      SquaresAreADot(v, n - 1);
      assert v[..n][..n - 1] == v[..n - 1];
    }
  }

  // ---- The unit query ----

  /** The vector of length one along `v`. */
  function UnitVector(v: seq<real>, sqrt: real -> real): (u: seq<real>)
    requires sqrt(SumSquares(v)) != 0.0
    ensures |u| == |v|
  {
    seq(|v|, i requires 0 <= i < |v| => Unit(v, sqrt, i))
  }

  /** Scale to unit length; nothing for a zero or non-finite query. */
  method UnitQuery(query: seq<Float>, sqrt: real -> real) returns (unit: Option<seq<real>>)
    requires IsSqrt(sqrt)
    ensures unit.Some? <==> Quantizable(query)
    ensures unit.Some? ==>
      sqrt(SumSquares(Values(query))) > 0.0 && unit.value == UnitVector(Values(query), sqrt)
  {
    NonzeroMeansPositive(Values(query), sqrt);
    var finite, sum, _ := Measure(query);
    if !finite || sqrt(sum) == 0.0 {
      return None;
    }
    return Some(UnitVector(Values(query), sqrt));
  }

  lemma SquareOfQuotient(x: real, n: real)
    requires n > 0.0
    ensures Mul(Mul(x / n, x / n), Mul(n, n)) == Mul(x, x)
  {
    var q := x / n;
    assert q * n == x;
    assert Mul(Mul(q, q), Mul(n, n)) == Mul(Mul(q, n), Mul(q, n));
  }

  lemma Distributes(a: real, b: real, c: real)
    ensures Mul(a + b, c) == Mul(a, c) + Mul(b, c)
  {
  }

  lemma {:induction false} ScaledSquares(v: seq<real>, n: real, u: seq<real>)
    requires n > 0.0 && |u| == |v| && forall i :: 0 <= i < |v| ==> u[i] == v[i] / n
    ensures Mul(SumSquares(u), Mul(n, n)) == SumSquares(v)
  {
    if v != [] {
      var k := |v| - 1;
      ScaledSquares(v[..k], n, u[..k]);
      SquareOfQuotient(v[k], n);
      Distributes(SumSquares(u[..k]), Mul(u[k], u[k]), Mul(n, n));
    }
  }

  /** A unit query has length one. */
  lemma UnitVectorHasLengthOne(v: seq<real>, sqrt: real -> real)
    requires IsSqrt(sqrt) && sqrt(SumSquares(v)) > 0.0
    ensures SumSquares(UnitVector(v, sqrt)) == 1.0
  {
    var n := sqrt(SumSquares(v));
    ScaledSquares(v, n, UnitVector(v, sqrt));
    OnlyOne(SumSquares(UnitVector(v, sqrt)), Mul(n, n));
  }

  lemma OnlyOne(x: real, s: real)
    requires s > 0.0 && Mul(x, s) == s
    ensures x == 1.0
  {
    Distributes(x, -1.0, s);
    assert Mul(-1.0, s) == -s;
  }

  // ---- The exact similarity ----

  /** One block of eight products for each of the two sums. */
  method AddRealBlock(dot: array<real>, mag: array<real>, q: seq<real>, v: seq<real>, k: nat)
    requires dot != mag && dot.Length == mag.Length == 8 && |q| == |v| && 8 * k + 8 <= |q|
    requires SumReal(dot[..]) == DotRealTo(q, v, 8 * k) && SumReal(mag[..]) == DotRealTo(v, v, 8 * k)
    modifies dot, mag
    ensures SumReal(dot[..]) == DotRealTo(q, v, 8 * k + 8) && SumReal(mag[..]) == DotRealTo(v, v, 8 * k + 8)
  {
    for lane := 0 to 8
      invariant SumReal(dot[..]) == DotRealTo(q, v, 8 * k + lane)
      invariant SumReal(mag[..]) == DotRealTo(v, v, 8 * k + lane)
    {
      var i := 8 * k + lane;
      ghost var was, had := dot[..], mag[..];
      dot[lane] := dot[lane] + Mul(q[i], v[i]);
      mag[lane] := mag[lane] + Mul(v[i], v[i]);
      SumRealUpdate(was, lane, dot[lane]);
      SumRealUpdate(had, lane, mag[lane]);
      assert dot[..] == was[lane := dot[lane]] && mag[..] == had[lane := mag[lane]];
    }
  }

  method AddUp(lanes: array<real>) returns (total: real)
    ensures total == SumReal(lanes[..])
  {
    total := 0.0;
    for l := 0 to lanes.Length
      invariant total == SumReal(lanes[..l])
    {
      assert lanes[..l + 1][..l] == lanes[..l];
      total := total + lanes[l];
    }
    assert lanes[..lanes.Length] == lanes[..];
  }

  /** Both sums: eight lanes each, then the remainder. */
  method Sums(q: seq<real>, v: seq<real>) returns (dot: real, mag: real)
    requires |q| == |v|
    ensures dot == DotReal(q, v) && mag == SumSquares(v)
  {
    var dots, mags := new real[8](_ => 0.0), new real[8](_ => 0.0);
    SumRealZero(dots[..]);
    SumRealZero(mags[..]);
    var blocks := |q| / 8;
    for k := 0 to blocks
      invariant SumReal(dots[..]) == DotRealTo(q, v, 8 * k) && SumReal(mags[..]) == DotRealTo(v, v, 8 * k)
    {
      AddRealBlock(dots, mags, q, v, k);
    }
    dot := AddUp(dots);
    mag := AddUp(mags);
    for i := 8 * blocks to |q|
      invariant dot == DotRealTo(q, v, i) && mag == DotRealTo(v, v, i)
    {
      dot := dot + Mul(q[i], v[i]);
      mag := mag + Mul(v[i], v[i]);
    }
    SquaresAreADot(v, |v|);
    assert v[..|v|] == v;
  }

  /** Similarity to a stored blob. A non-finite component makes a sum non-finite, which is how the code sees it. */
  method UnitSimilarityBlob(unit: seq<real>, blob: Bytes, decode: Bytes -> Float, sqrt: real -> real)
    returns (r: Option<real>)
    requires IsSqrt(sqrt)
    ensures unit == [] || |blob| != 4 * |unit| ==> r.None?
    ensures unit != [] && |blob| == 4 * |unit| ==> (r.Some? <==> Quantizable(Decoded(blob, decode)))
    ensures r.Some? ==>
      var v := Values(Decoded(blob, decode));
      |v| == |unit| && sqrt(SumSquares(v)) > 0.0 && r.value == DotReal(unit, v) / sqrt(SumSquares(v))
  {
    if unit == [] || |blob| != |unit| * 4 {
      return None;
    }
    var floats := Decoded(blob, decode);
    NonzeroMeansPositive(Values(floats), sqrt);
    var finite, _, _ := Measure(floats);
    var dot, mag := Sums(unit, Values(floats));
    SquareRootIsPositive(mag, sqrt);
    if mag <= 0.0 || !finite {
      return None;
    }
    return Some(dot / sqrt(mag));
  }

  lemma SquareRootIsPositive(x: real, sqrt: real -> real)
    requires IsSqrt(sqrt) && x >= 0.0
    ensures sqrt(x) > 0.0 <==> x > 0.0
  {
    assert Mul(sqrt(x), sqrt(x)) == x;
  }

  lemma QuotientOfProduct(x: real, y: real, n: real)
    requires n > 0.0
    ensures Mul(x, y / n) == Mul(x, y) / n
  {
  }

  lemma SumOfQuotients(x: real, y: real, n: real)
    requires n > 0.0
    ensures x / n + y / n == (x + y) / n
  {
  }

  lemma {:induction false} CosineOfUnit(a: seq<real>, b: seq<real>, sqrt: real -> real, n: nat)
    requires sqrt(SumSquares(a)) > 0.0 && sqrt(SumSquares(b)) > 0.0 && n <= |a| == |b|
    ensures DotRealTo(UnitVector(a, sqrt), b, n) / sqrt(SumSquares(b)) == CosineTo(a, b, sqrt, n)
  {
    if n > 0 {
      CosineOfUnit(a, b, sqrt, n - 1);
      var u := UnitVector(a, sqrt);
      QuotientOfProduct(u[n - 1], b[n - 1], sqrt(SumSquares(b)));
      SumOfQuotients(DotRealTo(u, b, n - 1), Mul(u[n - 1], b[n - 1]), sqrt(SumSquares(b)));
    }
  }

  /** What the second pass computes is the exact cosine that the shortlist is measured against. */
  lemma RerankIsExact(query: seq<real>, vector: seq<real>, sqrt: real -> real)
    requires sqrt(SumSquares(query)) > 0.0 && sqrt(SumSquares(vector)) > 0.0 && |query| == |vector|
    ensures DotReal(UnitVector(query, sqrt), vector) / sqrt(SumSquares(vector)) == Cosine(query, vector, sqrt)
  {
    CosineOfUnit(query, vector, sqrt, |query|);
  }
}
