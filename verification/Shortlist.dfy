/** How far approximate scores stray from the exact cosine, and what that means for a shortlist. */
module Shortlist {
  import opened Common
  import opened Sorting
  import opened Vecscan

  /** Component `i` of the unit vector along `v`. */
  function Unit(v: seq<real>, sqrt: real -> real, i: nat): real
    requires i < |v| && sqrt(SumSquares(v)) != 0.0
  {
    v[i] / sqrt(SumSquares(v))
  }

  function CosineTo(a: seq<real>, b: seq<real>, sqrt: real -> real, n: nat): real
    requires n <= |a| && n <= |b| && sqrt(SumSquares(a)) != 0.0 && sqrt(SumSquares(b)) != 0.0
  {
    if n == 0 then 0.0 else CosineTo(a, b, sqrt, n - 1) + Mul(Unit(a, sqrt, n - 1), Unit(b, sqrt, n - 1))
  }

  /** Exact cosine similarity. */
  function Cosine(a: seq<real>, b: seq<real>, sqrt: real -> real): real
    requires |a| == |b| && sqrt(SumSquares(a)) != 0.0 && sqrt(SumSquares(b)) != 0.0
  {
    CosineTo(a, b, sqrt, |a|)
  }

  // ---- Real arithmetic ----

  lemma MulMonotone(x: real, y: real, c: real)
    requires x <= y && c >= 0.0
    ensures Mul(x, c) <= Mul(y, c)
  {
    assert Mul(y, c) - Mul(x, c) == Mul(y - x, c);
  }

  lemma AbsProduct(x: real, y: real, a: real, b: real)
    requires Abs(x) <= a && Abs(y) <= b
    ensures Abs(Mul(x, y)) <= Mul(a, b)
  {
    MulMonotone(Abs(x), a, Abs(y));
    MulMonotone(Abs(y), b, a);
    assert Mul(a, Abs(y)) == Mul(Abs(y), a) && Mul(b, a) == Mul(a, b);
    assert Abs(Mul(x, y)) == Mul(Abs(x), Abs(y));
  }

  lemma RoundError(x: real)
    ensures Abs(Round(x) as real - x) <= 0.5
  {
  }

  lemma DivideOut(v: real, s: real, n: real)
    requires s > 0.0 && n > 0.0
    ensures v / n == Mul(v / s, s / n)
  {
    assert Mul(v / s, s) == v;
    assert Mul(v / s, s / n) == Mul(v / s, s) / n;
  }

  // ---- One component ----

  lemma QuantScaleIsPositive(v: seq<real>, sqrt: real -> real)
    requires Nonzero(v, sqrt)
    ensures QuantScale(v, sqrt) > 0.0
  {
  }

  /** A quantized component is within half a scale of the unit component. */
  lemma ComponentError(v: seq<real>, sqrt: real -> real, i: nat)
    requires Nonzero(v, sqrt) && i < |v|
    ensures Abs(Mul(QuantOf(v, i) as real, QuantScale(v, sqrt)) - Unit(v, sqrt, i)) <= QuantScale(v, sqrt) / 2.0
  {
    var r := v[i] / Step(v);
    RoundError(r);
    DivideOut(v[i], Step(v), sqrt(SumSquares(v)));
    QuantScaleIsPositive(v, sqrt);
    ScaledRound(QuantOf(v, i) as real, r, QuantScale(v, sqrt));
  }

  lemma ScaledRound(q: real, r: real, scale: real)
    requires Abs(q - r) <= 0.5 && scale > 0.0
    ensures Abs(Mul(q, scale) - Mul(r, scale)) <= scale / 2.0
  {
    AbsProduct(q - r, scale, 0.5, scale);
    Difference(q, r, scale);
    Half(scale);
  }

  lemma Difference(q: real, r: real, scale: real)
    ensures Mul(q, scale) - Mul(r, scale) == Mul(q - r, scale)
  {
  }

  lemma Half(x: real)
    ensures Mul(0.5, x) == x / 2.0
  {
  }

  lemma UnitIsAtMostOne(v: seq<real>, sqrt: real -> real, i: nat)
    requires IsSqrt(sqrt) && Nonzero(v, sqrt) && i < |v|
    ensures Abs(Unit(v, sqrt, i)) <= 1.0
  {
    var n := sqrt(SumSquares(v));
    SquareBelowSum(v, i);
    AbsFromSquares(v[i], n);
    QuotientAtMostOne(v[i], n);
  }

  lemma AbsFromSquares(x: real, n: real)
    requires n > 0.0 && Mul(x, x) <= Mul(n, n)
    ensures Abs(x) <= n
  {
    var a := Abs(x);
    assert Mul(a, a) == Mul(x, x);
  }

  lemma QuotientAtMostOne(x: real, n: real)
    requires n > 0.0 && Abs(x) <= n
    ensures Abs(x / n) <= 1.0
  {
    var q := x / n;
    assert q * n == x;
    CancelFactor(q, 1.0, n);
    CancelFactor(-1.0, q, n);
  }

  // ---- One product, and their sum ----

  lemma ProductError(u: real, w: real, u': real, w': real, a: real, b: real)
    requires Abs(u) <= 1.0 && Abs(w) <= 1.0 && Abs(u' - u) <= a && Abs(w' - w) <= b
    ensures Abs(Mul(u', w') - Mul(u, w)) <= a + b + Mul(a, b)
  {
    AbsProduct(u, w' - w, 1.0, b);
    AbsProduct(w, u' - u, 1.0, a);
    AbsProduct(u' - u, w' - w, a, b);
    ProductDifference(u, w, u' - u, w' - w);
    assert u + (u' - u) == u' && w + (w' - w) == w';
    assert Mul(1.0, a) == a && Mul(1.0, b) == b;
  }

  lemma ProductDifference(u: real, w: real, d: real, e: real)
    ensures Mul(u + d, w + e) - Mul(u, w) == Mul(u, e) + Mul(w, d) + Mul(d, e)
  {
  }

  /** The error one component can add. */
  function TermError(sq: real, sv: real): real { sq / 2.0 + sv / 2.0 + Mul(sq, sv) / 4.0 }

  lemma ScaledStep(d: int, x: int, y: int, sq: real, sv: real)
    ensures Scaled(d + x * y, sq, sv) == Scaled(d, sq, sv) + Mul(Mul(x as real, sq), Mul(y as real, sv))
  {
    assert (d + x * y) as real == d as real + x as real * y as real;
  }

  /** A sum of `n` terms. */
  function SumOf(term: nat -> real, n: nat): real { if n == 0 then 0.0 else SumOf(term, n - 1) + term(n - 1) }

  lemma {:induction false} SumError(t: nat -> real, u: nat -> real, e: real, n: nat)
    requires forall i :: 0 <= i < n ==> Abs(t(i) - u(i)) <= e
    ensures Abs(SumOf(t, n) - SumOf(u, n)) <= Mul(n as real, e)
  {
    if n > 0 {
      SumError(t, u, e, n - 1);
      OneMore(n, e);
      assert Abs(t(n - 1) - u(n - 1)) <= e;
    }
  }

  /** Component `i` of a scaled dot product. */
  function ScaledTerm(x: Row, y: Row, sq: real, sv: real): nat -> real {
    (i: nat) => if i < |x| && i < |y| then Mul(Mul(x[i] as real, sq), Mul(y[i] as real, sv)) else 0.0
  }

  function CosineTerm(a: seq<real>, b: seq<real>, sqrt: real -> real): nat -> real
    requires sqrt(SumSquares(a)) != 0.0 && sqrt(SumSquares(b)) != 0.0
  {
    (i: nat) => if i < |a| && i < |b| then Mul(Unit(a, sqrt, i), Unit(b, sqrt, i)) else 0.0
  }

  lemma {:induction false} ScaledDotIsSum(x: Row, y: Row, sq: real, sv: real, n: nat)
    requires n <= |x| && n <= |y|
    ensures Scaled(DotTo(x, y, n), sq, sv) == SumOf(ScaledTerm(x, y, sq, sv), n)
  {
    if n > 0 {
      ScaledDotIsSum(x, y, sq, sv, n - 1);
      ScaledStep(DotTo(x, y, n - 1), x[n - 1] as int, y[n - 1] as int, sq, sv);
    }
  }

  lemma {:induction false} CosineIsSum(a: seq<real>, b: seq<real>, sqrt: real -> real, n: nat)
    requires n <= |a| && n <= |b| && sqrt(SumSquares(a)) != 0.0 && sqrt(SumSquares(b)) != 0.0
    ensures CosineTo(a, b, sqrt, n) == SumOf(CosineTerm(a, b, sqrt), n)
  {
    if n > 0 { CosineIsSum(a, b, sqrt, n - 1); }
  }

  lemma TermIsClose(a: seq<real>, b: seq<real>, sqrt: real -> real, i: nat)
    requires IsSqrt(sqrt) && Nonzero(a, sqrt) && Nonzero(b, sqrt) && i < |a| == |b|
    ensures
      var sq, sv := QuantScale(a, sqrt), QuantScale(b, sqrt);
      Abs(ScaledTerm(QuantRow(a), QuantRow(b), sq, sv)(i) - CosineTerm(a, b, sqrt)(i)) <= TermError(sq, sv)
  {
    var sq, sv := QuantScale(a, sqrt), QuantScale(b, sqrt);
    ComponentError(a, sqrt, i);
    ComponentError(b, sqrt, i);
    UnitIsAtMostOne(a, sqrt, i);
    UnitIsAtMostOne(b, sqrt, i);
    ProductError(Unit(a, sqrt, i), Unit(b, sqrt, i), Mul(QuantOf(a, i) as real, sq), Mul(QuantOf(b, i) as real, sv),
                 sq / 2.0, sv / 2.0);
    HalfProduct(sq, sv);
  }

  lemma HalfProduct(x: real, y: real)
    ensures Mul(x / 2.0, y / 2.0) == Mul(x, y) / 4.0
  {
  }

  lemma OneMore(n: nat, e: real)
    requires n > 0
    ensures Mul(n as real, e) == Mul((n - 1) as real, e) + e
  {
    assert n as real == (n - 1) as real + 1.0;
  }

  /** Every approximate score is within `dims * (sq/2 + sv/2 + sq*sv/4)` of the exact cosine. */
  lemma ScoreError(query: seq<real>, vector: seq<real>, sqrt: real -> real, s: Stored)
    requires IsSqrt(sqrt) && Nonzero(query, sqrt) && Nonzero(vector, sqrt) && |query| == |vector|
    requires s.row == QuantRow(vector) && s.scale == QuantScale(vector, sqrt)
    ensures Abs(ScoreOf(QuantRow(query), QuantScale(query, sqrt), s) - Cosine(query, vector, sqrt))
            <= Mul(|query| as real, TermError(QuantScale(query, sqrt), s.scale))
  {
    var sq := QuantScale(query, sqrt);
    var t, u := ScaledTerm(QuantRow(query), s.row, sq, s.scale), CosineTerm(query, vector, sqrt);
    ScaledDotIsSum(QuantRow(query), s.row, sq, s.scale, |query|);
    CosineIsSum(query, vector, sqrt, |query|);
    forall i | 0 <= i < |query| ensures Abs(t(i) - u(i)) <= TermError(sq, s.scale) {
      TermIsClose(query, vector, sqrt, i);
    }
    SumError(t, u, TermError(sq, s.scale), |query|);
  }

  // ---- The shortlist ----

  /** The hypotheses under which a table of stored rows stands for `vectors`. */
  ghost predicate Holds(stored: seq<Stored>, vectors: seq<seq<real>>, dims: nat, sqrt: real -> real) {
    IsSqrt(sqrt) && |stored| <= 0x1_0000_0000 && StandFor(stored, vectors, dims, sqrt)
  }

  /**
   * With `eps` above every row's score error, an allowed row that is missing from the shortlist has an exact
   * cosine at most `2 * eps` above that of every row in it.
   */
  lemma ShortlistGuarantee(query: seq<real>, stored: seq<Stored>, vectors: seq<seq<real>>, sqrt: real -> real,
                           allowed: Option<seq<bool>>, keep: nat, eps: real, missing: nat)
    requires Holds(stored, vectors, |query|, sqrt) && Nonzero(query, sqrt)
    requires forall i :: 0 <= i < |stored| ==>
      Mul(|query| as real, TermError(QuantScale(query, sqrt), stored[i].scale)) <= eps
    requires missing < |stored| && IsAllowed(allowed, stored[missing].group)
    requires
      var best := TopK(Hits(stored, QuantRow(query), QuantScale(query, sqrt), allowed), keep);
      forall h :: h in best ==> h.row != missing
    ensures
      var best := TopK(Hits(stored, QuantRow(query), QuantScale(query, sqrt), allowed), keep);
      && |best| == keep
      && forall h :: h in best ==>
           && h.row < |vectors|
           && Cosine(query, vectors[missing], sqrt) <= Cosine(query, vectors[h.row], sqrt) + 2.0 * eps
  {
    var q, scale := QuantRow(query), QuantScale(query, sqrt);
    var hits := Hits(stored, q, scale, allowed);
    var best := TopK(hits, keep);
    var out := Hit(missing, ScoreOf(q, scale, stored[missing]));
    HitsMembers(stored, q, scale, allowed, out);
    LeftOutIsWorse(hits, keep, out);
    ScoreError(query, vectors[missing], sqrt, stored[missing]);
    forall h | h in best
      ensures h.row < |vectors|
      ensures Cosine(query, vectors[missing], sqrt) <= Cosine(query, vectors[h.row], sqrt) + 2.0 * eps
    {
      TopKMembers(hits, keep, h);
      HitsMembers(stored, q, scale, allowed, h);
      ScoreError(query, vectors[h.row], sqrt, stored[h.row]);
      assert Better(h, out);
    }
  }

  /** What this means for a matrix: of the vectors added to it, none that a scan leaves out is much better. */
  lemma ScanGuarantee(m: QuantMatrix, query: seq<Float>, allowed: Option<seq<bool>>, keep: nat, best: seq<Hit>,
                      eps: real, missing: nat)
    requires m.Valid() && |m.vectors| <= 0x1_0000_0000 && |query| == m.dims && Nonzero(Values(query), m.sqrt)
    requires
      var q := Values(query);
      && best == TopK(Hits(m.Rows(), QuantRow(q), QuantScale(q, m.sqrt), allowed), keep)
      && forall i :: 0 <= i < |m.vectors| ==>
           Mul(m.dims as real, TermError(QuantScale(q, m.sqrt), QuantScale(m.vectors[i], m.sqrt))) <= eps
    requires missing < |m.vectors| && IsAllowed(allowed, m.groups[missing])
    requires forall h :: h in best ==> h.row != missing
    ensures |best| == keep
    ensures forall h :: h in best ==>
      && h.row < |m.vectors|
      && Cosine(Values(query), m.vectors[missing], m.sqrt)
         <= Cosine(Values(query), m.vectors[h.row], m.sqrt) + 2.0 * eps
  {
    ShortlistGuarantee(Values(query), m.Rows(), m.vectors, m.sqrt, allowed, keep, eps, missing);
  }
}
