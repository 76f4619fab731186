/** The quantized matrix of `vecscan`: storage, integer dot product and pruned top-k scan. */
module Vecscan {
  import opened Common
  import opened Sorting

  /** A stored or queried component; rounding of finite values is not modelled. */
  datatype Float = Finite(value: real) | NonFinite

  newtype Int8 = x: int | -128 <= x < 128
  newtype Int32 = x: int | -0x8000_0000 <= x < 0x8000_0000

  type Row = seq<Int8>

  /** Longest vectors whose dot product always fits in 32 bits. */
  const MAX_EXACT_DIMS: nat := 133144

  // ---- Integer dot product ----

  function DotTo(a: Row, b: Row, n: nat): int
    requires n <= |a| && n <= |b|
  {
    if n == 0 then 0 else DotTo(a, b, n - 1) + a[n - 1] as int * b[n - 1] as int
  }

  function Dot(a: Row, b: Row): int
    requires |a| == |b|
  {
    DotTo(a, b, |a|)
  }

  predicate IsQuantRow(a: Row) { forall i :: 0 <= i < |a| ==> -127 <= a[i] <= 127 }

  function Sum(s: seq<Int32>): int {
    if s == [] then 0 else Sum(s[..|s| - 1]) + s[|s| - 1] as int
  }

  lemma {:induction false} SumUpdate(s: seq<Int32>, i: nat, v: Int32)
    requires i < |s|
    ensures Sum(s[i := v]) == Sum(s) - s[i] as int + v as int
  {
    var n := |s| - 1;
    if i < n {
      SumUpdate(s[..n], i, v);
      assert s[i := v][..n] == s[..n][i := v];
    } else {
      assert s[i := v][..n] == s[..n];
    }
  }

  lemma ProductMonotone(x: int, y: int, c: nat)
    requires x <= y
    ensures x * c <= y * c
  {
  }

  lemma ProductBound(x: int, y: int)
    requires -127 <= x <= 127 && -127 <= y <= 127
    ensures -16129 <= x * y <= 16129
  {
    if y >= 0 {
      ProductMonotone(x, 127, y);
      ProductMonotone(-127, x, y);
    } else {
      ProductMonotone(x, 127, -y);
      ProductMonotone(-127, x, -y);
      assert x * -y == -(x * y);
    }
  }

  lemma {:induction false} DotBound(a: Row, b: Row, n: nat)
    requires n <= |a| && n <= |b| && IsQuantRow(a) && IsQuantRow(b)
    ensures -16129 * n <= DotTo(a, b, n) <= 16129 * n
  {
    if n > 0 {
      DotBound(a, b, n - 1);
      ProductBound(a[n - 1] as int, b[n - 1] as int);
    }
  }

  ghost predicate LanesWithin(acc: seq<Int32>, bound: int) {
    forall l :: 0 <= l < |acc| ==> -bound <= acc[l] as int <= bound
  }

  /** One block of sixteen products, one to a lane. */
  method AddBlock(acc: array<Int32>, a: Row, b: Row, k: nat)
    requires acc.Length == 16 && |a| == |b| <= MAX_EXACT_DIMS && 16 * k + 16 <= |a|
    requires IsQuantRow(a) && IsQuantRow(b)
    requires LanesWithin(acc[..], 16129 * k) && Sum(acc[..]) == DotTo(a, b, 16 * k)
    modifies acc
    ensures LanesWithin(acc[..], 16129 * (k + 1)) && Sum(acc[..]) == DotTo(a, b, 16 * (k + 1))
  {
    for lane := 0 to 16
      invariant forall l :: 0 <= l < 16 ==>
        -16129 * (if l < lane then k + 1 else k) <= acc[l] as int <= 16129 * (if l < lane then k + 1 else k)
      invariant Sum(acc[..]) == DotTo(a, b, 16 * k + lane)
    {
      var i := 16 * k + lane;
      ghost var was := acc[..];
      ProductBound(a[i] as int, b[i] as int);
      var v := acc[lane] + a[i] as Int32 * b[i] as Int32;
      acc[lane] := v;
      SumUpdate(was, lane, v);
      assert acc[..] == was[lane := v];
    }
  }

  /** Add up the lanes. */
  method SumLanes(acc: array<Int32>) returns (total: Int32)
    requires acc.Length == 16 && LanesWithin(acc[..], 16129 * 8321)
    ensures total as int == Sum(acc[..])
  {
    total := 0;
    for l := 0 to 16
      invariant total as int == Sum(acc[..l])
      invariant -(16129 * 8321) * l <= total as int <= 16129 * 8321 * l
    {
      assert acc[..l + 1][..l] == acc[..l];
      assert acc[l] == acc[..][l];
      total := total + acc[l];
    }
    assert acc[..16] == acc[..];
  }

  /**
   * Sixteen 32-bit lanes, their sum, then the remainder. Every addition is on `Int32`, so the method also
   * shows that no intermediate value leaves 32 bits.
   */
  method DotI8(a: Row, b: Row) returns (total: Int32)
    requires |a| == |b| <= MAX_EXACT_DIMS && IsQuantRow(a) && IsQuantRow(b)
    ensures total as int == Dot(a, b)
  {
    var acc := new Int32[16](_ => 0);
    var blocks := |a| / 16;
    SumZero(acc[..]);
    for k := 0 to blocks
      invariant LanesWithin(acc[..], 16129 * k) && Sum(acc[..]) == DotTo(a, b, 16 * k)
    {
      AddBlock(acc, a, b, k);
    }
    total := SumLanes(acc);
    for i := 16 * blocks to |a|
      invariant total as int == DotTo(a, b, i)
    {
      ProductBound(a[i] as int, b[i] as int);
      DotBound(a, b, i + 1);
      total := total + a[i] as Int32 * b[i] as Int32;
    }
  }

  lemma {:induction false} SumZero(s: seq<Int32>)
    requires forall i :: 0 <= i < |s| ==> s[i] == 0
    ensures Sum(s) == 0
  {
    if s != [] {
      SumZero(s[..|s| - 1]);
    }
  }

  lemma {:induction false} DotOfConstant(n: nat)
    ensures Dot(seq(n, i => 127), seq(n, i => 127)) == 16129 * n
  {
    DotToOfConstant(seq(n, i => 127), n);
  }

  lemma {:induction false} DotToOfConstant(a: Row, n: nat)
    requires n <= |a| && forall i :: 0 <= i < |a| ==> a[i] == 127
    ensures DotTo(a, a, n) == 16129 * n
  {
    if n > 0 {
      DotToOfConstant(a, n - 1);
    }
  }

  /** `MAX_EXACT_DIMS` is exact: all quantized rows of a length have a 32-bit product iff it is within the limit. */
  lemma DotFitsIff(n: nat)
    ensures n <= MAX_EXACT_DIMS <==>
            forall a: Row, b: Row :: |a| == |b| == n && IsQuantRow(a) && IsQuantRow(b) ==>
              -0x8000_0000 <= Dot(a, b) < 0x8000_0000
  {
    forall a: Row, b: Row | |a| == |b| == n && IsQuantRow(a) && IsQuantRow(b)
      ensures -16129 * n <= Dot(a, b) <= 16129 * n
    {
      DotBound(a, b, n);
    }
    if n > MAX_EXACT_DIMS {
      var worst: Row := seq(n, i => 127);
      DotOfConstant(n);
      assert IsQuantRow(worst) && Dot(worst, worst) == 16129 * n;
    }
  }

  // ---- Quantization ----

  ghost predicate IsSqrt(sqrt: real -> real) {
    forall x :: x >= 0.0 ==> sqrt(x) >= 0.0 && Mul(sqrt(x), sqrt(x)) == x
  }

  /** A product, with what the solver needs to know of its sign. */
  function Mul(x: real, y: real): (z: real)
    ensures x == 0.0 || y == 0.0 ==> z == 0.0
    ensures x > 0.0 && y > 0.0 ==> z > 0.0
    ensures x < 0.0 && y < 0.0 ==> z > 0.0
  {
    x * y
  }

  function Abs(x: real): real { if x < 0.0 then -x else x }

  function Max(x: real, y: real): real { if x < y then y else x }

  /** Half away from zero. */
  function Round(x: real): int {
    if x >= 0.0 then (x + 0.5).Floor else -((-x + 0.5).Floor)
  }

  /** The nearest integer, and of two the one farther from zero. */
  lemma RoundIsNearest(x: real)
    ensures Abs(Round(x) as real - x) <= 0.5
    ensures Abs(Round(x) as real - x) == 0.5 ==> Abs(Round(x) as real) > Abs(x)
  {
  }

  function SumSquares(v: seq<real>): (r: real)
    ensures r >= 0.0
  {
    if v == [] then 0.0 else SumSquares(v[..|v| - 1]) + Mul(v[|v| - 1], v[|v| - 1])
  }

  lemma {:induction false} SquareBelowSum(v: seq<real>, i: nat)
    requires i < |v|
    ensures Mul(v[i], v[i]) <= SumSquares(v)
  {
    var n := |v| - 1;
    if i < n {
      SquareBelowSum(v[..n], i);
    }
  }

  function MaxAbs(v: seq<real>): (r: real)
    ensures r >= 0.0
    ensures forall i :: 0 <= i < |v| ==> Abs(v[i]) <= r
    ensures r == 0.0 || exists i :: 0 <= i < |v| && Abs(v[i]) == r
  {
    if v == [] then 0.0 else Max(MaxAbs(v[..|v| - 1]), Abs(v[|v| - 1]))
  }

  ghost predicate AllFinite(v: seq<Float>) { forall i :: 0 <= i < |v| ==> v[i].Finite? }

  function Values(v: seq<Float>): (r: seq<real>)
    ensures |r| == |v|
  {
    Map(v, (x: Float) => if x.Finite? then x.value else 0.0)
  }

  /** Finite everywhere and nonzero somewhere. */
  ghost predicate Quantizable(v: seq<Float>) {
    AllFinite(v) && exists i :: 0 <= i < |v| && Values(v)[i] != 0.0
  }

  function Step(v: seq<real>): real { MaxAbs(v) / 127.0 }

  /** The value behind one quantized component. */
  function QuantOf(v: seq<real>, i: nat): (q: int)
    requires i < |v| && MaxAbs(v) > 0.0
    ensures -127 <= q <= 127
  {
    RoundedRatio(v[i], MaxAbs(v));
    Round(v[i] / Step(v))
  }

  lemma RoundedRatio(x: real, m: real)
    requires m > 0.0 && Abs(x) <= m
    ensures m / 127.0 > 0.0
    ensures -127 <= Round(x / (m / 127.0)) <= 127
  {
    var step := m / 127.0;
    var r := x / step;
    assert r * step == x && 127.0 * step == m;
    CancelFactor(r, 127.0, step);
    CancelFactor(-127.0, r, step);
  }

  lemma CancelFactor(x: real, y: real, s: real)
    requires s > 0.0 && x * s <= y * s
    ensures x <= y
  {
  }

  function QuantRow(v: seq<real>): Row
    requires MaxAbs(v) > 0.0
  {
    seq(|v|, i requires 0 <= i < |v| => QuantOf(v, i) as Int8)
  }

  function QuantScale(v: seq<real>, sqrt: real -> real): real
    requires sqrt(SumSquares(v)) != 0.0
  {
    Step(v) / sqrt(SumSquares(v))
  }

  lemma NonzeroMeansPositive(v: seq<real>, sqrt: real -> real)
    requires IsSqrt(sqrt)
    ensures MaxAbs(v) > 0.0 <==> exists i :: 0 <= i < |v| && v[i] != 0.0
    ensures sqrt(SumSquares(v)) > 0.0 <==> exists i :: 0 <= i < |v| && v[i] != 0.0
  {
    if i :| 0 <= i < |v| && v[i] != 0.0 {
      assert Abs(v[i]) > 0.0;
      SquareBelowSum(v, i);
    } else {
      ZeroSquares(v);
    }
  }

  lemma {:induction false} ZeroSquares(v: seq<real>)
    requires forall i :: 0 <= i < |v| ==> v[i] == 0.0
    ensures SumSquares(v) == 0.0
  {
    if v != [] {
      ZeroSquares(v[..|v| - 1]);
    }
  }

  /** The first pass: refuse a non-finite value, else the sum of squares and the largest magnitude. */
  method Measure(vector: seq<Float>) returns (finite: bool, sum: real, maxAbs: real)
    ensures finite <==> AllFinite(vector)
    ensures finite ==> sum == SumSquares(Values(vector)) && maxAbs == MaxAbs(Values(vector))
  {
    finite, sum, maxAbs := true, 0.0, 0.0;
    ghost var v := Values(vector);
    for i := 0 to |vector|
      invariant forall k :: 0 <= k < i ==> vector[k].Finite?
      invariant sum == SumSquares(v[..i]) && maxAbs == MaxAbs(v[..i])
    {
      if vector[i].NonFinite? {
        return false, sum, maxAbs;
      }
      assert v[..i + 1][..i] == v[..i] && v[i] == vector[i].value;
      sum := sum + Mul(vector[i].value, vector[i].value);
      maxAbs := Max(maxAbs, Abs(vector[i].value));
    }
    assert v[..|v|] == v;
  }

  /** The second pass: one rounded quotient per component. */
  method AppendQuantized(vector: seq<Float>, step: real, out: seq<Int8>) returns (grown: seq<Int8>)
    requires AllFinite(vector) && MaxAbs(Values(vector)) > 0.0 && step == Step(Values(vector))
    ensures grown == out + QuantRow(Values(vector))
  {
    grown := out;
    ghost var v := Values(vector);
    ghost var row := QuantRow(v);
    assert out + row[..0] == out;
    for i := 0 to |vector|
      invariant grown == out + row[..i]
    {
      RoundedRatio(v[i], MaxAbs(v));
      assert row[i] as int == Round(vector[i].value / step);
      TakeNext(row, i);
      grown := grown + [Round(vector[i].value / step) as Int8];
    }
    assert row[..|v|] == row;
  }

  /** Append the quantized row to `out` and return its scale, or leave `out` alone. */
  method QuantizeInto(vector: seq<Float>, out: seq<Int8>, sqrt: real -> real)
    returns (grown: seq<Int8>, scale: Option<real>)
    requires IsSqrt(sqrt)
    ensures scale.Some? <==> Quantizable(vector)
    ensures scale.None? ==> grown == out
    ensures scale.Some? ==>
      var v := Values(vector);
      && MaxAbs(v) > 0.0 && sqrt(SumSquares(v)) > 0.0
      && grown == out + QuantRow(v) && scale.value == QuantScale(v, sqrt)
  {
    var finite, sum, maxAbs := Measure(vector);
    NonzeroMeansPositive(Values(vector), sqrt);
    if !finite {
      return out, None;
    }
    var norm := sqrt(sum);
    if norm == 0.0 || maxAbs == 0.0 {
      return out, None;
    }
    var step := maxAbs / 127.0;
    grown := AppendQuantized(vector, step, out);
    scale := Some(step / norm);
  }

  // ---- The matrix ----

  datatype Stored = Stored(row: Row, scale: real, group: nat)

  datatype Hit = Hit(row: nat, score: real)

  /** Best first: higher score, then lower row. */
  predicate Better(a: Hit, b: Hit) {
    a.score > b.score || (a.score == b.score && a.row <= b.row)
  }

  predicate IsAllowed(allowed: Option<seq<bool>>, group: nat) {
    allowed.None? || (group < |allowed.value| && allowed.value[group])
  }

  function Scaled(dot: int, a: real, b: real): real { Mul(Mul(dot as real, a), b) }

  function ScoreOf(q: Row, scale: real, s: Stored): real
    requires |q| == |s.row|
  {
    Scaled(Dot(q, s.row), scale, s.scale)
  }

  /** Every allowed row, scored, in row order; row numbers are kept in 32 bits. */
  function Hits(stored: seq<Stored>, q: Row, scale: real, allowed: Option<seq<bool>>): seq<Hit>
    requires forall i :: 0 <= i < |stored| ==> |stored[i].row| == |q|
  {
    if stored == [] then []
    else
      var n := |stored| - 1;
      Hits(stored[..n], q, scale, allowed) +
      if IsAllowed(allowed, stored[n].group) then [Hit(n % 0x1_0000_0000, ScoreOf(q, scale, stored[n]))] else []
  }

  /** Score everything, sort, keep the first `keep`. */
  function TopK(hits: seq<Hit>, keep: nat): seq<Hit> { Take(keep, Sort(Better, hits)) }

  lemma BetterIsAnOrder()
    ensures Total(Better)
  {
  }

  lemma TopKSnoc(hits: seq<Hit>, h: Hit, keep: nat)
    ensures TopK(hits + [h], keep) == Take(keep, Insert(Better, TopK(hits, keep), h))
  {
    BetterIsAnOrder();
    assert (hits + [h])[..|hits|] == hits;
    SortIsSorted(Better, hits);
    TakeInsert(Better, Sort(Better, hits), h, keep);
  }

  /** The prefix of a sorted list is its own top-k. */
  lemma TopKIdempotent(hits: seq<Hit>, keep: nat)
    ensures TopK(TopK(hits, keep), keep) == TopK(hits, keep)
  {
    BetterIsAnOrder();
    SortIsSorted(Better, hits);
    SortOfSorted(Better, TopK(hits, keep));
  }

  /** `best` has the same top `keep` as all hits so far, and the floor is no higher than its last one. */
  ghost predicate IsShortlist(best: seq<Hit>, floor: Option<real>, all: seq<Hit>, keep: nat) {
    && 0 < keep && TopK(best, keep) == TopK(all, keep)
    && (floor.Some? ==> |TopK(all, keep)| == keep && floor.value <= TopK(all, keep)[keep - 1].score)
  }

  /** A hit below the floor never enters the shortlist, so skipping it changes nothing. */
  lemma BelowFloorChangesNothing(best: seq<Hit>, floor: real, all: seq<Hit>, h: Hit, keep: nat)
    requires IsShortlist(best, Some(floor), all, keep) && h.score < floor
    ensures IsShortlist(best, Some(floor), all + [h], keep)
  {
    TopKSnoc(all, h, keep);
  }

  lemma PushKeepsShortlist(best: seq<Hit>, floor: Option<real>, all: seq<Hit>, h: Hit, keep: nat)
    requires IsShortlist(best, floor, all, keep)
    ensures IsShortlist(best + [h], floor, all + [h], keep)
  {
    TopKSnoc(best, h, keep);
    TopKSnoc(all, h, keep);
    FloorHolds(all, h, keep);
  }

  lemma CutKeepsShortlist(best: seq<Hit>, floor: Option<real>, all: seq<Hit>, keep: nat)
    requires IsShortlist(best, floor, all, keep) && |best| >= keep
    ensures IsShortlist(TopK(best, keep), Some(TopK(best, keep)[keep - 1].score), all, keep)
  {
    TopKIdempotent(best, keep);
  }

  /** One more hit never lowers the last score of a full shortlist. */
  lemma FloorHolds(hits: seq<Hit>, h: Hit, keep: nat)
    requires 0 < keep
    ensures |TopK(hits, keep)| == keep ==>
      |TopK(hits + [h], keep)| == keep && TopK(hits, keep)[keep - 1].score <= TopK(hits + [h], keep)[keep - 1].score
  {
    if |TopK(hits, keep)| == keep {
      BetterIsAnOrder();
      SortIsSorted(Better, hits);
      TopKSnoc(hits, h, keep);
      InsertNeverWorsens(TopK(hits, keep), h);
    }
  }

  lemma {:induction false} InsertNeverWorsens(s: seq<Hit>, h: Hit)
    requires s != [] && Sorted(Better, s)
    ensures Insert(Better, s, h)[|s| - 1].score >= s[|s| - 1].score
  {
    var n := |s| - 1;
    if !Better(s[n], h) && n > 0 {
      InsertContents(Better, s[..n], h);
      var r := Insert(Better, s[..n], h);
      assert r[n] in multiset(r);
      assert r[n] in s[..n] || r[n] == h;
    }
  }

  /** The slice of `data` that holds row `r`. */
  function RowAt(dims: nat, data: seq<Int8>, n: nat, r: nat): (row: Row)
    requires |data| == dims * n && r < n
    ensures |row| == dims
  {
    RowBounds(dims, r, n);
    data[dims * r..dims * r + dims]
  }

  function RowsOf(dims: nat, data: seq<Int8>, scales: seq<real>, groups: seq<nat>): (s: seq<Stored>)
    requires |data| == dims * |scales| && |groups| == |scales|
    ensures |s| == |scales| && forall r :: 0 <= r < |s| ==> |s[r].row| == dims
  {
    seq(|scales|, r requires 0 <= r < |scales| && |data| == dims * |scales| && |groups| == |scales| =>
      Stored(RowAt(dims, data, |scales|, r), scales[r], groups[r]))
  }

  lemma RowAtAppend(dims: nat, data: seq<Int8>, n: nat, row: Row, r: nat)
    requires |data| == dims * n && |row| == dims && r <= n && |data + row| == dims * (n + 1)
    ensures RowAt(dims, data + row, n + 1, r) == if r < n then RowAt(dims, data, n, r) else row
  {
    if r < n { RowBounds(dims, r, n); }
  }

  lemma RowsAppend(dims: nat, data: seq<Int8>, scales: seq<real>, groups: seq<nat>, s: Stored)
    requires |data| == dims * |scales| && |groups| == |scales| && |s.row| == dims
    ensures |data + s.row| == dims * |scales + [s.scale]|
    ensures RowsOf(dims, data + s.row, scales + [s.scale], groups + [s.group])
            == RowsOf(dims, data, scales, groups) + [s]
  {
    var n := |scales|;
    assert dims * n + dims == dims * (n + 1);
    var before := RowsOf(dims, data, scales, groups);
    var after := RowsOf(dims, data + s.row, scales + [s.scale], groups + [s.group]);
    forall r | 0 <= r < n + 1
      ensures after[r] == if r < n then before[r] else s
    {
      RowAtAppend(dims, data, n, s.row, r);
    }
    assert after == before + [s];
  }

  /** One more hit: below the floor it is skipped, and a full batch is sorted and cut. */
  method Offer(best: seq<Hit>, floor: Option<real>, hit: Hit, keep: nat, ghost all: seq<Hit>)
    returns (best': seq<Hit>, floor': Option<real>)
    requires 0 < keep && IsShortlist(best, floor, all, keep)
    ensures IsShortlist(best', floor', all + [hit], keep)
  {
    best', floor' := best, floor;
    if floor.Some? && hit.score < floor.value {
      BelowFloorChangesNothing(best, floor.value, all, hit, keep);
      return;
    }
    PushKeepsShortlist(best, floor, all, hit, keep);
    best' := best + [hit];
    if |best'| >= keep * 4 {
      CutKeepsShortlist(best', floor, all + [hit], keep);
      best' := Take(keep, Sort(Better, best'));
      assert |best'| == keep;
      floor' := if best' == [] then None else Some(best'[|best'| - 1].score);
    }
  }

  /** The scan loop, over the three parallel lists. */
  method ScanRows(dims: nat, data: seq<Int8>, scales: seq<real>, groups: seq<nat>, q: Row, scale: real,
                  keep: nat, allowed: Option<seq<bool>>) returns (best: seq<Hit>)
    requires |data| == dims * |scales| && |groups| == |scales| && IsQuantRow(data)
    requires |q| == dims <= MAX_EXACT_DIMS && IsQuantRow(q) && 0 < keep
    ensures best == TopK(Hits(RowsOf(dims, data, scales, groups), q, scale, allowed), keep)
  {
    ghost var rows := RowsOf(dims, data, scales, groups);
    best := [];
    var floor: Option<real> := None;
    for row := 0 to |scales|
      invariant IsShortlist(best, floor, Hits(rows[..row], q, scale, allowed), keep)
    {
      ghost var all := Hits(rows[..row], q, scale, allowed);
      HitsUnfold(rows, row, q, scale, allowed);
      assert all + [] == all;
      if !IsAllowed(allowed, groups[row]) {
        continue;
      }
      var vector := RowAt(dims, data, |scales|, row);
      RowIsQuant(dims, data, |scales|, row);
      var dot := DotI8(q, vector);
      var score := Scaled(dot as int, scale, scales[row]);
      assert rows[row] == Stored(vector, scales[row], groups[row]);
      best, floor := Offer(best, floor, Hit(row % 0x1_0000_0000, score), keep, all);
    }
    assert rows[..|scales|] == rows;
    best := Take(keep, Sort(Better, best));
  }

  lemma RowIsQuant(dims: nat, data: seq<Int8>, n: nat, r: nat)
    requires |data| == dims * n && r < n && IsQuantRow(data)
    ensures IsQuantRow(RowAt(dims, data, n, r))
  {
    RowBounds(dims, r, n);
  }

  lemma QuantRowIsQuant(v: seq<real>)
    requires MaxAbs(v) > 0.0
    ensures IsQuantRow(QuantRow(v))
  {
  }

  /** A vector that can be quantized. */
  ghost predicate Nonzero(v: seq<real>, sqrt: real -> real) {
    MaxAbs(v) > 0.0 && sqrt(SumSquares(v)) > 0.0
  }

  /** The stored row is the quantization of `v`. */
  ghost predicate IsRowFor(s: Stored, v: seq<real>, dims: nat, sqrt: real -> real) {
    |v| == dims && Nonzero(v, sqrt) && s.row == QuantRow(v) && s.scale == QuantScale(v, sqrt)
  }

  ghost predicate StandFor(stored: seq<Stored>, vectors: seq<seq<real>>, dims: nat, sqrt: real -> real) {
    |stored| == |vectors| && forall i :: 0 <= i < |stored| ==> IsRowFor(stored[i], vectors[i], dims, sqrt)
  }

  lemma StandForOneMore(
    stored: seq<Stored>, vectors: seq<seq<real>>, dims: nat, sqrt: real -> real, s: Stored, v: seq<real>)
    requires StandFor(stored, vectors, dims, sqrt) && IsRowFor(s, v, dims, sqrt)
    ensures StandFor(stored + [s], vectors + [v], dims, sqrt)
  {
  }

  class QuantMatrix {
    const dims: nat
    const sqrt: real -> real
    var data: seq<Int8>
    var scales: seq<real>
    var groups: seq<nat>
    var scratch: seq<Float>
    /** The vectors that were added, before quantization. */
    ghost var vectors: seq<seq<real>>

    ghost predicate Valid()
      reads this
    {
      && IsSqrt(sqrt)
      && |data| == dims * |scales| && |groups| == |scales|
      && IsQuantRow(data)
      && StandFor(RowsOf(dims, data, scales, groups), vectors, dims, sqrt)
    }

    /** What the three parallel lists hold, row by row. */
    ghost function Rows(): (s: seq<Stored>)
      requires Valid()
      reads this
      ensures |s| == |scales| && forall r :: 0 <= r < |s| ==> |s[r].row| == dims
    {
      RowsOf(dims, data, scales, groups)
    }

    constructor (dims: nat, sqrt: real -> real)
      requires IsSqrt(sqrt)
      ensures Valid() && this.dims == dims && this.sqrt == sqrt && Rows() == []
      ensures vectors == []
    {
      this.dims, this.sqrt := dims, sqrt;
      data, scales, groups, scratch, vectors := [], [], [], [], [];
    }

    /** Add a vector, or refuse it and change nothing. */
    method Push(vector: seq<Float>, group: nat) returns (added: bool)
      requires Valid()
      modifies this`data, this`scales, this`groups, this`vectors
      ensures Valid()
      ensures added <==> |vector| == dims && Quantizable(vector)
      ensures !added ==> Rows() == old(Rows()) && vectors == old(vectors)
      ensures added ==>
        var v := Values(vector);
        && MaxAbs(v) > 0.0 && sqrt(SumSquares(v)) > 0.0
        && Rows() == old(Rows()) + [Stored(QuantRow(v), QuantScale(v, sqrt), group)]
        && vectors == old(vectors) + [v]
    {
      if |vector| != dims {
        return false;
      }
      var grown, scale := QuantizeInto(vector, data, sqrt);
      if scale.None? {
        return false;
      }
      ghost var v := Values(vector);
      ghost var row := Stored(QuantRow(v), scale.value, group);
      RowsAppend(dims, data, scales, groups, row);
      StandForOneMore(RowsOf(dims, data, scales, groups), vectors, dims, sqrt, row, v);
      QuantRowIsQuant(v);
      vectors := vectors + [v];
      data := grown;
      scales := scales + [scale.value];
      groups := groups + [group];
      return true;
    }

    /** Add a vector given as bytes, four to a component. */
    method PushBlob(blob: Bytes, group: nat, decode: Bytes -> Float) returns (added: bool)
      requires Valid()
      modifies this
      ensures Valid()
      ensures dims == 0 || |blob| != 4 * dims ==> !added
      ensures |blob| == 4 * dims ==>
        (added <==> dims > 0 && Quantizable(Decoded(blob, decode)))
      ensures !added ==> Rows() == old(Rows()) && vectors == old(vectors)
      ensures added ==>
        var v := Values(Decoded(blob, decode));
        && MaxAbs(v) > 0.0 && sqrt(SumSquares(v)) > 0.0
        && Rows() == old(Rows()) + [Stored(QuantRow(v), QuantScale(v, sqrt), group)]
        && vectors == old(vectors) + [v]
    {
      if dims == 0 || |blob| != dims * 4 {
        return false;
      }
      var floats := Decoded(blob, decode);
      scratch := [];
      added := Push(floats, group);
      scratch := floats;
    }

    /** The `keep` best allowed rows by approximate cosine, in batches of `4 * keep` with a rising floor. */
    method Scan(query: seq<Float>, keep: nat, allowed: Option<seq<bool>>) returns (best: seq<Hit>)
      requires Valid() && dims <= MAX_EXACT_DIMS
      ensures |query| != dims || !Quantizable(query) ==> best == []
      ensures |query| == dims && Quantizable(query) ==>
        var v := Values(query);
        && MaxAbs(v) > 0.0 && sqrt(SumSquares(v)) > 0.0
        && best == TopK(Hits(Rows(), QuantRow(v), QuantScale(v, sqrt), allowed), keep)
        && (|Rows()| <= 0x1_0000_0000 ==>
              IsRanking(best, Rows(), QuantRow(v), QuantScale(v, sqrt), allowed, keep))
    {
      NonzeroMeansPositive(Values(query), sqrt);
      if |Rows()| <= 0x1_0000_0000 && |query| == dims && Quantizable(query) {
        TopKIsRanking(Rows(), QuantRow(Values(query)), QuantScale(Values(query), sqrt), allowed, keep);
      }
      if keep == 0 || |scales| == 0 || |query| != dims {
        return [];
      }
      var q, quantized := QuantizeInto(query, [], sqrt);
      if quantized.None? {
        return [];
      }
      assert [] + QuantRow(Values(query)) == QuantRow(Values(query));
      QuantRowIsQuant(Values(query));
      best := ScanRows(dims, data, scales, groups, q, quantized.value, keep, allowed);
    }
  }

  lemma HitsUnfold(stored: seq<Stored>, row: nat, q: Row, scale: real, allowed: Option<seq<bool>>)
    requires row < |stored| && forall i :: 0 <= i < |stored| ==> |stored[i].row| == |q|
    ensures Hits(stored[..row + 1], q, scale, allowed)
            == Hits(stored[..row], q, scale, allowed)
               + if IsAllowed(allowed, stored[row].group)
                 then [Hit(row % 0x1_0000_0000, ScoreOf(q, scale, stored[row]))] else []
  {
    assert stored[..row + 1][..row] == stored[..row];
  }

  // ---- What a scan returns ----

  predicate IsHitOf(stored: seq<Stored>, q: Row, scale: real, allowed: Option<seq<bool>>, h: Hit)
    requires forall i :: 0 <= i < |stored| ==> |stored[i].row| == |q|
  {
    h.row < |stored| && IsAllowed(allowed, stored[h.row].group) && h.score == ScoreOf(q, scale, stored[h.row])
  }

  /** The hits are the allowed rows with their scores. */
  lemma {:induction false} HitsMembers(stored: seq<Stored>, q: Row, scale: real, allowed: Option<seq<bool>>, h: Hit)
    requires forall i :: 0 <= i < |stored| ==> |stored[i].row| == |q|
    requires |stored| <= 0x1_0000_0000
    ensures h in Hits(stored, q, scale, allowed) <==> IsHitOf(stored, q, scale, allowed, h)
  {
    if stored != [] {
      var n := |stored| - 1;
      HitsMembers(stored[..n], q, scale, allowed, h);
      HitsOfLast(stored, q, scale, allowed);
      OneMoreHit(stored, q, scale, allowed, h);
    }
  }

  function LastHit(stored: seq<Stored>, q: Row, scale: real, allowed: Option<seq<bool>>): seq<Hit>
    requires stored != [] && forall i :: 0 <= i < |stored| ==> |stored[i].row| == |q|
  {
    var n := |stored| - 1;
    if IsAllowed(allowed, stored[n].group) then [Hit(n, ScoreOf(q, scale, stored[n]))] else []
  }

  lemma HitsOfLast(stored: seq<Stored>, q: Row, scale: real, allowed: Option<seq<bool>>)
    requires stored != [] && forall i :: 0 <= i < |stored| ==> |stored[i].row| == |q|
    requires |stored| <= 0x1_0000_0000
    ensures Hits(stored, q, scale, allowed)
            == Hits(stored[..|stored| - 1], q, scale, allowed) + LastHit(stored, q, scale, allowed)
  {
    HitsUnfold(stored, |stored| - 1, q, scale, allowed);
    assert stored[..|stored|] == stored;
  }

  lemma OneMoreHit(stored: seq<Stored>, q: Row, scale: real, allowed: Option<seq<bool>>, h: Hit)
    requires stored != [] && forall i :: 0 <= i < |stored| ==> |stored[i].row| == |q|
    ensures IsHitOf(stored, q, scale, allowed, h) <==>
              IsHitOf(stored[..|stored| - 1], q, scale, allowed, h) || h in LastHit(stored, q, scale, allowed)
  {
  }

  /** A hit left out of a top `keep` is no better than anything in it, and the list is full. */
  lemma LeftOutIsWorse(hits: seq<Hit>, keep: nat, h: Hit)
    requires h in hits && h !in TopK(hits, keep)
    ensures |TopK(hits, keep)| == keep && forall r :: r in TopK(hits, keep) ==> Better(r, h)
  {
    BetterIsAnOrder();
    SortIsSorted(Better, hits);
    SortMembers(Better, hits, h);
    TakeLeavesWorse(Better, Sort(Better, hits), keep, h);
  }

  lemma TopKMembers(hits: seq<Hit>, keep: nat, h: Hit)
    requires h in TopK(hits, keep)
    ensures h in hits
  {
    BetterIsAnOrder();
    SortMembers(Better, hits, h);
  }

  /** Hits come in row order, each row once. */
  lemma {:induction false} HitsAscend(stored: seq<Stored>, q: Row, scale: real, allowed: Option<seq<bool>>)
    requires forall i :: 0 <= i < |stored| ==> |stored[i].row| == |q|
    requires |stored| <= 0x1_0000_0000
    ensures Ascend(Hits(stored, q, scale, allowed))
  {
    if stored != [] {
      var n := |stored| - 1;
      var head := Hits(stored[..n], q, scale, allowed);
      HitsAscend(stored[..n], q, scale, allowed);
      HitsOfLast(stored, q, scale, allowed);
      forall i | 0 <= i < |head| ensures head[i].row < n {
        HitsMembers(stored[..n], q, scale, allowed, head[i]);
      }
    }
  }

  ghost predicate IsMissing(best: seq<Hit>, r: int) { forall h :: h in best ==> h.row != r }

  /** The list is full, and its last hit has a higher score, or the same score and a lower row number. */
  predicate IsOutranked(best: seq<Hit>, keep: nat, r: int, score: real) {
    && |best| == keep
    && (keep > 0 ==> best[keep - 1].score > score || (best[keep - 1].score == score && best[keep - 1].row < r))
  }

  /**
   * The answer to a scan, on its own terms. Every hit is a searched row with its score; the scores fall, and
   * equal scores come in row order; and a searched row is left out only if `keep` others are returned, the last
   * with a higher score, or with the same score and a lower row number.
   */
  ghost predicate IsRanking(best: seq<Hit>, stored: seq<Stored>, q: Row, scale: real,
                            allowed: Option<seq<bool>>, keep: nat)
    requires forall i :: 0 <= i < |stored| ==> |stored[i].row| == |q|
  {
    && |best| <= keep
    && (forall h :: h in best ==>
          && h.row < |stored| && h.score == ScoreOf(q, scale, stored[h.row])
          && (allowed.Some? ==>
                stored[h.row].group < |allowed.value| && allowed.value[stored[h.row].group]))
    && (forall i, j :: 0 <= i < j < |best| ==>
          best[i].score > best[j].score || (best[i].score == best[j].score && best[i].row < best[j].row))
    && (forall r :: 0 <= r < |stored| && IsMissing(best, r) ==>
          (allowed.Some? ==> stored[r].group < |allowed.value| && allowed.value[stored[r].group]) ==>
            IsOutranked(best, keep, r, ScoreOf(q, scale, stored[r])))
  }

  ghost predicate Ascend(hits: seq<Hit>) { forall k, l :: 0 <= k < l < |hits| ==> hits[k].row < hits[l].row }

  lemma AllRowsRank(hits: seq<Hit>, keep: nat)
    requires Ascend(hits)
    ensures
      var best := TopK(hits, keep);
      forall i, j :: 0 <= i < j < |best| ==>
        best[i].score > best[j].score || (best[i].score == best[j].score && best[i].row < best[j].row)
  {
    var best := TopK(hits, keep);
    forall i, j | 0 <= i < j < |best|
      ensures best[i].score > best[j].score || (best[i].score == best[j].score && best[i].row < best[j].row)
    {
      DistinctRowsRank(hits, keep, i, j);
    }
  }

  lemma DistinctRowsRank(hits: seq<Hit>, keep: nat, i: nat, j: nat)
    requires Ascend(hits)
    requires i < j < |TopK(hits, keep)|
    ensures
      var best := TopK(hits, keep);
      best[i].score > best[j].score || (best[i].score == best[j].score && best[i].row < best[j].row)
  {
    BetterIsAnOrder();
    SortIsSorted(Better, hits);
    DistinctMultiset(hits);
    MultisetDistinct(Sort(Better, hits));
    var x, y := Sort(Better, hits)[i], Sort(Better, hits)[j];
    SortMembers(Better, hits, x);
    SortMembers(Better, hits, y);
    var k :| 0 <= k < |hits| && hits[k] == x;
    var l :| 0 <= l < |hits| && hits[l] == y;
    assert x != y;
  }

  lemma TopKIsRanking(stored: seq<Stored>, q: Row, scale: real, allowed: Option<seq<bool>>, keep: nat)
    requires forall i :: 0 <= i < |stored| ==> |stored[i].row| == |q|
    requires |stored| <= 0x1_0000_0000
    ensures IsRanking(TopK(Hits(stored, q, scale, allowed), keep), stored, q, scale, allowed, keep)
  {
    var hits := Hits(stored, q, scale, allowed);
    var best := TopK(hits, keep);
    HitsAscend(stored, q, scale, allowed);
    AllRowsRank(hits, keep);
    forall h | h in best ensures IsHitOf(stored, q, scale, allowed, h) {
      TopKMembers(hits, keep, h);
      HitsMembers(stored, q, scale, allowed, h);
    }
    forall r: nat | r < |stored| && IsAllowed(allowed, stored[r].group) && IsMissing(best, r)
      ensures IsOutranked(best, keep, r, ScoreOf(q, scale, stored[r]))
    {
      LeftOutRanks(stored, q, scale, allowed, keep, r);
    }
  }

  lemma LeftOutRanks(stored: seq<Stored>, q: Row, scale: real, allowed: Option<seq<bool>>, keep: nat, r: nat)
    requires forall i :: 0 <= i < |stored| ==> |stored[i].row| == |q|
    requires r < |stored| <= 0x1_0000_0000 && IsAllowed(allowed, stored[r].group)
    requires IsMissing(TopK(Hits(stored, q, scale, allowed), keep), r)
    ensures IsOutranked(TopK(Hits(stored, q, scale, allowed), keep), keep, r, ScoreOf(q, scale, stored[r]))
  {
    var hits := Hits(stored, q, scale, allowed);
    var out := Hit(r, ScoreOf(q, scale, stored[r]));
    HitsMembers(stored, q, scale, allowed, out);
    LeftOutIsWorse(hits, keep, out);
    if keep > 0 {
      assert TopK(hits, keep)[keep - 1] in TopK(hits, keep);
    }
  }

  /** Cut a blob into its components. */
  function Decoded(blob: Bytes, decode: Bytes -> Float): (v: seq<Float>)
    ensures |v| == |blob| / 4
  {
    seq(|blob| / 4, i requires 0 <= i < |blob| / 4 => decode(blob[4 * i..4 * i + 4]))
  }

  lemma RowBounds(dims: nat, r: nat, n: nat)
    requires r < n
    ensures 0 <= dims * r && dims * r + dims <= dims * n
  {
    assert dims * (r + 1) <= dims * n;
  }
}
