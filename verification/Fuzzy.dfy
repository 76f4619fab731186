/** Bounded edit distance and the variant picker of `fuzzy.ts`. */
module Fuzzy {
  import opened Common
  import opened Sorting

  /** JavaScript strings are sequences of 16-bit code units. */
  newtype CodeUnit = x: int | 0 <= x < 0x1_0000

  type JsString = seq<CodeUnit>

  // ---- The distance ----

  function Min(x: nat, y: nat): nat { if x <= y then x else y }

  /** The last two units of one prefix are those of the other, exchanged. */
  predicate Swapped(a: JsString, b: JsString, i: nat, j: nat) {
    1 < i <= |a| && 1 < j <= |b| && a[i - 1] == b[j - 2] && a[i - 2] == b[j - 1]
  }

  /** Optimal-string-alignment distance between the first `i` units of `a` and the first `j` of `b`. */
  function D(a: JsString, b: JsString, i: nat, j: nat): nat
    requires i <= |a| && j <= |b|
    decreases i + j
  {
    if i == 0 then j
    else if j == 0 then i
    else
      var cost := if a[i - 1] == b[j - 1] then 0 else 1;
      var best := Min(Min(D(a, b, i - 1, j) + 1, D(a, b, i, j - 1) + 1), D(a, b, i - 1, j - 1) + cost);
      if Swapped(a, b, i, j) then Min(best, D(a, b, i - 2, j - 2) + 1) else best
  }

  function Osa(a: JsString, b: JsString): nat { D(a, b, |a|, |b|) }

  /** One cell from its neighbours, and from two rows up when the last units are exchanged. */
  function Cell(same: bool, up: nat, left: nat, diagonal: nat, swap: Option<nat>): nat {
    var best := Min(Min(up + 1, left + 1), diagonal + if same then 0 else 1);
    if swap.Some? then Min(best, swap.value + 1) else best
  }

  lemma CellIsDistance(a: JsString, b: JsString, i: nat, j: nat)
    requires 0 < i <= |a| && 0 < j <= |b|
    ensures D(a, b, i, j)
         == Cell(a[i - 1] == b[j - 1], D(a, b, i - 1, j), D(a, b, i, j - 1), D(a, b, i - 1, j - 1),
                 if Swapped(a, b, i, j) then Some(D(a, b, i - 2, j - 2)) else None)
  {
  }

  /** A table of distances. */
  type Table = (nat, nat) -> nat

  /** What the recurrence says of one entry of a table. */
  predicate Follows(d: Table, a: JsString, b: JsString, i: nat, j: nat) {
    i <= |a| && j <= |b| ==>
      d(i, j) == if i == 0 then j else if j == 0 then i
                 else Cell(a[i - 1] == b[j - 1], d(i - 1, j), d(i, j - 1), d(i - 1, j - 1),
                           if Swapped(a, b, i, j) then Some(d(i - 2, j - 2)) else None)
  }

  ghost predicate IsTable(d: Table, a: JsString, b: JsString) { forall i, j :: Follows(d, a, b, i, j) }

  function DistanceAt(a: JsString, b: JsString, i: nat, j: nat): nat {
    if i <= |a| && j <= |b| then D(a, b, i, j) else 0
  }

  function Distances(a: JsString, b: JsString): Table { (i: nat, j: nat) => DistanceAt(a, b, i, j) }

  lemma DistanceFollows(a: JsString, b: JsString, i: nat, j: nat)
    requires 0 < i <= |a| && 0 < j <= |b|
    ensures DistanceAt(a, b, i, j)
         == Cell(a[i - 1] == b[j - 1], DistanceAt(a, b, i - 1, j), DistanceAt(a, b, i, j - 1),
                 DistanceAt(a, b, i - 1, j - 1),
                 if Swapped(a, b, i, j) then Some(DistanceAt(a, b, i - 2, j - 2)) else None)
  {
    CellIsDistance(a, b, i, j);
  }

  lemma DistancesFollow(a: JsString, b: JsString, i: nat, j: nat)
    ensures Follows(Distances(a, b), a, b, i, j)
  {
    if 0 < i <= |a| && 0 < j <= |b| { DistanceFollows(a, b, i, j); }
  }

  lemma DistancesAreATable(a: JsString, b: JsString)
    ensures IsTable(Distances(a, b), a, b) && Distances(a, b)(|a|, |b|) == Osa(a, b)
  {
    forall i, j ensures Follows(Distances(a, b), a, b, i, j) { DistancesFollow(a, b, i, j); }
  }

  ghost predicate IsRow(row: seq<nat>, d: Table, width: nat, i: nat) {
    |row| == width + 1 && forall j: nat :: j <= width ==> row[j] == d(i, j)
  }

  lemma {:induction false} LengthGapBound(d: Table, a: JsString, b: JsString, i: nat, j: nat)
    requires IsTable(d, a, b) && i <= |a| && j <= |b|
    ensures d(i, j) >= i - j && d(i, j) >= j - i
    decreases i + j
  {
    assert Follows(d, a, b, i, j);
    if i > 0 && j > 0 {
      LengthGapBound(d, a, b, i - 1, j);
      LengthGapBound(d, a, b, i, j - 1);
      LengthGapBound(d, a, b, i - 1, j - 1);
      if Swapped(a, b, i, j) {
        LengthGapBound(d, a, b, i - 2, j - 2);
      }
    }
  }

  /** A row never falls below the least value of the row before it, although a swap skips that row. */
  lemma {:induction false} NextRowIsNoLower(d: Table, a: JsString, b: JsString, i: nat, low: nat, j: nat)
    requires IsTable(d, a, b) && i < |a| && j <= |b| && forall k: nat :: k <= |b| ==> low <= d(i, k)
    ensures low <= d(i + 1, j)
  {
    assert Follows(d, a, b, i + 1, j) && Follows(d, a, b, i, 0);
    if j > 0 {
      NextRowIsNoLower(d, a, b, i, low, j - 1);
      assert low <= d(i, j) && low <= d(i, j - 1);
      if Swapped(a, b, i + 1, j) {
        assert Follows(d, a, b, i, j - 2) && Follows(d, a, b, i - 1, 0);
        assert low <= d(i, j - 2) <= d(i - 1, j - 2) + 1;
      }
    }
  }

  /** So once a whole row exceeds a bound, the distance does. */
  lemma {:induction false} RowsNeverRecover(d: Table, a: JsString, b: JsString, i: nat, low: nat)
    requires IsTable(d, a, b) && i <= |a| && forall k: nat :: k <= |b| ==> low <= d(i, k)
    ensures low <= d(|a|, |b|)
    decreases |a| - i
  {
    if i < |a| {
      var next := i + 1;
      forall k: nat | k <= |b| ensures low <= d(next, k) {
        NextRowIsNoLower(d, a, b, i, low, k);
      }
      RowsNeverRecover(d, a, b, next, low);
    }
  }

  /** One row of the table from the two before it, with its least value. */
  method NextRow(ghost d: Table, a: JsString, b: JsString, i: nat, before: Option<seq<nat>>, previous: seq<nat>)
    returns (current: seq<nat>, rowMin: nat)
    requires IsTable(d, a, b) && 0 < i <= |a| && IsRow(previous, d, |b|, i - 1)
    requires before.Some? <==> i > 1
    requires before.Some? ==> IsRow(before.value, d, |b|, i - 2)
    ensures IsRow(current, d, |b|, i)
    ensures rowMin in current && forall j :: 0 <= j <= |b| ==> rowMin <= current[j]
  {
    assert Follows(d, a, b, i, 0);
    current, rowMin := [i], i;
    ghost var at := 0;
    for j := 1 to |b| + 1
      invariant |current| == j && forall k: nat :: k < j ==> current[k] == d(i, k)
      invariant 0 <= at < j && current[at] == rowMin && forall k :: 0 <= k < j ==> rowMin <= current[k]
    {
      assert Follows(d, a, b, i, j);
      var swap: Option<nat> := None;
      if before.Some? && i > 1 && j > 1 && a[i - 1] == b[j - 2] && a[i - 2] == b[j - 1] {
        swap := Some(before.value[j - 2]);
      }
      var value := Cell(a[i - 1] == b[j - 1], previous[j], current[j - 1], previous[j - 1], swap);
      current := current + [value];
      if value < rowMin {
        rowMin, at := value, j;
      }
    }
  }

  /** The distance when it is at most `max`, and something above `max` when it is not. */
  method EditDistance(a: JsString, b: JsString, max: int) returns (r: int)
    ensures r <= max <==> Osa(a, b) <= max
    ensures r <= max ==> r == Osa(a, b)
  {
    ghost var d := Distances(a, b);
    DistancesAreATable(a, b);
    LengthGapBound(d, a, b, |a|, |b|);
    if |a| - |b| > max || |b| - |a| > max {
      return max + 1;
    }
    var before: Option<seq<nat>> := None;
    var previous: seq<nat> := seq(|b| + 1, j => j);
    FirstRow(d, a, b, previous);
    for i := 1 to |a| + 1
      invariant IsRow(previous, d, |b|, i - 1)
      invariant before.Some? <==> i > 1
      invariant before.Some? ==> IsRow(before.value, d, |b|, i - 2)
    {
      var current, rowMin := NextRow(d, a, b, i, before, previous);
      if rowMin > max {
        RowsNeverRecover(d, a, b, i, rowMin);
        return max + 1;
      }
      before := Some(previous);
      previous := current;
    }
    return previous[|b|];
  }

  lemma FirstRow(d: Table, a: JsString, b: JsString, row: seq<nat>)
    requires IsTable(d, a, b) && |row| == |b| + 1 && forall j :: 0 <= j <= |b| ==> row[j] == j
    ensures IsRow(row, d, |b|, 0)
  {
    forall j: nat | j <= |b| ensures row[j] == d(0, j) { assert Follows(d, a, b, 0, j); }
  }

  // ---- The distance is the least cost of an edit script ----

  datatype Edit = Keep | Substitute(c: CodeUnit) | InsertUnit(c: CodeUnit) | Delete | Swap

  type Script = seq<Edit>

  /** Units an edit reads. */
  function Takes(e: Edit): nat {
    match e
    case InsertUnit(_) => 0
    case Swap => 2
    case _ => 1
  }

  /** What an edit writes for the units `z` it reads. */
  function Effect(e: Edit, z: JsString): JsString {
    match e
    case Keep => z
    case Substitute(c) => [c]
    case InsertUnit(c) => [c]
    case Delete => []
    case Swap => if |z| == 2 then [z[1], z[0]] else z
  }

  /** Run a script from left to right; it must read the whole string. */
  function PlayWith(
    takes: Edit -> nat, effect: (Edit, JsString) -> JsString, s: Script, x: JsString): Option<JsString>
  {
    if s == [] then (if x == [] then Some([]) else None)
    else
      var t := takes(s[0]);
      if |x| < t then None
      else match PlayWith(takes, effect, s[1..], x[t..])
        case None => None
        case Some(rest) => Some(effect(s[0], x[..t]) + rest)
  }

  function Play(s: Script, x: JsString): Option<JsString> { PlayWith(Takes, Effect, s, x) }

  function Cost(s: Script): nat {
    if s == [] then 0 else Cost(s[..|s| - 1]) + if s[|s| - 1].Keep? then 0 else 1
  }

  lemma PlaySingle(takes: Edit -> nat, effect: (Edit, JsString) -> JsString, e: Edit, x: JsString)
    ensures PlayWith(takes, effect, [e], x) == if |x| == takes(e) then Some(effect(e, x)) else None
  {
    if takes(e) <= |x| {
      assert [e][1..] == [];
      assert |x| == takes(e) ==> x[takes(e)..] == [] && x[..takes(e)] == x;
      assert effect(e, x[..takes(e)]) + [] == effect(e, x[..takes(e)]);
    }
  }

  /** A script followed by one more edit. */
  lemma {:induction false} PlayOneMore(takes: Edit -> nat, effect: (Edit, JsString) -> JsString,
                                       s: Script, e: Edit, x: JsString, z: JsString)
    requires PlayWith(takes, effect, s, x).Some? && |z| == takes(e)
    ensures PlayWith(takes, effect, s + [e], x + z) == Some(PlayWith(takes, effect, s, x).value + effect(e, z))
  {
    if s == [] {
      assert s + [e] == [e] && x + z == z;
      PlaySingle(takes, effect, e, z);
      assert [] + effect(e, z) == effect(e, z);
    } else {
      var t := takes(s[0]);
      PlayOneMore(takes, effect, s[1..], e, x[t..], z);
      assert (s + [e])[1..] == s[1..] + [e];
      assert (x + z)[t..] == x[t..] + z && (x + z)[..t] == x[..t];
      var first, rest, last := effect(s[0], x[..t]), PlayWith(takes, effect, s[1..], x[t..]).value, effect(e, z);
      assert first + (rest + last) == (first + rest) + last;
    }
  }

  /** Undo the last edit of a script that plays. */
  lemma {:induction false} PlayOneLess(takes: Edit -> nat, effect: (Edit, JsString) -> JsString,
                                       s: Script, e: Edit, x: JsString)
    requires PlayWith(takes, effect, s + [e], x).Some?
    ensures takes(e) <= |x|
    ensures
      var k := |x| - takes(e);
      && PlayWith(takes, effect, s, x[..k]).Some?
      && PlayWith(takes, effect, s + [e], x).value == PlayWith(takes, effect, s, x[..k]).value + effect(e, x[k..])
  {
    if s == [] {
      assert s + [e] == [e];
      PlaySingle(takes, effect, e, x);
      assert x[0..] == x && [] + effect(e, x) == effect(e, x);
    } else {
      var t := takes(s[0]);
      assert (s + [e])[1..] == s[1..] + [e] && (s + [e])[0] == s[0];
      PlayOneLess(takes, effect, s[1..], e, x[t..]);
      var k := |x| - takes(e);
      SlicesAgree(x, t, k);
      var first, last := effect(s[0], x[..t]), effect(e, x[k..]);
      var rest := PlayWith(takes, effect, s[1..], x[..k][t..]).value;
      assert first + (rest + last) == (first + rest) + last;
    }
  }

  lemma SlicesAgree(x: JsString, t: nat, k: nat)
    requires t <= k <= |x|
    ensures x[t..][..k - t] == x[..k][t..] && x[..k][..t] == x[..t] && x[t..][k - t..] == x[k..]
  {
  }

  /** No script is cheaper than the distance. */
  lemma {:induction false} NoScriptIsCheaper(a: JsString, b: JsString, i: nat, j: nat, s: Script)
    requires i <= |a| && j <= |b| && Play(s, a[..i]) == Some(b[..j])
    ensures D(a, b, i, j) <= Cost(s)
    decreases |s|
  {
    if s == [] {
      assert i == 0 && j == |b[..j]| == 0;
    } else {
      var n := |s| - 1;
      var e, head := s[n], s[..n];
      assert s == head + [e];
      PlayOneLess(Takes, Effect, head, e, a[..i]);
      var k := i - Takes(e);
      assert a[..i][..k] == a[..k] && a[..i][k..] == a[k..i];
      var first, written := Play(head, a[..k]).value, Effect(e, a[k..i]);
      var l := j - |written|;
      SplitAt(b, j, first, written);
      NoScriptIsCheaper(a, b, k, l, head);
      DistancesFollow(a, b, i, j);
      DistancesFollow(a, b, k, l);
      LastEdit(Distances(a, b), a, b, i, j, e, k, l);
      assert s[..n] == head;
    }
  }

  lemma SplitAt(b: JsString, j: nat, first: JsString, last: JsString)
    requires j <= |b| && b[..j] == first + last
    ensures |last| <= j && first == b[..j - |last|] && last == b[j - |last|..j]
  {
    assert first == (first + last)[..|first|] && last == (first + last)[|first|..];
  }

  /** What the recurrence allows for each last edit. */
  lemma LastEdit(d: Table, a: JsString, b: JsString, i: nat, j: nat, e: Edit, k: nat, l: nat)
    requires k <= i <= |a| && l <= j <= |b| && i - k == Takes(e) && Effect(e, a[k..i]) == b[l..j]
    requires Follows(d, a, b, i, j) && Follows(d, a, b, k, l)
    ensures d(i, j) <= d(k, l) + if e.Keep? then 0 else 1
  {
    assert |b[l..j]| == j - l;
    match e
    case Keep => assert a[k..i][0] == b[l..j][0];
    case Substitute(c) =>
    case InsertUnit(c) =>
    case Delete =>
    case Swap => assert b[l..j][0] == a[k..i][1] && b[l..j][1] == a[k..i][0];
  }

  lemma UnitSlice(s: JsString, i: nat)
    requires 0 < i <= |s|
    ensures s[i - 1..i] == [s[i - 1]] && s[i..i] == []
  {
  }

  lemma PairSlice(s: JsString, i: nat)
    requires 1 < i <= |s|
    ensures s[i - 2..i] == [s[i - 2], s[i - 1]]
  {
  }

  /** The last edit of a best script: it turns one end into the other, and what is left is optimal. */
  lemma BestEditFits(d: Table, a: JsString, b: JsString, i: nat, j: nat) returns (e: Edit, k: nat, l: nat)
    requires i <= |a| && j <= |b| && i + j > 0
    requires Follows(d, a, b, i, j)
    requires (i == 0 ==> Follows(d, a, b, 0, j - 1)) && (j == 0 ==> Follows(d, a, b, i - 1, 0))
    ensures k <= i && l <= j && k + l < i + j && i - k == Takes(e) && Effect(e, a[k..i]) == b[l..j]
    ensures d(i, j) == d(k, l) + if e.Keep? then 0 else 1
  {
    if i > 0 { UnitSlice(a, i); }
    if j > 0 { UnitSlice(b, j); }
    if i == 0 {
      e, k, l := InsertUnit(b[j - 1]), i, j - 1;
    } else if j == 0 || d(i, j) == d(i - 1, j) + 1 {
      assert b[j..j] == [];
      e, k, l := Delete, i - 1, j;
    } else if d(i, j) == d(i, j - 1) + 1 {
      e, k, l := InsertUnit(b[j - 1]), i, j - 1;
    } else if Swapped(a, b, i, j) && d(i, j) == d(i - 2, j - 2) + 1 {
      PairSlice(a, i);
      PairSlice(b, j);
      e, k, l := Swap, i - 2, j - 2;
    } else if a[i - 1] == b[j - 1] {
      e, k, l := Keep, i - 1, j - 1;
    } else {
      e, k, l := Substitute(b[j - 1]), i - 1, j - 1;
    }
  }

  /** A script that achieves the distance. */
  lemma {:induction false} SomeScriptAchieves(d: Table, a: JsString, b: JsString, i: nat, j: nat) returns (s: Script)
    requires i <= |a| && j <= |b| && IsTable(d, a, b)
    ensures Play(s, a[..i]) == Some(b[..j]) && Cost(s) == d(i, j)
    decreases i + j
  {
    assert Follows(d, a, b, i, j);
    if i + j == 0 {
      s := [];
    } else {
      assert i == 0 ==> Follows(d, a, b, 0, j - 1);
      assert j == 0 ==> Follows(d, a, b, i - 1, 0);
      var e, k, l := BestEditFits(d, a, b, i, j);
      var head := SomeScriptAchieves(d, a, b, k, l);
      s := head + [e];
      PlayOneMore(Takes, Effect, head, e, a[..k], a[k..i]);
      assert a[..k] + a[k..i] == a[..i] && b[..l] + b[l..j] == b[..j];
      assert s[..|head|] == head;
    }
  }

  /** The distance is the least cost over all left-to-right scripts that turn `a` into `b`. */
  lemma OsaIsLeastScriptCost(a: JsString, b: JsString)
    ensures exists s :: Play(s, a) == Some(b) && Cost(s) == Osa(a, b)
    ensures forall s :: Play(s, a) == Some(b) ==> Osa(a, b) <= Cost(s)
  {
    assert a[..|a|] == a && b[..|b|] == b;
    DistancesAreATable(a, b);
    var best := SomeScriptAchieves(Distances(a, b), a, b, |a|, |b|);
    forall s | Play(s, a) == Some(b) ensures Osa(a, b) <= Cost(s) {
      NoScriptIsCheaper(a, b, |a|, |b|, s);
    }
  }

  // ---- Picking variants ----

  const WEIGHT_RATIO: nat := 4
  const MAX_MISREADINGS: nat := 8
  const RARE_DOCS: nat := 10

  datatype Entry = Entry(term: JsString, docs: nat)

  datatype Candidate = Candidate(term: JsString, distance: nat, docs: nat)

  /** How the host language orders terms. */
  type TermOrder = (JsString, JsString) -> bool

  function ByCloseness(le: TermOrder): (Candidate, Candidate) -> bool {
    (x: Candidate, y: Candidate) =>
      x.distance < y.distance ||
      (x.distance == y.distance && (x.docs > y.docs || (x.docs == y.docs && le(x.term, y.term))))
  }

  function MaxEditsFor(term: JsString): nat {
    if exists i :: 0 <= i < |term| && 48 <= term[i] <= 57 then 0
    else if |term| < 5 then 0
    else if |term| < 8 then 1
    else 2
  }

  function Weight(vocab: seq<Entry>, needle: JsString): nat {
    if vocab == [] then 0
    else if vocab[0].term == needle then vocab[0].docs
    else Weight(vocab[1..], needle)
  }

  function Larger(x: nat, y: nat): nat { if x < y then y else x }

  predicate IsNear(needle: JsString, max: nat, e: Entry) {
    e.term != needle && Osa(needle, e.term) <= max
  }

  predicate MuchRarer(docs: nat, weight: nat) { docs * WEIGHT_RATIO <= weight }

  predicate MuchCommoner(docs: nat, weight: nat) { docs >= Larger(2, weight * WEIGHT_RATIO) }

  predicate BothRare(docs: nat, weight: nat) { weight > 0 && weight < RARE_DOCS && docs < RARE_DOCS }

  function ToCandidate(needle: JsString, e: Entry): Candidate {
    Candidate(e.term, Osa(needle, e.term), e.docs)
  }

  function Misreading(needle: JsString, max: nat, weight: nat): Entry -> seq<Candidate> {
    (e: Entry) =>
      if IsNear(needle, max, e) &&
         (MuchRarer(e.docs, weight) || (!MuchCommoner(e.docs, weight) && BothRare(e.docs, weight)))
      then [ToCandidate(needle, e)] else []
  }

  function Correction(needle: JsString, max: nat, weight: nat): Entry -> seq<Candidate> {
    (e: Entry) =>
      if IsNear(needle, max, e) && !MuchRarer(e.docs, weight) && MuchCommoner(e.docs, weight)
      then [ToCandidate(needle, e)] else []
  }

  function Term(c: Candidate): JsString { c.term }

  /** The first `k` of the candidates that `f` draws from the vocabulary. */
  function BestOf(vocab: seq<Entry>, le: TermOrder, f: Entry -> seq<Candidate>, k: nat): (best: seq<Candidate>)
    ensures |best| <= k
  {
    Take(k, Sort(ByCloseness(le), Concat(vocab, f)))
  }

  /** The variants, by the unbounded distance. */
  function Variants(needle: JsString, vocab: seq<Entry>, le: TermOrder): seq<JsString> {
    var max := MaxEditsFor(needle);
    if max == 0 then []
    else
      var weight := Weight(vocab, needle);
      Map(BestOf(vocab, le, Correction(needle, max, weight), 1)
          + BestOf(vocab, le, Misreading(needle, max, weight), MAX_MISREADINGS),
          Term)
  }

  // ---- What the list is, in terms of the vocabulary and the distance ----

  /** Nearby, far commoner than the term: four times, and in two documents at least. */
  predicate CanCorrect(needle: JsString, weight: nat, e: Entry) {
    && e.term != needle && Osa(needle, e.term) <= MaxEditsFor(needle)
    && 4 * e.docs > weight && e.docs >= 2 && e.docs >= 4 * weight
  }

  /** Nearby, and four times rarer than the term, or no rarer than it is but both in few documents. */
  predicate CanBeMisread(needle: JsString, weight: nat, e: Entry) {
    && e.term != needle && Osa(needle, e.term) <= MaxEditsFor(needle)
    && (4 * e.docs <= weight || (0 < weight < 10 && e.docs < 10 && (e.docs < 2 || e.docs < 4 * weight)))
  }

  /** The distance to one term. */
  type Distance = JsString -> nat

  function OsaTo(needle: JsString): Distance { t => Osa(needle, t) }

  /** Closer to the term; as close and in more documents; or both the same and not after it in the collation. */
  predicate GoesBefore(to: Distance, le: TermOrder, x: Entry, y: Entry) {
    || to(x.term) < to(y.term)
    || (to(x.term) == to(y.term) && x.docs > y.docs)
    || (to(x.term) == to(y.term) && x.docs == y.docs && le(x.term, y.term))
  }

  /**
   * `picked` are the first `k` of the eligible entries: they are eligible and in order, and whatever is left out
   * goes after all of them, and is left out only because there are `k`.
   */
  ghost predicate AreFirst(
    picked: seq<Entry>, to: Distance, vocab: seq<Entry>, le: TermOrder, eligible: Entry -> bool, k: nat)
  {
    && |picked| <= k
    && (forall e :: e in picked ==> e in vocab && eligible(e))
    && (forall i, j :: 0 <= i < j < |picked| ==> GoesBefore(to, le, picked[i], picked[j]))
    && (forall e :: e in vocab && eligible(e) && e !in picked ==>
          |picked| == k && forall x :: x in picked ==> GoesBefore(to, le, x, e))
  }

  function EntryOf(c: Candidate): Entry { Entry(c.term, c.docs) }

  function TermOfEntry(e: Entry): JsString { e.term }

  function At(to: Distance, e: Entry): Candidate { Candidate(e.term, to(e.term), e.docs) }

  /** What `f` draws: exactly the eligible entries, with their distance. */
  ghost predicate Draws(f: Entry -> seq<Candidate>, to: Distance, eligible: Entry -> bool) {
    forall e :: f(e) == if eligible(e) then [At(to, e)] else []
  }

  lemma BestAreFirst(
    to: Distance, vocab: seq<Entry>, le: TermOrder, f: Entry -> seq<Candidate>, eligible: Entry -> bool, k: nat)
    requires Total(le) && Draws(f, to, eligible)
    ensures AreFirst(Map(BestOf(vocab, le, f, k), EntryOf), to, vocab, le, eligible, k)
  {
    ClosenessIsAnOrder(le);
    var sorted := Sort(ByCloseness(le), Concat(vocab, f));
    var best := BestOf(vocab, le, f, k);
    SortIsSorted(ByCloseness(le), Concat(vocab, f));
    forall c | c in sorted ensures EntryOf(c) in vocab && eligible(EntryOf(c)) && c == At(to, EntryOf(c)) {
      DrawnFrom(to, vocab, le, f, eligible, c);
    }
    forall e | e in vocab && eligible(e) ensures At(to, e) in sorted {
      IsDrawn(to, vocab, le, f, eligible, e);
    }
    FirstCandidatesAreFirst(to, vocab, le, eligible, sorted, k);
  }

  lemma DrawnFrom(to: Distance, vocab: seq<Entry>, le: TermOrder, f: Entry -> seq<Candidate>,
                  eligible: Entry -> bool, c: Candidate)
    requires Draws(f, to, eligible) && c in Sort(ByCloseness(le), Concat(vocab, f))
    ensures EntryOf(c) in vocab && eligible(EntryOf(c)) && c == At(to, EntryOf(c))
  {
    SortMembers(ByCloseness(le), Concat(vocab, f), c);
    var e := SourceOf(vocab, f, c);
    assert f(e) == if eligible(e) then [At(to, e)] else [];
  }

  lemma SourceOf(vocab: seq<Entry>, f: Entry -> seq<Candidate>, c: Candidate) returns (e: Entry)
    requires c in Concat(vocab, f)
    ensures e in vocab && c in f(e)
  {
    ConcatMember(vocab, f, c);
    var i :| 0 <= i < |vocab| && c in f(vocab[i]);
    e := vocab[i];
  }

  lemma IsDrawn(to: Distance, vocab: seq<Entry>, le: TermOrder, f: Entry -> seq<Candidate>,
                eligible: Entry -> bool, e: Entry)
    requires Draws(f, to, eligible) && e in vocab && eligible(e)
    ensures At(to, e) in Sort(ByCloseness(le), Concat(vocab, f))
  {
    var v :| 0 <= v < |vocab| && vocab[v] == e;
    assert At(to, e) in f(vocab[v]);
    ConcatMember(vocab, f, At(to, e));
    SortMembers(ByCloseness(le), Concat(vocab, f), At(to, e));
  }

  lemma FirstCandidatesAreFirst(
    to: Distance, vocab: seq<Entry>, le: TermOrder, eligible: Entry -> bool, sorted: seq<Candidate>, k: nat)
    requires Sorted(ByCloseness(le), sorted)
    requires forall c :: c in sorted ==> EntryOf(c) in vocab && eligible(EntryOf(c)) && c == At(to, EntryOf(c))
    requires forall e :: e in vocab && eligible(e) ==> At(to, e) in sorted
    ensures AreFirst(Map(Take(k, sorted), EntryOf), to, vocab, le, eligible, k)
  {
    var best := Take(k, sorted);
    var picked := Map(best, EntryOf);
    assert forall i :: 0 <= i < |best| ==> best[i] == sorted[i] && picked[i] == EntryOf(sorted[i]);
    forall i, j | 0 <= i < j < |picked| ensures GoesBefore(to, le, picked[i], picked[j]) {
      CloserGoesBefore(to, le, sorted[i], sorted[j]);
    }
    forall e | e in vocab && eligible(e) && e !in picked
      ensures |picked| == k && forall x :: x in picked ==> GoesBefore(to, le, x, e)
    {
      LeftOutGoesAfter(to, le, sorted, k, e);
    }
  }

  lemma CloserGoesBefore(to: Distance, le: TermOrder, c: Candidate, d: Candidate)
    requires ByCloseness(le)(c, d) && c == At(to, EntryOf(c)) && d == At(to, EntryOf(d))
    ensures GoesBefore(to, le, EntryOf(c), EntryOf(d))
  {
  }

  lemma LeftOutGoesAfter(to: Distance, le: TermOrder, sorted: seq<Candidate>, k: nat, e: Entry)
    requires Sorted(ByCloseness(le), sorted) && At(to, e) in sorted
    requires forall c :: c in sorted ==> c == At(to, EntryOf(c))
    requires e !in Map(Take(k, sorted), EntryOf)
    ensures |Take(k, sorted)| == k
    ensures forall x :: x in Map(Take(k, sorted), EntryOf) ==> GoesBefore(to, le, x, e)
  {
    var best, c := Take(k, sorted), At(to, e);
    assert EntryOf(c) == e;
    assert forall j :: 0 <= j < |best| ==> Map(best, EntryOf)[j] in Map(best, EntryOf);
    TakeLeavesWorse(ByCloseness(le), sorted, k, c);
    forall x | x in Map(best, EntryOf) ensures GoesBefore(to, le, x, e) {
      var j :| 0 <= j < |best| && Map(best, EntryOf)[j] == x;
      assert best[j] in best && sorted[j] == best[j];
      CloserGoesBefore(to, le, best[j], c);
    }
  }

  /** At most one correction, the first, and then at most eight misreadings, the first. */
  ghost predicate IsPick(variants: seq<JsString>, needle: JsString, vocab: seq<Entry>, le: TermOrder) {
    var weight := Weight(vocab, needle);
    exists correction, misread ::
      && variants == Map(correction + misread, TermOfEntry)
      && AreFirst(correction, OsaTo(needle), vocab, le, e => CanCorrect(needle, weight, e), 1)
      && AreFirst(misread, OsaTo(needle), vocab, le, e => CanBeMisread(needle, weight, e), 8)
  }

  lemma VariantsAreThePick(needle: JsString, vocab: seq<Entry>, le: TermOrder)
    requires Total(le) && MaxEditsFor(needle) > 0
    ensures IsPick(Variants(needle, vocab, le), needle, vocab, le)
  {
    var max, weight := MaxEditsFor(needle), Weight(vocab, needle);
    var corrects := (e: Entry) => CanCorrect(needle, weight, e);
    var misreads := (e: Entry) => CanBeMisread(needle, weight, e);
    var first := BestOf(vocab, le, Correction(needle, max, weight), 1);
    var rest := BestOf(vocab, le, Misreading(needle, max, weight), MAX_MISREADINGS);
    CorrectionsAreDrawn(needle, weight);
    MisreadingsAreDrawn(needle, weight);
    BestAreFirst(OsaTo(needle), vocab, le, Correction(needle, max, weight), corrects, 1);
    BestAreFirst(OsaTo(needle), vocab, le, Misreading(needle, max, weight), misreads, MAX_MISREADINGS);
    SameTerms(first, rest);
  }

  lemma CorrectionsAreDrawn(needle: JsString, weight: nat)
    ensures Draws(Correction(needle, MaxEditsFor(needle), weight), OsaTo(needle), e => CanCorrect(needle, weight, e))
  {
  }

  lemma MisreadingsAreDrawn(needle: JsString, weight: nat)
    ensures Draws(Misreading(needle, MaxEditsFor(needle), weight), OsaTo(needle), e => CanBeMisread(needle, weight, e))
  {
  }

  lemma SameTerms(a: seq<Candidate>, b: seq<Candidate>)
    ensures Map(a + b, Term) == Map(Map(a, EntryOf) + Map(b, EntryOf), TermOfEntry)
  {
  }

  /** Terms with a digit and short terms have no variants; five to seven units allow one edit, more two. */
  lemma EditsByLength(term: JsString)
    ensures (exists x :: x in term && 48 <= x <= 57) ==> MaxEditsFor(term) == 0
    ensures (forall x :: x in term ==> x < 48 || x > 57) ==>
              && (MaxEditsFor(term) >= 1 <==> |term| >= 5)
              && (MaxEditsFor(term) == 2 <==> |term| >= 8)
              && MaxEditsFor(term) <= 2
  {
    if i :| 0 <= i < |term| && 48 <= term[i] <= 57 { assert term[i] in term; }
    if x :| x in term && 48 <= x <= 57 {
      var i :| 0 <= i < |term| && term[i] == x;
    }
  }

  /** The picker: the bounded distance with its early exits gives the same list. */
  method PickVariants(term: JsString, vocab: seq<Entry>, normalize: JsString -> JsString, le: TermOrder)
    returns (variants: seq<JsString>)
    ensures variants == Variants(normalize(term), vocab, le)
    ensures MaxEditsFor(normalize(term)) == 0 ==> variants == []
    ensures MaxEditsFor(normalize(term)) > 0 && Total(le) ==> IsPick(variants, normalize(term), vocab, le)
  {
    var needle := normalize(term);
    var max := MaxEditsFor(needle);
    if max == 0 {
      return [];
    }
    if Total(le) { VariantsAreThePick(needle, vocab, le); }
    var corrections, misreadings := Collect(needle, max, Weight(vocab, needle), vocab);
    var correction := Take(1, Sort(ByCloseness(le), corrections));
    var kept := Take(MAX_MISREADINGS, Sort(ByCloseness(le), misreadings));
    variants := Map(correction + kept, Term);
  }

  /** The loop over the vocabulary, with the bounded distance. */
  method Collect(needle: JsString, max: nat, weight: nat, vocab: seq<Entry>)
    returns (corrections: seq<Candidate>, misreadings: seq<Candidate>)
    ensures misreadings == Concat(vocab, Misreading(needle, max, weight))
    ensures corrections == Concat(vocab, Correction(needle, max, weight))
  {
    misreadings, corrections := [], [];
    for i := 0 to |vocab|
      invariant misreadings == Concat(vocab[..i], Misreading(needle, max, weight))
      invariant corrections == Concat(vocab[..i], Correction(needle, max, weight))
    {
      var candidate, docs := vocab[i].term, vocab[i].docs;
      ConcatSnoc(vocab[..i], vocab[i], Misreading(needle, max, weight));
      ConcatSnoc(vocab[..i], vocab[i], Correction(needle, max, weight));
      TakeNext(vocab, i);
      DistancesAreATable(needle, candidate);
      LengthGapBound(Distances(needle, candidate), needle, candidate, |needle|, |candidate|);
      if candidate == needle || |candidate| - |needle| > max || |needle| - |candidate| > max {
        continue;
      }
      var distance := EditDistance(needle, candidate, max);
      if distance > max {
        continue;
      }
      if docs * WEIGHT_RATIO <= weight {
        misreadings := misreadings + [Candidate(candidate, distance, docs)];
      } else if docs >= Larger(2, weight * WEIGHT_RATIO) {
        corrections := corrections + [Candidate(candidate, distance, docs)];
      } else if weight > 0 && weight < RARE_DOCS && docs < RARE_DOCS {
        misreadings := misreadings + [Candidate(candidate, distance, docs)];
      }
    }
    assert vocab[..|vocab|] == vocab;
  }

  // ---- What the list means ----

  lemma ClosenessIsAnOrder(le: TermOrder)
    requires Total(le)
    ensures Total(ByCloseness(le))
  {
    var close := ByCloseness(le);
    forall x, y ensures close(x, y) || close(y, x) {
      assert le(x.term, y.term) || le(y.term, x.term);
    }
    forall x, y, z | close(x, y) && close(y, z) ensures close(x, z) {
      assert le(x.term, y.term) && le(y.term, z.term) ==> le(x.term, z.term);
    }
  }

  /** The order tells all terms of the vocabulary apart. */
  ghost predicate Separates(le: TermOrder, vocab: seq<Entry>) {
    forall i, j ::
      && 0 <= i < |vocab| && 0 <= j < |vocab|
      && le(vocab[i].term, vocab[j].term) && le(vocab[j].term, vocab[i].term)
      ==> vocab[i].term == vocab[j].term
  }

  /** Then no two candidates drawn from it tie. */
  lemma CandidatesDoNotTie(le: TermOrder, vocab: seq<Entry>, f: Entry -> seq<Candidate>)
    requires Separates(le, vocab) && forall e, c :: c in f(e) ==> c.term == e.term
    ensures TieFree(ByCloseness(le), Concat(vocab, f))
  {
    var s, close := Concat(vocab, f), ByCloseness(le);
    forall x, y | x in s && y in s && close(x, y) && close(y, x) ensures x == y {
      ConcatMember(vocab, f, x);
      ConcatMember(vocab, f, y);
      var i :| 0 <= i < |vocab| && x in f(vocab[i]);
      var j :| 0 <= j < |vocab| && y in f(vocab[j]);
      assert x.term == vocab[i].term && y.term == vocab[j].term;
    }
  }

  ghost predicate DistinctTerms(vocab: seq<Entry>) {
    forall i, j :: 0 <= i < j < |vocab| ==> vocab[i].term != vocab[j].term
  }

  lemma {:induction false} WeightIsDocs(vocab: seq<Entry>, needle: JsString)
    requires DistinctTerms(vocab)
    ensures forall e :: e in vocab && e.term == needle ==> Weight(vocab, needle) == e.docs
    ensures (forall e :: e in vocab ==> e.term != needle) ==> Weight(vocab, needle) == 0
  {
    if vocab != [] {
      WeightIsDocs(vocab[1..], needle);
      assert vocab == [vocab[0]] + vocab[1..];
    }
  }

  lemma SameWeight(v: seq<Entry>, w: seq<Entry>, needle: JsString)
    requires DistinctTerms(v) && DistinctTerms(w) && multiset(v) == multiset(w)
    ensures Weight(v, needle) == Weight(w, needle)
  {
    WeightIsDocs(v, needle);
    WeightIsDocs(w, needle);
    assert forall e :: e in v <==> e in multiset(v);
    assert forall e :: e in w <==> e in multiset(w);
  }

  lemma SameSorted(le: TermOrder, v: seq<Entry>, w: seq<Entry>, f: Entry -> seq<Candidate>)
    requires Total(ByCloseness(le)) && Separates(le, v) && multiset(v) == multiset(w)
    requires forall e, c :: c in f(e) ==> c.term == e.term
    ensures Sort(ByCloseness(le), Concat(v, f)) == Sort(ByCloseness(le), Concat(w, f))
  {
    ConcatPermutation(v, w, f);
    CandidatesDoNotTie(le, v, f);
    SortForgetsOrder(ByCloseness(le), Concat(v, f), Concat(w, f));
  }

  /** The variants depend on the vocabulary alone, not on the order it is iterated in. */
  lemma VariantsIgnoreVocabularyOrder(needle: JsString, v: seq<Entry>, w: seq<Entry>, le: TermOrder)
    requires Total(le) && Separates(le, v)
    requires DistinctTerms(v) && DistinctTerms(w) && multiset(v) == multiset(w)
    ensures Variants(needle, v, le) == Variants(needle, w, le)
  {
    var max, weight := MaxEditsFor(needle), Weight(v, needle);
    SameWeight(v, w, needle);
    ClosenessIsAnOrder(le);
    SameSorted(le, v, w, Correction(needle, max, weight));
    SameSorted(le, v, w, Misreading(needle, max, weight));
  }

  /** At most nine terms, each a nearby vocabulary term other than the needle. */
  lemma VariantsAreNearbyTerms(needle: JsString, vocab: seq<Entry>, le: TermOrder, t: JsString)
    ensures |Variants(needle, vocab, le)| <= 1 + MAX_MISREADINGS
    ensures t in Variants(needle, vocab, le) ==>
      exists e :: e in vocab && e.term == t && IsNear(needle, MaxEditsFor(needle), e)
  {
    var max, weight := MaxEditsFor(needle), Weight(vocab, needle);
    if max > 0 && t in Variants(needle, vocab, le) {
      var first := BestOf(vocab, le, Correction(needle, max, weight), 1);
      var rest := BestOf(vocab, le, Misreading(needle, max, weight), MAX_MISREADINGS);
      var c := WhichCandidate(first, rest, t);
      if c in first {
        NearSource(needle, vocab, le, Correction(needle, max, weight), 1, c);
      } else {
        NearSource(needle, vocab, le, Misreading(needle, max, weight), MAX_MISREADINGS, c);
      }
    }
  }

  lemma WhichCandidate(first: seq<Candidate>, rest: seq<Candidate>, t: JsString) returns (c: Candidate)
    requires t in Map(first + rest, Term)
    ensures c.term == t && (c in first || c in rest)
  {
    var i :| 0 <= i < |first + rest| && Map(first + rest, Term)[i] == t;
    c := (first + rest)[i];
  }

  lemma NearSource(needle: JsString, vocab: seq<Entry>, le: TermOrder, f: Entry -> seq<Candidate>, k: nat, c: Candidate)
    requires c in BestOf(vocab, le, f, k)
    requires forall e :: e in vocab && c in f(e) ==> c.term == e.term && IsNear(needle, MaxEditsFor(needle), e)
    ensures exists e :: e in vocab && e.term == c.term && IsNear(needle, MaxEditsFor(needle), e)
  {
    SortMembers(ByCloseness(le), Concat(vocab, f), c);
    ConcatMember(vocab, f, c);
    var i :| 0 <= i < |vocab| && c in f(vocab[i]);
    assert vocab[i] in vocab;
  }
}
