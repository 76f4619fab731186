/** Shrinking free text until a value fits: the truncation half of `provenance.rs`. */
module Truncation {
  import opened Common
  import opened Text
  import opened Json
  import opened Repetition

  const ELLIPSIS: string := "\U{2026}"
  const TRUNC_MARKER: string := ELLIPSIS + "[truncado]"
  const TRUNC_SLACK: nat := 64

  lemma MarkerLen()
    ensures ByteLen(TRUNC_MARKER) == 13 && EscapedLen(TRUNC_MARKER) == 13
    ensures TRUNC_MARKER[0] as int == 0x2026 && TRUNC_MARKER[1..] == "[truncado]"
  {
    ByteLenAppend(ELLIPSIS, "[truncado]");
    EscapedLenAppend(ELLIPSIS, "[truncado]");
    assert ByteLen(ELLIPSIS) == EscapedLen(ELLIPSIS) == 3 by {
      assert ELLIPSIS[..0] == [];
    }
    PlainText("[truncado]");
  }

  lemma {:induction false} PlainText(s: string)
    requires forall i :: 0 <= i < |s| ==> 0x5D <= s[i] as int < 0x7F || s[i] == '['
    ensures ByteLen(s) == EscapedLen(s) == |s|
  {
    if s != [] { PlainText(s[..|s| - 1]); }
  }

  // ---- Shortening a string ----

  /** Whether `cut` bytes is the end of a character. */
  predicate IsCharBoundary(s: string, cut: nat) {
    cut == ByteLen(s) || (s != [] && IsCharBoundary(s[..|s| - 1], cut))
  }

  /** The characters that make up the first `cut` bytes. */
  function Slice(s: string, cut: nat): string
    requires IsCharBoundary(s, cut)
  {
    if cut == ByteLen(s) then s else Slice(s[..|s| - 1], cut)
  }

  /** The longest prefix of at most `target` bytes. */
  function Cut(s: string, target: nat): (r: string)
    ensures r <= s && ByteLen(r) <= target
  {
    if ByteLen(s) <= target then s else Cut(s[..|s| - 1], target)
  }

  function Monus(a: nat, b: nat): nat { if a <= b then 0 else a - b }

  function Inner(s: string): string {
    if EndsWith(s, TRUNC_MARKER) then s[..|s| - |TRUNC_MARKER|] else s
  }

  /** Bytes a shortened string may keep ahead of the marker. */
  function PrefixTarget(s: string, excess: nat): nat {
    Monus(Monus(ByteLen(s), excess + TRUNC_SLACK), ByteLen(TRUNC_MARKER))
  }

  function Shortened(s: string, excess: nat): string {
    Cut(Inner(s), PrefixTarget(s, excess)) + TRUNC_MARKER
  }

  predicate CanShorten(f: Option<string>) {
    f.Some? && ByteLen(f.value) > ByteLen(TRUNC_MARKER) && f.value != TRUNC_MARKER
  }

  lemma {:induction false} BoundaryBelow(s: string, cut: nat)
    requires cut <= ByteLen(s)
    ensures IsCharBoundary(s, cut) ==> Slice(s, cut) == Cut(s, cut)
    ensures !IsCharBoundary(s, cut) ==> cut > 0 && Cut(s, cut) == Cut(s, cut - 1)
  {
    if cut != ByteLen(s) {
      var n := |s| - 1;
      if cut <= ByteLen(s[..n]) {
        BoundaryBelow(s[..n], cut);
      } else {
        NoBoundaryAbove(s[..n], cut);
      }
    }
  }

  lemma {:induction false} NoBoundaryAbove(s: string, cut: nat)
    requires cut > ByteLen(s)
    ensures !IsCharBoundary(s, cut)
  {
    if s != [] {
      NoBoundaryAbove(s[..|s| - 1], cut);
    }
  }

  lemma InnerLen(s: string)
    ensures ByteLen(Inner(s)) == ByteLen(s) || ByteLen(Inner(s)) + 13 == ByteLen(s)
    ensures Inner(s) <= s
  {
    MarkerLen();
    if EndsWith(s, TRUNC_MARKER) {
      assert s == Inner(s) + TRUNC_MARKER;
      ByteLenAppend(Inner(s), TRUNC_MARKER);
    }
  }

  /** A shortened string is shorter, so the halving fallback is never needed. */
  lemma ShortenedIsShorter(s: string, excess: nat)
    requires CanShorten(Some(s))
    ensures ByteLen(Shortened(s, excess)) < ByteLen(s)
  {
    MarkerLen();
    ByteLenAppend(Cut(Inner(s), PrefixTarget(s, excess)), TRUNC_MARKER);
  }

  /** It loses at least `excess` bytes of JSON text, or it is the bare marker. */
  lemma ShortenedFitsOrIsMarker(s: string, excess: nat)
    requires CanShorten(Some(s))
    ensures Shortened(s, excess) == TRUNC_MARKER || EscapedLen(Shortened(s, excess)) + excess <= EscapedLen(s)
  {
    MarkerLen();
    var kept := Cut(Inner(s), PrefixTarget(s, excess));
    InnerLen(s);
    if PrefixTarget(s, excess) == 0 {
      assert kept == [];
      assert [] + TRUNC_MARKER == TRUNC_MARKER;
    } else {
      assert kept <= s;
      var lost := s[|kept|..];
      assert s == kept + lost;
      EscapedLenAppend(kept, lost);
      ByteLenAppend(kept, lost);
      EscapedLenAppend(kept, TRUNC_MARKER);
      assert EscapedLen(lost) >= ByteLen(lost);
    }
  }

  /** `s` ahead of a closing marker. */
  ghost predicate IsBody(body: string, s: string) {
    if |s| >= 11 && s[|s| - 11..] == TRUNC_MARKER then s == body + TRUNC_MARKER else body == s
  }

  /**
   * How much a rewrite keeps: the longest prefix of the text that leaves room for the excess, 64 bytes of slack
   * and the 13 of the marker. So it is empty only if not even one character fits, and otherwise at most three
   * bytes, the rest of a character, are lost on top.
   */
  ghost predicate KeepsAllItMay(kept: string, s: string, excess: nat) {
    exists body: string :: IsBody(body, s) && kept <= body
      && (kept == [] || ByteLen(kept) + excess + 77 <= ByteLen(s))
      && (forall k: nat :: |kept| < k <= |body| ==> ByteLen(body[..k]) + excess + 77 > ByteLen(s))
      && (kept == [] || kept == body || ByteLen(kept) + excess + 80 >= ByteLen(s))
  }

  lemma {:induction false} CutIsLongest(s: string, target: nat, k: nat)
    requires |Cut(s, target)| < k <= |s|
    ensures ByteLen(s[..k]) > target
  {
    if k == |s| {
      assert s[..k] == s;
    } else {
      var n := |s| - 1;
      assert s[..n][..k] == s[..k];
      if ByteLen(s) <= target { assert false; }
      CutIsLongest(s[..n], target, k);
    }
  }

  lemma InnerIsBody(s: string)
    ensures IsBody(Inner(s), s) && |TRUNC_MARKER| == 11
  {
    assert EndsWith(s, TRUNC_MARKER) ==> s == Inner(s) + TRUNC_MARKER;
  }

  lemma ShortenedKeepsAllItMay(s: string, excess: nat)
    requires CanShorten(Some(s))
    ensures KeepsAllItMay(Cut(Inner(s), PrefixTarget(s, excess)), s, excess)
  {
    var body, target := Inner(s), PrefixTarget(s, excess);
    var kept := Cut(body, target);
    MarkerLen();
    InnerIsBody(s);
    assert target == Monus(ByteLen(s), excess + 77);
    forall k: nat | |kept| < k <= |body| ensures ByteLen(body[..k]) + excess + 77 > ByteLen(s) {
      CutIsLongest(body, target, k);
    }
    if kept != [] && kept != body {
      var k := |kept| + 1;
      assert body[..k][..|kept|] == kept;
      assert ByteLen(body[..k]) <= ByteLen(kept) + 4;
    }
  }

  method TruncateOptString(field: Option<string>, excess: nat) returns (next: Option<string>, changed: bool)
    ensures changed <==> field.Some? && ByteLen(field.value) > 13
    ensures changed <==> CanShorten(field)
    ensures next == if changed then Some(Shortened(field.value, excess)) else field
    ensures changed ==>
      exists kept :: next == Some(kept + TRUNC_MARKER) && KeepsAllItMay(kept, field.value, excess)
  {
    MarkerLen();
    next, changed := field, false;
    if field.None? {
      return;
    }
    var current := field.value;
    if ByteLen(current) <= ByteLen(TRUNC_MARKER) || current == TRUNC_MARKER {
      return;
    }
    var newTotal := Monus(ByteLen(current), excess + TRUNC_SLACK);
    var prefixTarget := Monus(newTotal, ByteLen(TRUNC_MARKER));
    var inner := if EndsWith(current, TRUNC_MARKER) then current[..|current| - |TRUNC_MARKER|] else current;
    var cut: nat := if prefixTarget <= ByteLen(inner) then prefixTarget else ByteLen(inner);
    CutAtMost(inner, prefixTarget);
    while cut > 0 && !IsCharBoundary(inner, cut)
      invariant cut <= ByteLen(inner)
      invariant 0 <= cut && Cut(inner, cut) == Cut(inner, prefixTarget)
    {
      BoundaryBelow(inner, cut);
      cut := cut - 1;
    }
    BoundaryBelow(inner, cut);
    var shorter := Slice(inner, cut) + TRUNC_MARKER;
    ShortenedIsShorter(current, excess);
    if ByteLen(shorter) >= ByteLen(current) {
      // The source halves the text here; no input reaches this branch.
      assert false;
    }
    ShortenedKeepsAllItMay(current, excess);
    next, changed := Some(shorter), true;
  }

  lemma CutAtMost(s: string, target: nat)
    ensures Cut(s, target) == Cut(s, if target <= ByteLen(s) then target else ByteLen(s))
  {
  }

  // ---- Shortening a list ----

  predicate HasMarker(list: seq<string>) { list != [] && list[|list| - 1] == TRUNC_MARKER }

  /** The entries ahead of a closing marker. */
  function Data(list: seq<string>): seq<string> {
    if HasMarker(list) then list[..|list| - 1] else list
  }

  function EntryBytes(entries: seq<string>): nat {
    if entries == [] then 0 else EntryBytes(entries[..|entries| - 1]) + ByteLen(entries[|entries| - 1]) + 3
  }

  function AtLeastOne(n: nat): nat { if n < 1 then 1 else n }

  /** How many of `n` entries of `total` bytes to drop: enough average ones to cover the excess, at least one. */
  function DropCount(total: nat, n: nat, excess: nat): (k: nat)
    requires n > 0
    ensures 1 <= k <= n
  {
    var wanted := excess / AtLeastOne(total / n) + 1;
    if wanted <= n then wanted else n
  }

  function Keep(data: seq<string>, excess: nat): (k: nat)
    requires data != []
    ensures k < |data|
  {
    |data| - DropCount(EntryBytes(data), |data|, excess)
  }

  predicate CanTrim(list: seq<string>) { Data(list) != [] }

  function Trimmed(list: seq<string>, excess: nat): seq<string>
    requires CanTrim(list)
  {
    Data(list)[..Keep(Data(list), excess)] + [TRUNC_MARKER]
  }

  /** The bytes of the first `n` entries, with quotes and comma. */
  method CountBytes(list: seq<string>, n: nat) returns (total: nat)
    requires n <= |list|
    ensures total == EntryBytes(list[..n])
  {
    total := 0;
    for i := 0 to n
      invariant total == EntryBytes(list[..i])
    {
      assert list[..i + 1][..i] == list[..i];
      total := total + (ByteLen(list[i]) + 3);
    }
  }

  /** Pop `n` entries off the end. */
  method PopMany(list: seq<string>, n: nat) returns (next: seq<string>)
    requires n <= |list|
    ensures next == list[..|list| - n]
  {
    next := list;
    for k := 0 to n
      invariant next == list[..|list| - k]
    {
      next := next[..|next| - 1];
    }
  }

  function Same(s: string): string { s }

  lemma {:induction false} EntryBytesAreTheText(entries: seq<string>)
    ensures EntryBytes(entries) == ByteLen(Concat(entries, Same)) + 3 * |entries|
  {
    if entries != [] {
      var n := |entries| - 1;
      EntryBytesAreTheText(entries[..n]);
      ByteLenAppend(Concat(entries[..n], Same), entries[n]);
    }
  }

  /** `data` is the list ahead of a closing marker. */
  ghost predicate IsData(data: seq<string>, list: seq<string>) {
    if list != [] && list[|list| - 1] == TRUNC_MARKER then list == data + [TRUNC_MARKER] else data == list
  }

  /**
   * How many entries a rewrite keeps: it drops the fewest, at least one, that of average size, quotes and comma
   * included, exceed the excess; or all, if even they do not.
   */
  ghost predicate DropsNoMoreThanNeeded(data: seq<string>, kept: nat, excess: nat) {
    kept < |data| &&
    var total := ByteLen(Concat(data, Same)) + 3 * |data|;
    var average := if total / |data| == 0 then 1 else total / |data|;
    && (forall d :: 1 <= d < |data| - kept ==> d * average <= excess)
    && (kept == 0 || (|data| - kept) * average > excess)
  }

  lemma DropCountIsLeast(total: nat, n: nat, excess: nat)
    requires n > 0
    ensures
      var d, average := DropCount(total, n, excess), if total / n == 0 then 1 else total / n;
      && (forall k :: 1 <= k < d ==> k * average <= excess)
      && (d == n || d * average > excess)
  {
    var average := AtLeastOne(total / n);
    var q := excess / average;
    assert q * average <= excess < (q + 1) * average;
    forall k | 1 <= k < DropCount(total, n, excess) ensures k * average <= excess {
      AtMostTimes(k, q, average);
    }
  }

  lemma AtMostTimes(k: nat, q: nat, x: nat)
    requires k <= q
    ensures k * x <= q * x
  {
  }

  lemma TrimmedDropsNoMoreThanNeeded(list: seq<string>, excess: nat)
    requires CanTrim(list)
    ensures IsData(Data(list), list) && DropsNoMoreThanNeeded(Data(list), Keep(Data(list), excess), excess)
  {
    EntryBytesAreTheText(Data(list));
    DropCountIsLeast(EntryBytes(Data(list)), |Data(list)|, excess);
    assert HasMarker(list) ==> list == Data(list) + [TRUNC_MARKER];
  }

  method TruncateList(list: seq<string>, excess: nat) returns (next: seq<string>, changed: bool)
    ensures changed <==> list != [] && list != [TRUNC_MARKER]
    ensures changed <==> CanTrim(list)
    ensures next == if changed then Trimmed(list, excess) else list
    ensures changed ==>
      exists data, kept: nat ::
        IsData(data, list) && DropsNoMoreThanNeeded(data, kept, excess) && next == data[..kept] + [TRUNC_MARKER]
  {
    next, changed := list, false;
    if list == [] {
      return;
    }
    if |list| == 1 && list[0] == TRUNC_MARKER {
      return;
    }
    var hasMarker := list[|list| - 1] == TRUNC_MARKER;
    var dataLen := if hasMarker then |list| - 1 else |list|;
    if dataLen == 0 {
      return;
    }
    assert Data(list) == list[..dataLen];
    var dataTotal := CountBytes(list, dataLen);
    var toDrop := DropCount(dataTotal, dataLen, excess);
    if hasMarker {
      next := next[..|next| - 1];
    }
    assert next == Data(list);
    next := PopMany(next, toDrop);
    next := next + [TRUNC_MARKER];
    changed := true;
    TrimmedDropsNoMoreThanNeeded(list, excess);
  }

  // ---- One rewrite, and the whole loop ----

  /** The free-text fields of a document, in the order they shrink. */
  datatype Fields = Fields(
    rights: Option<string>, title: Option<string>,
    creators: seq<string>, collections: seq<string>, languages: seq<string>)

  /** The first field that still can shrink, shrunk. */
  function Shrunk(f: Fields, excess: nat): Option<Fields> {
    if CanShorten(f.rights) then Some(f.(rights := Some(Shortened(f.rights.value, excess))))
    else if CanShorten(f.title) then Some(f.(title := Some(Shortened(f.title.value, excess))))
    else if CanTrim(f.creators) then Some(f.(creators := Trimmed(f.creators, excess)))
    else if CanTrim(f.collections) then Some(f.(collections := Trimmed(f.collections, excess)))
    else if CanTrim(f.languages) then Some(f.(languages := Trimmed(f.languages, excess)))
    else None
  }

  predicate IsMinimal(f: Fields) { Shrunk(f, 0).None? }

  function TextBytes(f: Fields): nat {
    (if f.rights.Some? then ByteLen(f.rights.value) else 0) + (if f.title.Some? then ByteLen(f.title.value) else 0)
  }

  function Entries(f: Fields): nat { |Data(f.creators)| + |Data(f.collections)| + |Data(f.languages)| }

  lemma TrimmedHasLessData(list: seq<string>, excess: nat)
    requires CanTrim(list)
    ensures |Data(Trimmed(list, excess))| < |Data(list)|
  {
    var t := Trimmed(list, excess);
    assert t[|t| - 1] == TRUNC_MARKER;
  }

  /** Every rewrite leaves fewer data entries, or as many and less text. */
  lemma ShrunkIsSmaller(f: Fields, excess: nat)
    ensures Shrunk(f, excess).Some? ==>
      var g := Shrunk(f, excess).value;
      Entries(g) < Entries(f) || (Entries(g) == Entries(f) && TextBytes(g) < TextBytes(f))
  {
    if CanShorten(f.rights) {
      ShortenedIsShorter(f.rights.value, excess);
    } else if CanShorten(f.title) {
      ShortenedIsShorter(f.title.value, excess);
    } else if CanTrim(f.creators) {
      TrimmedHasLessData(f.creators, excess);
    } else if CanTrim(f.collections) {
      TrimmedHasLessData(f.collections, excess);
    } else if CanTrim(f.languages) {
      TrimmedHasLessData(f.languages, excess);
    }
  }

  /** The serialized length of the document, as a function of its free text. */
  type Measure = Fields -> nat

  predicate RightsCharged(len: Measure, f: Fields, s: string, t: string) {
    len(f.(rights := Some(s))) + EscapedLen(t) == len(f.(rights := Some(t))) + EscapedLen(s)
  }

  predicate TitleCharged(len: Measure, f: Fields, s: string, t: string) {
    len(f.(title := Some(s))) + EscapedLen(t) == len(f.(title := Some(t))) + EscapedLen(s)
  }

  /** Strings are charged their escaped length and nothing else. */
  ghost predicate ChargesStrings(len: Measure) {
    forall f: Fields, s: string, t: string
      {:trigger RightsCharged(len, f, s, t)} {:trigger TitleCharged(len, f, s, t)} ::
      RightsCharged(len, f, s, t) && TitleCharged(len, f, s, t)
  }

  function Rank(f: Fields): (nat, nat) { (Entries(f), TextBytes(f)) }

  /** One turn of the loop: `None` when the value fits or nothing can shrink; `cap` is the size limit. */
  function Turn(len: Measure, cap: nat): Fields -> Option<Fields> { TurnWith(Shrunk, len, cap) }

  function TurnWith(shrink: (Fields, nat) -> Option<Fields>, len: Measure, cap: nat): Fields -> Option<Fields> {
    (f: Fields) => if len(f) <= cap then None else shrink(f, len(f) - cap)
  }

  lemma TurnsDescend(len: Measure, cap: nat)
    ensures Descends(Turn(len, cap), Rank)
  {
    forall f: Fields, excess: nat ensures ShrinksAt(Shrunk, Rank, f, excess) { ShrunkIsSmaller(f, excess); }
    TurnWithDescends(Shrunk, len, cap, Rank);
  }

  predicate ShrinksAt(shrink: (Fields, nat) -> Option<Fields>, rank: Fields -> (nat, nat), f: Fields, excess: nat) {
    shrink(f, excess).Some? ==> Below(rank(shrink(f, excess).value), rank(f))
  }

  lemma TurnWithDescends(
    shrink: (Fields, nat) -> Option<Fields>, len: Measure, cap: nat, rank: Fields -> (nat, nat))
    requires forall f: Fields, excess: nat :: ShrinksAt(shrink, rank, f, excess)
    ensures Descends(TurnWith(shrink, len, cap), rank)
  {
    forall f: Fields | TurnWith(shrink, len, cap)(f).Some?
      ensures Below(rank(TurnWith(shrink, len, cap)(f).value), rank(f))
    {
      assert ShrinksAt(shrink, rank, f, len(f) - cap);
    }
  }

  /** The text the loop ends on, and how many rewrites it took. */
  function Run(len: Measure, cap: nat, f: Fields): (Fields, nat) {
    TurnsDescend(len, cap);
    Repeat(Turn(len, cap), Rank, f)
  }

  lemma RunUnfolds(len: Measure, cap: nat, f: Fields)
    ensures len(f) <= cap || Shrunk(f, len(f) - cap).None? ==> Run(len, cap, f).0 == f
    ensures len(f) > cap && Shrunk(f, len(f) - cap).Some? ==>
      Run(len, cap, f).0 == Run(len, cap, Shrunk(f, len(f) - cap).value).0
  {
    TurnsDescend(len, cap);
    TurnWithUnfolds(Shrunk, len, cap, Rank, f);
  }

  lemma TurnWithUnfolds(
    shrink: (Fields, nat) -> Option<Fields>, len: Measure, cap: nat, rank: Fields -> (nat, nat), f: Fields)
    requires Descends(TurnWith(shrink, len, cap), rank)
    ensures
      var step := TurnWith(shrink, len, cap);
      && (len(f) <= cap || shrink(f, len(f) - cap).None? ==> Repeat(step, rank, f).0 == f)
      && (len(f) > cap && shrink(f, len(f) - cap).Some? ==>
            Repeat(step, rank, f).0 == Repeat(step, rank, shrink(f, len(f) - cap).value).0)
  {
    RepeatUnfolds(TurnWith(shrink, len, cap), rank, f);
  }

  /** The most rewrites some text allows. */
  function Budget(f: Fields): nat {
    (if CanShorten(f.rights) then 1 else 0) + (if CanShorten(f.title) then 1 else 0) + Entries(f)
  }

  lemma BareMarkerStays()
    ensures !CanShorten(Some(TRUNC_MARKER))
  {
  }

  /** Rewriting the rights makes the value fit, or leaves the bare marker. */
  lemma RightsRewrite(len: Measure, cap: nat, f: Fields)
    requires ChargesStrings(len) && len(f) > cap && CanShorten(f.rights)
    ensures
      var s := Shortened(f.rights.value, len(f) - cap);
      s == TRUNC_MARKER || len(f.(rights := Some(s))) <= cap
  {
    var s, t := f.rights.value, Shortened(f.rights.value, len(f) - cap);
    ShortenedFitsOrIsMarker(s, len(f) - cap);
    assert f.(rights := Some(s)) == f;
    assert RightsCharged(len, f, s, t);
  }

  /** Rewriting the title makes the value fit, or leaves the bare marker. */
  lemma TitleRewrite(len: Measure, cap: nat, f: Fields)
    requires ChargesStrings(len) && len(f) > cap && CanShorten(f.title)
    ensures
      var s := Shortened(f.title.value, len(f) - cap);
      s == TRUNC_MARKER || len(f.(title := Some(s))) <= cap
  {
    var s, t := f.title.value, Shortened(f.title.value, len(f) - cap);
    ShortenedFitsOrIsMarker(s, len(f) - cap);
    assert f.(title := Some(s)) == f;
    assert TitleCharged(len, f, s, t);
  }

  /** One rewrite makes the value fit, or uses up one unit of the budget for good. */
  lemma RewriteFitsOrSpends(len: Measure, cap: nat, f: Fields)
    requires ChargesStrings(len) && len(f) > cap
    ensures Shrunk(f, len(f) - cap).Some? ==>
      var g := Shrunk(f, len(f) - cap).value;
      Budget(f) > 0 && (len(g) <= cap || Budget(g) < Budget(f))
  {
    var excess := len(f) - cap;
    BareMarkerStays();
    if CanShorten(f.rights) {
      RightsRewrite(len, cap, f);
    } else if CanShorten(f.title) {
      TitleRewrite(len, cap, f);
    } else if CanTrim(f.creators) {
      TrimmedHasLessData(f.creators, excess);
    } else if CanTrim(f.collections) {
      TrimmedHasLessData(f.collections, excess);
    } else if CanTrim(f.languages) {
      TrimmedHasLessData(f.languages, excess);
    }
  }

  lemma TurnSpends(len: Measure, cap: nat, f: Fields)
    requires ChargesStrings(len)
    ensures Spends(Turn(len, cap), Budget, f)
  {
    if len(f) > cap {
      RewriteFitsOrSpends(len, cap, f);
    }
    TurnWithSpends(Shrunk, len, cap, Budget, f);
  }

  lemma TurnWithSpends(
    shrink: (Fields, nat) -> Option<Fields>, len: Measure, cap: nat, budget: Fields -> nat, f: Fields)
    requires len(f) > cap && shrink(f, len(f) - cap).Some? ==>
      var g := shrink(f, len(f) - cap).value;
      budget(f) > 0 && (len(g) <= cap || budget(g) < budget(f))
    ensures Spends(TurnWith(shrink, len, cap), budget, f)
  {
  }

  /** The loop runs at most once per string and once per list entry. */
  lemma RewritesWithinBudget(len: Measure, cap: nat, f: Fields)
    requires ChargesStrings(len)
    ensures Run(len, cap, f).1 <= Budget(f)
  {
    TurnsDescend(len, cap);
    forall x: Fields ensures Spends(Turn(len, cap), Budget, x) {
      TurnSpends(len, cap, x);
    }
    RepeatWithinBudget(Turn(len, cap), Rank, Budget, f);
  }

  // ---- No string is rewritten twice ----

  predicate RewritesRights(f: Fields) { CanShorten(f.rights) }

  predicate RewritesTitle(f: Fields) { !CanShorten(f.rights) && CanShorten(f.title) }

  predicate RightsDone(f: Fields) { !CanShorten(f.rights) }

  predicate TitleDone(f: Fields) { !CanShorten(f.title) }

  /** These are exactly the turns that change the rights, or the title. */
  lemma TurnsThatRewrite(len: Measure, cap: nat, f: Fields)
    requires Turn(len, cap)(f).Some?
    ensures
      var g := Turn(len, cap)(f).value;
      (g.rights != f.rights <==> RewritesRights(f)) && (g.title != f.title <==> RewritesTitle(f))
  {
    if CanShorten(f.rights) { ShortenedIsShorter(f.rights.value, len(f) - cap); }
    if CanShorten(f.title) { ShortenedIsShorter(f.title.value, len(f) - cap); }
  }

  lemma RightsAreUsedUp(len: Measure, cap: nat, f: Fields)
    requires ChargesStrings(len)
    ensures UsesUp(Turn(len, cap), RewritesRights, RightsDone, f)
  {
    BareMarkerStays();
    if len(f) > cap && CanShorten(f.rights) {
      var e := f.(rights := Some(Shortened(f.rights.value, len(f) - cap)));
      RightsRewrite(len, cap, f);
      assert Turn(len, cap)(f) == Some(e);
      assert len(e) <= cap || RightsDone(e);
    }
  }

  lemma TitleIsUsedUp(len: Measure, cap: nat, f: Fields)
    requires ChargesStrings(len)
    ensures UsesUp(Turn(len, cap), RewritesTitle, TitleDone, f)
  {
    BareMarkerStays();
    if len(f) > cap && RewritesTitle(f) { TitleRewrite(len, cap, f); }
  }

  /** Along the whole loop the rights are rewritten at most once, and so is the title. */
  lemma NoStringIsRewrittenTwice(len: Measure, cap: nat, f: Fields)
    requires ChargesStrings(len)
    ensures Descends(Turn(len, cap), Rank)
    ensures StepsFrom(Turn(len, cap), Rank, RewritesRights, f) <= 1
    ensures StepsFrom(Turn(len, cap), Rank, RewritesTitle, f) <= 1
  {
    TurnsDescend(len, cap);
    forall x: Fields ensures UsesUp(Turn(len, cap), RewritesRights, RightsDone, x) { RightsAreUsedUp(len, cap, x); }
    forall x: Fields ensures UsesUp(Turn(len, cap), RewritesTitle, TitleDone, x) { TitleIsUsedUp(len, cap, x); }
    AtMostOneStep(Turn(len, cap), Rank, RewritesRights, RightsDone, f);
    AtMostOneStep(Turn(len, cap), Rank, RewritesTitle, TitleDone, f);
  }

  lemma BudgetBound(f: Fields)
    ensures Budget(f) <= 2 + |f.creators| + |f.collections| + |f.languages|
  {
  }

  // ---- What every version of the text keeps ----

  /** `now` is the original text, or a prefix of it followed by the marker. */
  ghost predicate PrefixAndMarker(was: Option<string>, now: Option<string>) {
    now == was || (was.Some? && now.Some? && exists p: string :: p <= was.value && now.value == p + TRUNC_MARKER)
  }

  ghost predicate EntriesAndMarker(was: seq<string>, now: seq<string>) {
    now == was || exists k :: 0 <= k < |was| && now == was[..k] + [TRUNC_MARKER]
  }

  ghost predicate Shape(was: Fields, now: Fields) {
    && PrefixAndMarker(was.rights, now.rights) && PrefixAndMarker(was.title, now.title)
    && EntriesAndMarker(was.creators, now.creators) && EntriesAndMarker(was.collections, now.collections)
    && EntriesAndMarker(was.languages, now.languages)
  }

  /** Fields shrink in order: one is touched only once all before it are minimal. */
  predicate InOrder(was: Fields, now: Fields) {
    && (now.title != was.title ==> !CanShorten(now.rights))
    && (now.creators != was.creators ==> !CanShorten(now.rights) && !CanShorten(now.title))
    && (now.collections != was.collections ==>
          !CanShorten(now.rights) && !CanShorten(now.title) && !CanTrim(now.creators))
    && (now.languages != was.languages ==>
          !CanShorten(now.rights) && !CanShorten(now.title) && !CanTrim(now.creators) && !CanTrim(now.collections))
  }

  /** A string that can still shrink is untouched, and one that was touched is the bare marker. */
  predicate StringsAtRest(was: Fields, now: Fields) {
    && (now.rights == was.rights || now.rights == Some(TRUNC_MARKER))
    && (now.title == was.title || now.title == Some(TRUNC_MARKER))
  }

  lemma TrimmedShape(was: seq<string>, list: seq<string>, excess: nat)
    requires EntriesAndMarker(was, list) && CanTrim(list)
    ensures EntriesAndMarker(was, Trimmed(list, excess))
  {
    var k := Keep(Data(list), excess);
    assert Data(list) <= was by {
      if list != was {
        var j :| 0 <= j < |was| && list == was[..j] + [TRUNC_MARKER];
        assert list[..|list| - 1] == was[..j];
      }
    }
    assert Data(list)[..k] == was[..k];
  }

  lemma ShortenedShape(s: string, excess: nat)
    ensures PrefixAndMarker(Some(s), Some(Shortened(s, excess)))
  {
    InnerLen(s);
    assert Cut(Inner(s), PrefixTarget(s, excess)) <= s;
  }

  lemma StepKeepsShape(was: Fields, f: Fields, excess: nat)
    requires Shape(was, f) && InOrder(was, f) && StringsAtRest(was, f)
    ensures Shrunk(f, excess).Some? ==> Shape(was, Shrunk(f, excess).value) && InOrder(was, Shrunk(f, excess).value)
  {
    BareMarkerStays();
    if CanShorten(f.rights) {
      ShortenedShape(f.rights.value, excess);
    } else if CanShorten(f.title) {
      ShortenedShape(f.title.value, excess);
    } else if CanTrim(f.creators) {
      TrimmedShape(was.creators, f.creators, excess);
    } else if CanTrim(f.collections) {
      TrimmedShape(was.collections, f.collections, excess);
    } else if CanTrim(f.languages) {
      TrimmedShape(was.languages, f.languages, excess);
    }
  }

  lemma RestedRights(len: Measure, cap: nat, was: Fields, f: Fields)
    requires ChargesStrings(len) && StringsAtRest(was, f) && len(f) > cap && CanShorten(f.rights)
    ensures
      var g := f.(rights := Some(Shortened(f.rights.value, len(f) - cap)));
      len(g) <= cap || StringsAtRest(was, g)
  {
    RightsRewrite(len, cap, f);
  }

  lemma RestedTitle(len: Measure, cap: nat, was: Fields, f: Fields)
    requires ChargesStrings(len) && StringsAtRest(was, f) && len(f) > cap && CanShorten(f.title)
    ensures
      var g := f.(title := Some(Shortened(f.title.value, len(f) - cap)));
      len(g) <= cap || StringsAtRest(was, g)
  {
    TitleRewrite(len, cap, f);
  }

  lemma StepRestsStrings(len: Measure, cap: nat, was: Fields, f: Fields)
    requires ChargesStrings(len) && StringsAtRest(was, f) && len(f) > cap
    ensures Shrunk(f, len(f) - cap).Some? ==>
      var g := Shrunk(f, len(f) - cap).value;
      len(g) <= cap || StringsAtRest(was, g)
  {
    if CanShorten(f.rights) {
      RestedRights(len, cap, was, f);
    } else if CanShorten(f.title) {
      RestedTitle(len, cap, was, f);
    }
  }

  /** What the loop keeps: shape, order, and strings that are original or bare markers while the value does not fit. */
  ghost predicate Kept(len: Measure, cap: nat, was: Fields, f: Fields) {
    Shape(was, f) && InOrder(was, f) && (len(f) <= cap || StringsAtRest(was, f))
  }

  lemma TurnKeeps(len: Measure, cap: nat, was: Fields, f: Fields)
    requires ChargesStrings(len) && Kept(len, cap, was, f) && Turn(len, cap)(f).Some?
    ensures Kept(len, cap, was, Turn(len, cap)(f).value)
  {
    assert Turn(len, cap)(f) == Shrunk(f, len(f) - cap);
    ShrunkKeeps(len, cap, was, f, Shrunk(f, len(f) - cap).value);
  }

  lemma ShrunkKeeps(len: Measure, cap: nat, was: Fields, f: Fields, g: Fields)
    requires ChargesStrings(len) && Kept(len, cap, was, f) && len(f) > cap && Shrunk(f, len(f) - cap) == Some(g)
    ensures Kept(len, cap, was, g)
  {
    StepKeepsShape(was, f, len(f) - cap);
    StepRestsStrings(len, cap, was, f);
  }

  lemma NothingLeftIsMinimal(f: Fields, excess: nat)
    ensures Shrunk(f, excess).None? <==> IsMinimal(f)
  {
  }

  /**
   * The loop ends in shape and in order. If even then the value does not fit, no string was rewritten twice
   * and nothing is left to shrink.
   */
  lemma RunKeepsShape(len: Measure, cap: nat, f: Fields)
    requires ChargesStrings(len)
    ensures Kept(len, cap, f, Run(len, cap, f).0)
    ensures len(Run(len, cap, f).0) > cap ==> IsMinimal(Run(len, cap, f).0)
  {
    var keeps := (x: Fields) => Kept(len, cap, f, x);
    TurnsDescend(len, cap);
    forall x: Fields | keeps(x) && Turn(len, cap)(x).Some?
      ensures keeps(Turn(len, cap)(x).value)
    {
      TurnKeeps(len, cap, f, x);
    }
    RepeatKeeps(Turn(len, cap), Rank, keeps, f);
    var g := Run(len, cap, f).0;
    if len(g) > cap {
      NothingLeftIsMinimal(g, len(g) - cap);
    }
  }

  /** The text with every field as small as truncation can make it. */
  function FullyTruncated(f: Fields): Fields {
    Fields(if CanShorten(f.rights) then Some(TRUNC_MARKER) else f.rights,
           if CanShorten(f.title) then Some(TRUNC_MARKER) else f.title,
           if f.creators == [] then [] else [TRUNC_MARKER],
           if f.collections == [] then [] else [TRUNC_MARKER],
           if f.languages == [] then [] else [TRUNC_MARKER])
  }

  lemma UntrimmableList(was: seq<string>, now: seq<string>)
    requires EntriesAndMarker(was, now) && !CanTrim(now)
    ensures now == if was == [] then [] else [TRUNC_MARKER]
  {
    if now != [] {
      assert now == now[..|now| - 1] + [now[|now| - 1]];
    }
  }

  /** A string already no longer than the marker is never touched. */
  ghost predicate SmallStringsKept(was: Fields, now: Fields) {
    && (!CanShorten(was.rights) ==> now.rights == was.rights)
    && (!CanShorten(was.title) ==> now.title == was.title)
  }

  lemma TurnKeepsSmallStrings(was: Fields, f: Fields, excess: nat)
    requires SmallStringsKept(was, f)
    ensures Shrunk(f, excess).Some? ==> SmallStringsKept(was, Shrunk(f, excess).value)
  {
  }

  lemma RunKeepsSmallStrings(len: Measure, cap: nat, f: Fields)
    ensures SmallStringsKept(f, Run(len, cap, f).0)
  {
    var keeps := (x: Fields) => SmallStringsKept(f, x);
    TurnsDescend(len, cap);
    forall x: Fields | keeps(x) && Turn(len, cap)(x).Some?
      ensures keeps(Turn(len, cap)(x).value)
    {
      TurnKeepsSmallStrings(f, x, len(x) - cap);
    }
    RepeatKeeps(Turn(len, cap), Rank, keeps, f);
  }

  /** The loop fails only on the fully truncated text, and only when even that does not fit. */
  lemma FailureIsFullyTruncated(len: Measure, cap: nat, f: Fields)
    requires ChargesStrings(len)
    ensures len(Run(len, cap, f).0) > cap ==>
      Run(len, cap, f).0 == FullyTruncated(f) && len(FullyTruncated(f)) > cap
  {
    RunKeepsShape(len, cap, f);
    RunKeepsSmallStrings(len, cap, f);
    var g := Run(len, cap, f).0;
    BareMarkerStays();
    if len(g) > cap {
      UntrimmableList(f.creators, g.creators);
      UntrimmableList(f.collections, g.collections);
      UntrimmableList(f.languages, g.languages);
    }
  }
}
