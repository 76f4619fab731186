/** The Lucene query printer of `search.rs`, and a reader that undoes it. */
module Search {
  import opened Common
  import opened Text

  datatype SearchQuery = SearchQuery(
    text: Option<string>, title: Option<string>, creator: Option<string>, language: Option<string>,
    collection: Option<string>, yearFrom: Option<nat>, yearTo: Option<nat>, textsOnly: bool)

  datatype QueryError = BadCollection | YearOutOfRange | YearsReversed | NoClause

  datatype FieldName = Title | Creator | Language | Collection

  /** What one clause of a query means. */
  datatype Clause =
    | Term(literal: string)
    | Field(name: FieldName, literal: string)
    | DateRange(from: Option<nat>, to: Option<nat>)
    | TextsOnly

  // ---- Printing ----

  /** Every `c` replaced by `with`. */
  function Replace(s: string, c: char, with: string): string {
    if s == [] then [] else (if s[0] == c then with else [s[0]]) + Replace(s[1..], c, with)
  }

  /** Two passes, as the source does: backslashes first, then quotes. */
  function Quote(literal: string): string {
    "\"" + Replace(Replace(literal, '\\', "\\\\"), '\"', "\\\"") + "\""
  }

  /** One-pass escaping. */
  function Escape(s: string): string {
    if s == [] then []
    else (if s[0] == '\\' || s[0] == '\"' then ['\\', s[0]] else [s[0]]) + Escape(s[1..])
  }

  lemma {:induction false} ReplaceAppend(s: string, t: string, c: char, with: string)
    ensures Replace(s + t, c, with) == Replace(s, c, with) + Replace(t, c, with)
  {
    if s == [] {
      assert s + t == t;
    } else {
      assert (s + t)[1..] == s[1..] + t;
      ReplaceAppend(s[1..], t, c, with);
    }
  }

  /** The two passes are one escaping: the second never touches what the first wrote. */
  lemma {:induction false} TwoPassesAreOne(s: string)
    ensures Replace(Replace(s, '\\', "\\\\"), '\"', "\\\"") == Escape(s)
  {
    if s != [] {
      var front := if s[0] == '\\' then "\\\\" else [s[0]];
      ReplaceAppend(front, Replace(s[1..], '\\', "\\\\"), '\"', "\\\"");
      TwoPassesAreOne(s[1..]);
      if s[0] == '\\' {
        assert Replace("\\\\"[1..], '\"', "\\\"") == ['\\'];
      }
    }
  }

  function Year4(y: nat): (s: string)
    requires y <= 9999
    ensures |s| == 4
  {
    [Digit(y / 1000), Digit(y / 100 % 10), Digit(y / 10 % 10), Digit(y % 10)]
  }

  function NameText(n: FieldName): string {
    match n
    case Title => "title"
    case Creator => "creator"
    case Language => "language"
    case Collection => "collection"
  }

  predicate IsYear(y: Option<nat>) { y.Some? ==> y.value <= 9999 }

  predicate IsPrintable(c: Clause) {
    c.DateRange? ==> IsYear(c.from) && IsYear(c.to)
  }

  function FromText(y: Option<nat>): string
    requires IsYear(y)
  {
    if y.Some? then Year4(y.value) + "-01-01" else "*"
  }

  function ToText(y: Option<nat>): string
    requires IsYear(y)
  {
    if y.Some? then Year4(y.value) + "-12-31" else "*"
  }

  function Render(c: Clause): string
    requires IsPrintable(c)
  {
    match c
    case Term(l) => Quote(l)
    case Field(n, l) => NameText(n) + ":(" + Quote(l) + ")"
    case DateRange(f, t) => "date:[" + FromText(f) + " TO " + ToText(t) + "]"
    case TextsOnly => "mediatype:texts"
  }

  const AND: string := " AND "

  ghost predicate AllPrintable(cs: seq<Clause>) { forall i :: 0 <= i < |cs| ==> IsPrintable(cs[i]) }

  function RenderAll(cs: seq<Clause>): string
    requires AllPrintable(cs)
  {
    if cs == [] then []
    else if |cs| == 1 then Render(cs[0])
    else Render(cs[0]) + AND + RenderAll(cs[1..])
  }

  // ---- The query ----

  /** Maximal runs without white space. */
  function Words(s: string): seq<string>
    decreases |s|, 1
  {
    if s == [] then []
    else if IsWhitespace(s[0]) then Words(s[1..])
    else
      var n := WordEnd(s);
      [s[..n]] + Words(s[n..])
  }

  function WordEnd(s: string): (n: nat)
    ensures n <= |s| && (s != [] && !IsWhitespace(s[0]) ==> n > 0)
    ensures forall i :: 0 <= i < n ==> !IsWhitespace(s[i])
  {
    if s == [] || IsWhitespace(s[0]) then 0 else 1 + WordEnd(s[1..])
  }

  function Trimmed(v: Option<string>): Option<string> {
    if v.Some? && Trim(v.value) != [] then Some(Trim(v.value)) else None
  }

  function TermOf(w: string): Clause { Term(w) }

  function FieldClause(n: FieldName, v: Option<string>): seq<Clause> {
    if v.Some? then [Field(n, v.value)] else []
  }

  predicate IsIdentifierChar(c: char) {
    'a' <= c <= 'z' || 'A' <= c <= 'Z' || '0' <= c <= '9' || c == '.' || c == '_' || c == '-'
  }

  predicate IsValidIdentifier(v: string) {
    v != [] && |v| <= 100 && forall i :: 0 <= i < |v| ==> IsIdentifierChar(v[i])
  }

  function DateClause(from: Option<nat>, to: Option<nat>): Result<seq<Clause>, QueryError> {
    if !IsYear(from) || !IsYear(to) then Err(YearOutOfRange)
    else if from.Some? && to.Some? && from.value > to.value then Err(YearsReversed)
    else if from.None? && to.None? then Ok([])
    else Ok([DateRange(from, to)])
  }

  function FreeClauses(q: SearchQuery): seq<Clause> {
    (if q.text.Some? then Map(Words(q.text.value), TermOf) else [])
    + FieldClause(Title, Trimmed(q.title)) + FieldClause(Creator, Trimmed(q.creator))
    + FieldClause(Language, Trimmed(q.language))
  }

  /** The clauses a user asked for, without the media type. */
  function UserClauses(q: SearchQuery): Result<seq<Clause>, QueryError> {
    if q.collection.Some? && !IsValidIdentifier(q.collection.value) then Err(BadCollection)
    else match DateClause(q.yearFrom, q.yearTo)
      case Err(e) => Err(e)
      case Ok(date) =>
        var clauses := FreeClauses(q) + FieldClause(Collection, q.collection) + date;
        if clauses == [] then Err(NoClause) else Ok(clauses)
  }

  function Clauses(q: SearchQuery): Result<seq<Clause>, QueryError> {
    match UserClauses(q)
    case Err(e) => Err(e)
    case Ok(cs) => Ok(cs + if q.textsOnly then [TextsOnly] else [])
  }

  lemma ClausesArePrintable(q: SearchQuery)
    ensures Clauses(q).Ok? ==> Clauses(q).value != [] && AllPrintable(Clauses(q).value)
  {
    FreeClausesArePrintable(q);
  }

  lemma FreeClausesArePrintable(q: SearchQuery)
    ensures AllPrintable(FreeClauses(q))
  {
    forall words: seq<string> ensures AllPrintable(Map(words, TermOf)) {}
    forall n, v ensures AllPrintable(FieldClause(n, v)) {}
  }

  // ---- What the clauses say of the query ----

  /** The words of a text, by how it starts: white space is skipped, a word ends at white space or at the end. */
  lemma WordsAreRuns(w: string, c: char, s: string)
    requires w != [] && (forall x :: x in w ==> !IsWhitespace(x)) && IsWhitespace(c)
    ensures Words([]) == [] && Words([c] + s) == Words(s)
    ensures Words(w) == [w] && Words(w + [c] + s) == [w] + Words(s)
  {
    assert ([c] + s)[1..] == s;
    WordEndIs(w, []);
    WordEndIs(w, [c] + s);
    assert w + [] == w && w[|w|..] == [];
    assert w + [c] + s == w + ([c] + s) && (w + ([c] + s))[..|w|] == w && (w + ([c] + s))[|w|..] == [c] + s;
    assert (w + ([c] + s))[0] == w[0];
  }

  lemma {:induction false} WordEndIs(w: string, rest: string)
    requires (forall x :: x in w ==> !IsWhitespace(x)) && (rest == [] || IsWhitespace(rest[0]))
    ensures WordEnd(w + rest) == |w|
  {
    if w == [] {
      assert w + rest == rest;
    } else {
      assert w[0] in w && (w + rest)[0] == w[0] && (w + rest)[1..] == w[1..] + rest;
      WordEndIs(w[1..], rest);
    }
  }

  /** Where a clause goes among the others. */
  function Place(c: Clause): nat {
    match c
    case Term(_) => 0
    case Field(Title, _) => 1
    case Field(Creator, _) => 2
    case Field(Language, _) => 3
    case Field(Collection, _) => 4
    case DateRange(_, _) => 5
    case TextsOnly => 6
  }

  /** In order of place, each place but the first taken once at most, and none from `k` on. */
  ghost predicate InPlace(cs: seq<Clause>, k: nat) {
    && (forall i, j :: 0 <= i < j < |cs| ==> Place(cs[i]) < Place(cs[j]) || (cs[i].Term? && cs[j].Term?))
    && forall i :: 0 <= i < |cs| ==> Place(cs[i]) < k
  }

  /** `terms` at the front of `cs`, and no other term. */
  ghost predicate StartsWithTerms(cs: seq<Clause>, words: seq<string>) {
    && |words| <= |cs| && (forall i :: 0 <= i < |words| ==> cs[i] == Term(words[i]))
    && forall i :: |words| <= i < |cs| ==> !cs[i].Term?
  }

  lemma PlaceNext(cs: seq<Clause>, next: seq<Clause>, words: seq<string>, k: nat)
    requires InPlace(cs, k) && StartsWithTerms(cs, words)
    requires |next| <= 1 && (next != [] ==> Place(next[0]) == k > 0)
    ensures InPlace(cs + next, k + 1) && StartsWithTerms(cs + next, words)
  {
  }

  function WordsOf(q: SearchQuery): seq<string> { if q.text.Some? then Words(q.text.value) else [] }

  /** The clauses, part by part. */
  function Parts(words: seq<string>, title: Option<string>, creator: Option<string>, language: Option<string>,
                 collection: Option<string>, date: seq<Clause>, texts: seq<Clause>): seq<Clause> {
    Map(words, TermOf) + FieldClause(Title, title) + FieldClause(Creator, creator)
    + FieldClause(Language, language) + FieldClause(Collection, collection) + date + texts
  }

  function PartsOf(q: SearchQuery): seq<Clause>
    requires Clauses(q).Ok?
  {
    Parts(WordsOf(q), Trimmed(q.title), Trimmed(q.creator), Trimmed(q.language), q.collection,
          DateClause(q.yearFrom, q.yearTo).value, if q.textsOnly then [TextsOnly] else [])
  }

  lemma ClausesAreParts(q: SearchQuery)
    requires Clauses(q).Ok?
    ensures Clauses(q).value == PartsOf(q)
  {
  }

  /** The words of the text come first, one by one, then at most one clause of each kind, in this order. */
  lemma ClausesAreInOrder(q: SearchQuery)
    requires Clauses(q).Ok?
    ensures StartsWithTerms(Clauses(q).value, WordsOf(q)) && InPlace(Clauses(q).value, 7)
  {
    ClausesAreParts(q);
    PartsAreInOrder(WordsOf(q), Trimmed(q.title), Trimmed(q.creator), Trimmed(q.language), q.collection,
                    DateClause(q.yearFrom, q.yearTo).value, if q.textsOnly then [TextsOnly] else []);
  }

  lemma PartsAreInOrder(words: seq<string>, title: Option<string>, creator: Option<string>, language: Option<string>,
                        collection: Option<string>, date: seq<Clause>, texts: seq<Clause>)
    requires |date| <= 1 && (date != [] ==> date[0].DateRange?) && |texts| <= 1 && (texts != [] ==> texts[0].TextsOnly?)
    ensures
      var cs := Parts(words, title, creator, language, collection, date, texts);
      StartsWithTerms(cs, words) && InPlace(cs, 7)
  {
    var cs := FreePartsAreInOrder(words, title, creator, language);
    LastPartsAreInOrder(cs, words, collection, date, texts);
  }

  lemma FreePartsAreInOrder(words: seq<string>, title: Option<string>, creator: Option<string>,
                            language: Option<string>) returns (cs: seq<Clause>)
    ensures cs == Map(words, TermOf) + FieldClause(Title, title) + FieldClause(Creator, creator)
                  + FieldClause(Language, language)
    ensures StartsWithTerms(cs, words) && InPlace(cs, 4)
  {
    cs := AddField(Map(words, TermOf), words, Title, title);
    cs := AddField(cs, words, Creator, creator);
    cs := AddField(cs, words, Language, language);
  }

  lemma LastPartsAreInOrder(cs: seq<Clause>, words: seq<string>, collection: Option<string>, date: seq<Clause>,
                            texts: seq<Clause>)
    requires StartsWithTerms(cs, words) && InPlace(cs, 4)
    requires |date| <= 1 && (date != [] ==> date[0].DateRange?) && |texts| <= 1 && (texts != [] ==> texts[0].TextsOnly?)
    ensures
      var all := cs + FieldClause(Collection, collection) + date + texts;
      StartsWithTerms(all, words) && InPlace(all, 7)
  {
    var more := AddField(cs, words, Collection, collection);
    PlaceNext(more, date, words, 5);
    PlaceNext(more + date, texts, words, 6);
  }

  lemma AddField(cs: seq<Clause>, words: seq<string>, n: FieldName, v: Option<string>) returns (r: seq<Clause>)
    requires InPlace(cs, Place(Field(n, ""))) && StartsWithTerms(cs, words)
    ensures r == cs + FieldClause(n, v) && InPlace(r, Place(Field(n, "")) + 1) && StartsWithTerms(r, words)
  {
    r := cs + FieldClause(n, v);
    PlaceNext(cs, FieldClause(n, v), words, Place(Field(n, "")));
  }

  lemma InParts(words: seq<string>, title: Option<string>, creator: Option<string>, language: Option<string>,
                collection: Option<string>, date: seq<Clause>, texts: seq<Clause>, c: Clause)
    ensures c in Parts(words, title, creator, language, collection, date, texts) <==>
              || (c.Term? && c.literal in words)
              || c in FieldClause(Title, title) || c in FieldClause(Creator, creator)
              || c in FieldClause(Language, language) || c in FieldClause(Collection, collection)
              || c in date || c in texts
  {
    var terms := Map(words, TermOf);
    assert c in terms <==> c.Term? && c.literal in words by {
      if c.Term? && c.literal in words {
        var i :| 0 <= i < |words| && words[i] == c.literal;
        assert terms[i] == c;
      }
    }
  }

  lemma InClauses(q: SearchQuery, c: Clause)
    requires Clauses(q).Ok?
    ensures c in Clauses(q).value <==>
              match c
              case Term(l) => l in WordsOf(q)
              case Field(Title, l) => Trimmed(q.title) == Some(l)
              case Field(Creator, l) => Trimmed(q.creator) == Some(l)
              case Field(Language, l) => Trimmed(q.language) == Some(l)
              case Field(Collection, l) => q.collection == Some(l)
              case DateRange(f, t) => DateClause(q.yearFrom, q.yearTo).value == [c]
              case TextsOnly => q.textsOnly
  {
    ClausesAreParts(q);
    InParts(WordsOf(q), Trimmed(q.title), Trimmed(q.creator), Trimmed(q.language), q.collection,
            DateClause(q.yearFrom, q.yearTo).value, if q.textsOnly then [TextsOnly] else [], c);
  }

  lemma TrimmedMeans(v: Option<string>, l: string)
    ensures Trimmed(v) == Some(l) <==> v.Some? && IsTrimOf(l, v.value) && l != []
  {
    if v.Some? {
      TrimMeans(v.value);
      if IsTrimOf(l, v.value) && l != [] { TrimIsUnique(v.value, l, Trim(v.value)); }
    }
  }

  /** Each field, the years and the media type turn up exactly as the clause that asks for them. */
  lemma FieldsSayTheQuery(q: SearchQuery, l: string, f: Option<nat>, t: Option<nat>)
    requires Clauses(q).Ok?
    ensures
      var cs := Clauses(q).value;
      && (Field(Title, l) in cs <==> q.title.Some? && IsTrimOf(l, q.title.value) && l != [])
      && (Field(Creator, l) in cs <==> q.creator.Some? && IsTrimOf(l, q.creator.value) && l != [])
      && (Field(Language, l) in cs <==> q.language.Some? && IsTrimOf(l, q.language.value) && l != [])
      && (Field(Collection, l) in cs <==> q.collection == Some(l))
      && (DateRange(f, t) in cs <==> f == q.yearFrom && t == q.yearTo && !(f.None? && t.None?))
      && (TextsOnly in cs <==> q.textsOnly)
  {
    InClauses(q, Field(Title, l));
    InClauses(q, Field(Creator, l));
    InClauses(q, Field(Language, l));
    InClauses(q, Field(Collection, l));
    InClauses(q, DateRange(f, t));
    InClauses(q, TextsOnly);
    TrimmedMeans(q.title, l);
    TrimmedMeans(q.creator, l);
    TrimmedMeans(q.language, l);
  }

  /** An ASCII letter or digit, a hyphen, a full stop or an underscore, by code point. */
  predicate IsNameChar(c: char) {
    var n := c as int;
    0x30 <= n <= 0x39 || 0x41 <= n <= 0x5A || 0x61 <= n <= 0x7A || n in {0x2D, 0x2E, 0x5F}
  }

  predicate HasBadCollection(q: SearchQuery) {
    q.collection.Some?
    && !(1 <= |q.collection.value| <= 100 && forall c :: c in q.collection.value ==> IsNameChar(c))
  }

  predicate HasFarYear(q: SearchQuery) {
    (q.yearFrom.Some? && q.yearFrom.value >= 10000) || (q.yearTo.Some? && q.yearTo.value >= 10000)
  }

  predicate HasReversedYears(q: SearchQuery) {
    q.yearFrom.Some? && q.yearTo.Some? && q.yearTo.value < q.yearFrom.value
  }

  predicate IsBlank(field: Option<string>) { field.None? || forall c :: c in field.value ==> IsWhitespace(c) }

  /** Nothing but, perhaps, the media type. */
  predicate AsksForNothing(q: SearchQuery) {
    && IsBlank(q.text) && IsBlank(q.title) && IsBlank(q.creator) && IsBlank(q.language)
    && q.collection.None? && q.yearFrom.None? && q.yearTo.None?
  }

  lemma {:induction false} BlankHasNoWords(s: string)
    ensures Words(s) == [] <==> forall c :: c in s ==> IsWhitespace(c)
  {
    if s != [] {
      BlankHasNoWords(s[1..]);
      assert s == [s[0]] + s[1..] && s[0] in s;
    }
  }

  lemma BlankIsTrimmedAway(field: Option<string>)
    ensures Trimmed(field).None? <==> IsBlank(field)
  {
    if field.Some? { TrimMeans(field.value); }
  }

  /** A query is refused for its collection first, then for its years, then for asking for nothing. */
  lemma RefusedQueries(q: SearchQuery)
    ensures Clauses(q).Err? <==> HasBadCollection(q) || HasFarYear(q) || HasReversedYears(q) || AsksForNothing(q)
    ensures Clauses(q).Err? ==>
              Clauses(q).error ==
                if HasBadCollection(q) then BadCollection else if HasFarYear(q) then YearOutOfRange
                else if HasReversedYears(q) then YearsReversed else NoClause
  {
    BlankIsTrimmedAway(q.title);
    BlankIsTrimmedAway(q.creator);
    BlankIsTrimmedAway(q.language);
    if q.text.Some? { BlankHasNoWords(q.text.value); }
    if q.collection.Some? {
      var v := q.collection.value;
      forall c ensures IsIdentifierChar(c) <==> IsNameChar(c) {}
      assert forall i :: 0 <= i < |v| ==> v[i] in v;
    }
  }

  /** Texts joined by a separator. */
  function JoinWith(parts: seq<string>, sep: string): string {
    if parts == [] then []
    else if |parts| == 1 then parts[0]
    else parts[0] + sep + JoinWith(parts[1..], sep)
  }

  /** The printer, pushing one rendered clause after another. */
  method ToLucene(q: SearchQuery) returns (r: Result<string, QueryError>)
    ensures r.Ok? <==> Clauses(q).Ok?
    ensures r.Err? ==> r.error == Clauses(q).error
    ensures r.Ok? ==> AllPrintable(Clauses(q).value) && r.value == RenderAll(Clauses(q).value)
  {
    var texts: seq<string> := [];
    ghost var clauses: seq<Clause> := [];
    if q.text.Some? {
      var words := Words(q.text.value);
      for i := 0 to |words|
        invariant Renders(texts, clauses) && clauses == Map(words[..i], TermOf)
      {
        PushClause(texts, clauses, Term(words[i]));
        assert Map(words[..i + 1], TermOf) == Map(words[..i], TermOf) + [Term(words[i])];
        texts, clauses := texts + [Quote(words[i])], clauses + [Term(words[i])];
      }
      assert words[..|words|] == words;
    }
    texts, clauses := PushField(texts, clauses, Title, Trimmed(q.title));
    texts, clauses := PushField(texts, clauses, Creator, Trimmed(q.creator));
    texts, clauses := PushField(texts, clauses, Language, Trimmed(q.language));
    if q.collection.Some? && !IsValidIdentifier(q.collection.value) {
      return Err(BadCollection);
    }
    texts, clauses := PushField(texts, clauses, Collection, q.collection);
    var date := DateClause(q.yearFrom, q.yearTo);
    if date.Err? {
      return Err(date.error);
    }
    if date.value != [] {
      PushClause(texts, clauses, date.value[0]);
      texts, clauses := texts + [Render(date.value[0])], clauses + date.value;
    } else {
      assert clauses + [] == clauses;
    }
    if texts == [] {
      return Err(NoClause);
    }
    if q.textsOnly {
      PushClause(texts, clauses, TextsOnly);
      texts, clauses := texts + ["mediatype:texts"], clauses + [TextsOnly];
    } else {
      assert clauses + [] == clauses;
    }
    JoinIsRenderAll(texts, clauses);
    return Ok(JoinWith(texts, AND));
  }

  method PushField(texts: seq<string>, ghost clauses: seq<Clause>, n: FieldName, v: Option<string>)
    returns (texts': seq<string>, ghost clauses': seq<Clause>)
    requires Renders(texts, clauses)
    ensures Renders(texts', clauses') && clauses' == clauses + FieldClause(n, v)
  {
    texts', clauses' := texts, clauses;
    if v.Some? {
      PushClause(texts, clauses, Field(n, v.value));
      texts', clauses' := texts + [NameText(n) + ":(" + Quote(v.value) + ")"], clauses + [Field(n, v.value)];
    } else {
      assert clauses + [] == clauses;
    }
  }

  ghost predicate Renders(texts: seq<string>, cs: seq<Clause>) {
    && |texts| == |cs| && AllPrintable(cs)
    && forall i :: 0 <= i < |cs| ==> texts[i] == Render(cs[i])
  }

  lemma PushClause(texts: seq<string>, cs: seq<Clause>, c: Clause)
    requires Renders(texts, cs) && IsPrintable(c)
    ensures Renders(texts + [Render(c)], cs + [c])
  {
  }

  lemma {:induction false} JoinIsRenderAll(texts: seq<string>, cs: seq<Clause>)
    requires Renders(texts, cs)
    ensures JoinWith(texts, AND) == RenderAll(cs)
    decreases |cs|
  {
    if |cs| > 1 {
      JoinIsRenderAll(texts[1..], cs[1..]);
    }
  }

  // ---- Reading a query back ----

  /** The literal that starts just after an opening quote, and the text after the closing one. */
  function ReadQuoted(s: string): Option<(string, string)> {
    if s == [] then None
    else if s[0] == '\"' then Some(([], s[1..]))
    else if s[0] == '\\' then
      if |s| < 2 then None
      else match ReadQuoted(s[2..])
        case None => None
        case Some((l, rest)) => Some(([s[1]] + l, rest))
    else match ReadQuoted(s[1..])
      case None => None
      case Some((l, rest)) => Some(([s[0]] + l, rest))
  }

  lemma {:induction false} QuotedRoundTrip(l: string, rest: string)
    ensures ReadQuoted(Escape(l) + "\"" + rest) == Some((l, rest))
    decreases |l|
  {
    var s := Escape(l) + "\"" + rest;
    if l == [] {
      assert s == "\"" + rest && s[1..] == rest;
    } else {
      var inner := Escape(l[1..]) + "\"" + rest;
      QuotedRoundTrip(l[1..], rest);
      assert [l[0]] + l[1..] == l;
      EscapeSplits(l, rest);
    }
  }

  lemma EscapeSplits(l: string, rest: string)
    requires l != []
    ensures
      var s, inner := Escape(l) + "\"" + rest, Escape(l[1..]) + "\"" + rest;
      if l[0] == '\\' || l[0] == '\"' then |s| > 1 && s[0] == '\\' && s[1] == l[0] && s[2..] == inner
      else |s| > 0 && s[0] == l[0] && s[1..] == inner
  {
    var head := if l[0] == '\\' || l[0] == '\"' then ['\\', l[0]] else [l[0]];
    Front(head, Escape(l[1..]), "\"", rest);
  }

  lemma Front(head: string, a: string, b: string, c: string)
    ensures head + a + b + c == head + (a + b + c) && (head + (a + b + c))[|head|..] == a + b + c
    ensures forall i :: 0 <= i < |head| ==> (head + (a + b + c))[i] == head[i]
  {
  }

  function DropPrefix(s: string, p: string): Option<string> {
    if StartsWith(s, p) then Some(s[|p|..]) else None
  }

  lemma DropPrefixOf(p: string, rest: string)
    ensures DropPrefix(p + rest, p) == Some(rest)
  {
  }

  function ReadYear(s: string): Option<nat> {
    if |s| >= 4 && IsDigit(s[0]) && IsDigit(s[1]) && IsDigit(s[2]) && IsDigit(s[3])
    then Some(1000 * DigitOf(s[0]) + 100 * DigitOf(s[1]) + 10 * DigitOf(s[2]) + DigitOf(s[3]))
    else None
  }

  lemma YearRoundTrip(y: nat, rest: string)
    requires y <= 9999
    ensures ReadYear(Year4(y) + rest) == Some(y)
  {
    ReadDigits(Digit(y / 1000), Digit(y / 100 % 10), Digit(y / 10 % 10), Digit(y % 10), rest);
    FourDigits(y);
  }

  lemma ReadDigits(a: char, b: char, c: char, d: char, rest: string)
    requires IsDigit(a) && IsDigit(b) && IsDigit(c) && IsDigit(d)
    ensures ReadYear([a, b, c, d] + rest)
            == Some(1000 * DigitOf(a) + 100 * DigitOf(b) + 10 * DigitOf(c) + DigitOf(d))
  {
  }

  lemma FourDigits(y: nat)
    ensures y == 1000 * (y / 1000) + 100 * (y / 100 % 10) + 10 * (y / 10 % 10) + y % 10
  {
    LastDigit(y);
    LastDigit(y / 10);
    LastDigit(y / 100);
    TensOfTens(y);
  }

  lemma LastDigit(n: nat)
    ensures n == 10 * (n / 10) + n % 10
  {
  }

  lemma TensOfTens(n: nat)
    ensures n / 10 / 10 == n / 100 && n / 100 / 10 == n / 1000
  {
  }

  /** A bound of a range: `*`, or a year followed by the fixed month and day. */
  function ReadBound(s: string, day: string): Option<(Option<nat>, string)> {
    match DropPrefix(s, "*")
    case Some(rest) => Some((None, rest))
    case None =>
      match ReadYear(s)
      case None => None
      case Some(y) =>
        match DropPrefix(s[4..], day)
        case None => None
        case Some(rest) => Some((Some(y), rest))
  }

  function BoundText(y: Option<nat>, day: string): string
    requires IsYear(y)
  {
    if y.Some? then Year4(y.value) + day else "*"
  }

  lemma BoundRoundTrip(y: Option<nat>, day: string, rest: string)
    requires IsYear(y)
    ensures ReadBound(BoundText(y, day) + rest, day) == Some((y, rest))
  {
    var s := BoundText(y, day) + rest;
    if y.None? {
      DropPrefixOf("*", rest);
    } else {
      assert s == Year4(y.value) + (day + rest);
      YearRoundTrip(y.value, day + rest);
      assert s[..1] == [s[0]] && s[0] == Year4(y.value)[0] && s[0] != '*';
      assert s[4..] == day + rest;
      DropPrefixOf(day, rest);
    }
  }

  function ReadDate(s: string): Option<(Clause, string)> {
    match ReadBound(s, "-01-01")
    case None => None
    case Some((from, s1)) =>
      match DropPrefix(s1, " TO ")
      case None => None
      case Some(s2) =>
        match ReadBound(s2, "-12-31")
        case None => None
        case Some((to, s3)) =>
          match DropPrefix(s3, "]")
          case None => None
          case Some(rest) => Some((DateRange(from, to), rest))
  }

  function ReadField(n: FieldName, s: string): Option<(Clause, string)> {
    match ReadQuoted(s)
    case None => None
    case Some((l, s1)) =>
      match DropPrefix(s1, ")")
      case None => None
      case Some(rest) => Some((Field(n, l), rest))
  }

  /** How a clause starts, by which the reader tells clauses apart. */
  function Opening(c: Clause): string {
    match c
    case Term(_) => "\""
    case Field(n, _) => NameText(n) + ":(\""
    case DateRange(_, _) => "date:["
    case TextsOnly => "mediatype:texts"
  }

  /** One clause at the front of `s`, and the text after it. */
  function ReadClause(s: string): Option<(Clause, string)> {
    if StartsWith(s, "\"") then
      match ReadQuoted(s[1..])
      case None => None
      case Some((l, rest)) => Some((Term(l), rest))
    else if StartsWith(s, "title:(\"") then ReadField(Title, s[8..])
    else if StartsWith(s, "creator:(\"") then ReadField(Creator, s[10..])
    else if StartsWith(s, "language:(\"") then ReadField(Language, s[11..])
    else if StartsWith(s, "collection:(\"") then ReadField(Collection, s[13..])
    else if StartsWith(s, "date:[") then ReadDate(s[6..])
    else if StartsWith(s, "mediatype:texts") then Some((TextsOnly, s[15..]))
    else None
  }

  function ReadAll(s: string): Option<seq<Clause>>
    decreases |s|
  {
    match ReadClause(s)
    case None => None
    case Some((c, rest)) =>
      if rest == [] then Some([c])
      else match DropPrefix(rest, " AND ")
        case None => None
        case Some(more) =>
          if |more| >= |s| then None
          else match ReadAll(more)
            case None => None
            case Some(cs) => Some([c] + cs)
  }

  lemma QuoteSplits(l: string, rest: string)
    ensures Quote(l) + rest == "\"" + (Escape(l) + "\"" + rest)
  {
    TwoPassesAreOne(l);
  }

  lemma FieldIsRead(n: FieldName, l: string, rest: string)
    ensures ReadField(n, Escape(l) + "\"" + (")" + rest)) == Some((Field(n, l), rest))
  {
    QuotedRoundTrip(l, ")" + rest);
    DropPrefixOf(")", rest);
  }

  lemma FieldSplits(n: FieldName, l: string, rest: string)
    ensures Render(Field(n, l)) + rest == Opening(Field(n, l)) + (Escape(l) + "\"" + (")" + rest))
  {
    QuoteSplits(l, ")" + rest);
    Regroup(NameText(n) + ":(", Quote(l), ")", rest);
    Regroup(NameText(n) + ":(", "\"", Escape(l) + "\"", ")" + rest);
  }

  lemma Regroup(a: string, b: string, c: string, d: string)
    ensures a + b + c + d == a + (b + (c + d)) == (a + b) + (c + d)
  {
  }

  lemma OpensWith(p: string, body: string)
    ensures StartsWith(p + body, p) && (p + body)[|p|..] == body
    ensures p != [] ==> (p + body)[0] == p[0]
    ensures |p| > 1 ==> (p + body)[1] == p[1]
  {
  }

  lemma FieldClauseRoundTrip(n: FieldName, l: string, rest: string)
    ensures ReadClause(Render(Field(n, l)) + rest) == Some((Field(n, l), rest))
  {
    FieldSplits(n, l, rest);
    FieldIsRead(n, l, rest);
    FieldOpens(n, Escape(l) + "\"" + (")" + rest));
  }

  lemma FieldOpens(n: FieldName, body: string)
    ensures ReadClause(NameText(n) + ":(\"" + body) == ReadField(n, body)
  {
    match n
    case Title => TitleOpens(body);
    case Creator => CreatorOpens(body);
    case Language => LanguageOpens(body);
    case Collection => CollectionOpens(body);
  }

  lemma TitleOpens(body: string)
    ensures ReadClause(NameText(Title) + ":(\"" + body) == ReadField(Title, body)
  {
    assert NameText(Title) + ":(\"" == "title:(\"";
    OpensWith("title:(\"", body);
  }

  lemma CreatorOpens(body: string)
    ensures ReadClause(NameText(Creator) + ":(\"" + body) == ReadField(Creator, body)
  {
    assert NameText(Creator) + ":(\"" == "creator:(\"";
    OpensWith("creator:(\"", body);
  }

  lemma LanguageOpens(body: string)
    ensures ReadClause(NameText(Language) + ":(\"" + body) == ReadField(Language, body)
  {
    assert NameText(Language) + ":(\"" == "language:(\"";
    OpensWith("language:(\"", body);
  }

  lemma CollectionOpens(body: string)
    ensures ReadClause(NameText(Collection) + ":(\"" + body) == ReadField(Collection, body)
  {
    assert NameText(Collection) + ":(\"" == "collection:(\"";
    OpensWith("collection:(\"", body);
  }

  lemma DateIsRead(from: Option<nat>, to: Option<nat>, rest: string)
    requires IsYear(from) && IsYear(to)
    ensures ReadDate(FromText(from) + (" TO " + (ToText(to) + ("]" + rest)))) == Some((DateRange(from, to), rest))
  {
    BoundRoundTrip(from, "-01-01", " TO " + (ToText(to) + ("]" + rest)));
    DropPrefixOf(" TO ", ToText(to) + ("]" + rest));
    BoundRoundTrip(to, "-12-31", "]" + rest);
    DropPrefixOf("]", rest);
  }

  lemma DateOpens(body: string)
    ensures ReadClause("date:[" + body) == ReadDate(body)
  {
    OpensWith("date:[", body);
  }

  lemma DateSplits(f: string, t: string, rest: string)
    ensures "date:[" + f + " TO " + t + "]" + rest == "date:[" + (f + (" TO " + (t + ("]" + rest))))
  {
  }

  lemma DateClauseRoundTrip(from: Option<nat>, to: Option<nat>, rest: string)
    requires IsYear(from) && IsYear(to)
    ensures ReadClause(Render(DateRange(from, to)) + rest) == Some((DateRange(from, to), rest))
  {
    DateIsRead(from, to, rest);
    DateSplits(FromText(from), ToText(to), rest);
    DateOpens(FromText(from) + (" TO " + (ToText(to) + ("]" + rest))));
  }

  /** Each printed clause is read back, whatever follows it. */
  lemma ClauseRoundTrip(c: Clause, rest: string)
    requires IsPrintable(c)
    ensures ReadClause(Render(c) + rest) == Some((c, rest))
  {
    match c
    case Term(l) =>
      QuoteSplits(l, rest);
      OpensWith("\"", Escape(l) + "\"" + rest);
      QuotedRoundTrip(l, rest);
    case Field(n, l) => FieldClauseRoundTrip(n, l, rest);
    case DateRange(f, t) => DateClauseRoundTrip(f, t, rest);
    case TextsOnly => OpensWith("mediatype:texts", rest);
  }

  /** The whole query is read back as exactly its clauses, in order. */
  lemma {:induction false} QueryRoundTrip(cs: seq<Clause>)
    requires cs != [] && AllPrintable(cs)
    ensures ReadAll(RenderAll(cs)) == Some(cs)
    decreases |cs|
  {
    if |cs| == 1 {
      ClauseRoundTrip(cs[0], []);
      assert Render(cs[0]) + [] == Render(cs[0]);
      assert cs == [cs[0]];
    } else {
      var more := RenderAll(cs[1..]);
      ClauseRoundTrip(cs[0], AND + more);
      assert RenderAll(cs) == Render(cs[0]) + (AND + more);
      DropPrefixOf(AND, more);
      QueryRoundTrip(cs[1..]);
      assert [cs[0]] + cs[1..] == cs;
    }
  }

  /** So a printed query determines its clauses: no literal can change the structure around it. */
  lemma PrintedQueryMeansItsClauses(q: SearchQuery)
    requires Clauses(q).Ok?
    ensures AllPrintable(Clauses(q).value) && ReadAll(RenderAll(Clauses(q).value)) == Some(Clauses(q).value)
  {
    ClausesArePrintable(q);
    QueryRoundTrip(Clauses(q).value);
  }
}
