/** The size-capped provenance value: what it holds, how long it prints, how it is built and read back. */
module Provenance {
  import opened Common
  import opened Text
  import opened Json
  import opened ImportJob
  import opened Truncation

  const PROVENANCE_KEY: string := "__entropia_internet_archive"
  const MAX_PROVENANCE_BYTES: nat := 65536
  const PROVENANCE_SCHEMA: nat := 1
  const PROVIDER: string := "internet_archive"

  datatype ProvenanceError = MissingSha256 | MissingPageCount | BadUrl | TooLarge

  datatype Doc = Doc(
    schema: nat, provider: string, identifier: string, fileName: string, itemUrl: string, downloadUrl: string,
    source: string, size: Option<nat>, mtime: Option<nat>, md5: Option<string>, sha1: Option<string>,
    sha256Local: string, pageCount: nat, retrievedAt: nat, title: Option<string>, creators: seq<string>,
    date: Option<string>, languages: seq<string>, collections: seq<string>, rights: Option<string>,
    licenseUrl: Option<string>)

  // ---- The value of a document, and its length ----

  function OptStr(key: string, v: Option<string>): seq<Member> {
    if v.Some? then [Member(key, Str(v.value))] else []
  }

  function OptNum(key: string, v: Option<nat>): seq<Member> {
    if v.Some? then [Member(key, Num(v.value))] else []
  }

  function StrList(key: string, v: seq<string>): seq<Member> {
    [Member(key, List(Map(v, (s: string) => Str(s))))]
  }

  function Opening(d: Doc): seq<Member> {
    [Member("schema", Num(d.schema)), Member("provider", Str(d.provider)),
     Member("identifier", Str(d.identifier)), Member("file_name", Str(d.fileName)),
     Member("item_url", Str(d.itemUrl)), Member("download_url", Str(d.downloadUrl)),
     Member("source", Str(d.source))]
  }

  function Verified(d: Doc): seq<Member> {
    [Member("sha256_local", Str(d.sha256Local)), Member("page_count", Num(d.pageCount)),
     Member("retrieved_at", Num(d.retrievedAt))]
  }

  /** The members that truncation never touches, up to the title. */
  function Head(d: Doc): seq<Member> {
    Opening(d) + OptNum("size", d.size) + OptNum("mtime", d.mtime) + OptStr("md5", d.md5) + OptStr("sha1", d.sha1)
    + Verified(d)
  }

  /** The members between the title and the rights. */
  function Middle(d: Doc): seq<Member> {
    StrList("creators", d.creators) + OptStr("date", d.date)
    + StrList("languages", d.languages) + StrList("collections", d.collections)
  }

  function Tail(d: Doc): seq<Member> {
    OptStr("title", d.title) + Middle(d) + OptStr("rights", d.rights) + OptStr("license_url", d.licenseUrl)
  }

  function ToJson(d: Doc): Json { Object(Head(d) + Tail(d)) }

  function SerializedLen(d: Doc): nat { JsonLen(ToJson(d)) }

  lemma ObjectLen(h: seq<Member>, t: seq<Member>)
    requires h != []
    ensures JsonLen(Object(h + t)) == 1 + MembersLen(h) + MembersLen(t)
  {
    MembersLenAppend(h, t);
  }

  lemma SumOfThree(a: seq<Member>, b: seq<Member>, c: seq<Member>)
    ensures MembersLen(a + b + c) == MembersLen(a) + MembersLen(b) + MembersLen(c)
  {
    MembersLenAppend(a, b);
    MembersLenAppend(a + b, c);
  }

  /** Everything in the printed length but the rights and the title. */
  function OtherBytes(d: Doc): nat {
    1 + MembersLen(Head(d)) + MembersLen(Middle(d)) + MembersLen(OptStr("license_url", d.licenseUrl))
  }

  lemma LenDecomposes(d: Doc)
    ensures SerializedLen(d)
            == OtherBytes(d) + MembersLen(OptStr("title", d.title)) + MembersLen(OptStr("rights", d.rights))
  {
    var front := OptStr("title", d.title) + Middle(d) + OptStr("rights", d.rights);
    ObjectLen(Head(d), Tail(d));
    MembersLenAppend(front, OptStr("license_url", d.licenseUrl));
    SumOfThree(OptStr("title", d.title), Middle(d), OptStr("rights", d.rights));
  }

  lemma OptStrLen(key: string, s: string)
    ensures MembersLen(OptStr(key, Some(s))) == StrLen(key) + 1 + StrLen(s) + 1
  {
    assert OptStr(key, Some(s))[..0] == [];
  }

  // ---- The free text of a document ----

  function TextOf(d: Doc): Fields { Fields(d.rights, d.title, d.creators, d.collections, d.languages) }

  function WithText(d: Doc, f: Fields): (e: Doc)
    ensures TextOf(e) == f
  {
    d.(rights := f.rights, title := f.title, creators := f.creators,
       collections := f.collections, languages := f.languages)
  }

  function LenOf(d: Doc): Measure { (f: Fields) => SerializedLen(WithText(d, f)) }

  lemma PrintingChargesStrings(d: Doc)
    ensures ChargesStrings(LenOf(d))
  {
    forall f: Fields, s: string, t: string
      ensures RightsCharged(LenOf(d), f, s, t) && TitleCharged(LenOf(d), f, s, t)
    {
      StringCharges(WithText(d, f), s, t);
    }
  }

  lemma StringCharges(d: Doc, s: string, t: string)
    ensures SerializedLen(d.(rights := Some(s))) + EscapedLen(t) == SerializedLen(d.(rights := Some(t))) + EscapedLen(s)
    ensures SerializedLen(d.(title := Some(s))) + EscapedLen(t) == SerializedLen(d.(title := Some(t))) + EscapedLen(s)
  {
    LenDecomposes(d.(rights := Some(s)));
    LenDecomposes(d.(rights := Some(t)));
    LenDecomposes(d.(title := Some(s)));
    LenDecomposes(d.(title := Some(t)));
    OptStrLen("rights", s);
    OptStrLen("rights", t);
    OptStrLen("title", s);
    OptStrLen("title", t);
  }

  /** The document the loop ends on, and the number of rewrites. */
  function Final(d: Doc): Doc { WithText(d, Run(LenOf(d), MAX_PROVENANCE_BYTES, TextOf(d)).0) }

  function Rewrites(d: Doc): nat { Run(LenOf(d), MAX_PROVENANCE_BYTES, TextOf(d)).1 }

  /** The loop is short: once per string and once per list entry at most. */
  lemma FewRewrites(d: Doc)
    ensures Rewrites(d) <= 2 + |d.creators| + |d.collections| + |d.languages|
  {
    PrintingChargesStrings(d);
    RewritesWithinBudget(LenOf(d), MAX_PROVENANCE_BYTES, TextOf(d));
    BudgetBound(TextOf(d));
  }

  /** What a built document has in common with the full one. */
  lemma FinalShape(d: Doc)
    ensures Shape(TextOf(d), TextOf(Final(d))) && InOrder(TextOf(d), TextOf(Final(d)))
  {
    PrintingChargesStrings(d);
    RunKeepsShape(LenOf(d), MAX_PROVENANCE_BYTES, TextOf(d));
  }

  /** `TooLarge` means that even the fully truncated document does not fit. */
  lemma TooLargeMeansHopeless(d: Doc)
    ensures SerializedLen(Final(d)) > MAX_PROVENANCE_BYTES ==>
      && Final(d) == WithText(d, FullyTruncated(TextOf(d)))
      && SerializedLen(WithText(d, FullyTruncated(TextOf(d)))) > MAX_PROVENANCE_BYTES
  {
    PrintingChargesStrings(d);
    FailureIsFullyTruncated(LenOf(d), MAX_PROVENANCE_BYTES, TextOf(d));
  }

  function SourceStr(s: FileSource): string {
    match s
    case Original => "original"
    case Derivative => "derivative"
    case Other(value) => value
    case Unknown => "unknown"
  }

  /** How the two URLs of an item are printed, if they can be built. */
  datatype Urls = Urls(item: string -> Option<string>, download: (string, string) -> Option<string>)

  predicate HasUrls(file: JobFile, urls: Urls) {
    urls.item(file.identifier).Some? && urls.download(file.identifier, file.fileName).Some?
  }

  function EmptySnapshot(identifier: string): ItemSnapshot {
    ItemSnapshot(identifier, None, [], None, [], [], None, None)
  }

  function FullDoc(file: JobFile, item: Option<ItemSnapshot>, retrievedAt: nat, urls: Urls): Doc
    requires file.sha256.Some? && file.pageCount.Some? && HasUrls(file, urls)
  {
    var s := if item.Some? then item.value else EmptySnapshot(file.identifier);
    Doc(PROVENANCE_SCHEMA, PROVIDER, file.identifier, file.fileName, urls.item(file.identifier).value,
        urls.download(file.identifier, file.fileName).value, SourceStr(file.source), file.expectedSize, file.mtime,
        file.md5, file.sha1, file.sha256.value, file.pageCount.value, retrievedAt, s.title, s.creators,
        s.date, s.languages, s.collections, s.rights, s.licenseUrl)
  }

  predicate HasSha256(file: JobFile) { file.sha256.Some? && Trim(file.sha256.value) != [] }

  method BuildProvenance(file: JobFile, item: Option<ItemSnapshot>, retrievedAt: nat, urls: Urls)
    returns (r: Result<Json, ProvenanceError>)
    ensures r == Err(MissingSha256) <==> !HasSha256(file)
    ensures r == Err(MissingPageCount) <==> HasSha256(file) && file.pageCount.None?
    ensures r == Err(BadUrl) <==> HasSha256(file) && file.pageCount.Some? && !HasUrls(file, urls)
    ensures HasSha256(file) && file.pageCount.Some? && HasUrls(file, urls) ==>
      var full := FullDoc(file, item, retrievedAt, urls);
      && r == (if SerializedLen(Final(full)) <= MAX_PROVENANCE_BYTES then Ok(ToJson(Final(full))) else Err(TooLarge))
    ensures r.Ok? ==> ByteLen(Print(r.value)) <= 65536
    ensures r == Err(TooLarge) ==>
      var full := FullDoc(file, item, retrievedAt, urls);
      ByteLen(Print(ToJson(WithText(full, FullyTruncated(TextOf(full)))))) > 65536
  {
    if file.sha256.None? || Trim(file.sha256.value) == [] {
      return Err(MissingSha256);
    }
    if file.pageCount.None? {
      return Err(MissingPageCount);
    }
    if !HasUrls(file, urls) {
      return Err(BadUrl);
    }
    var doc := FullDoc(file, item, retrievedAt, urls);
    LengthIsOfTheText(ToJson(doc));
    if JsonLen(ToJson(doc)) <= MAX_PROVENANCE_BYTES {
      return Ok(ToJson(doc));
    }
    LengthIsOfTheText(ToJson(Final(doc)));
    TooLargeMeansHopeless(doc);
    r := Fit(doc);
  }

  /** The loop: measure, then shrink the first field that can, until the value fits or none can. */
  method Fit(full: Doc) returns (r: Result<Json, ProvenanceError>)
    ensures r == (if SerializedLen(Final(full)) <= MAX_PROVENANCE_BYTES then Ok(ToJson(Final(full))) else Err(TooLarge))
  {
    var text := TextOf(full);
    ghost var len := LenOf(full);
    while true
      invariant Run(len, MAX_PROVENANCE_BYTES, text).0 == Run(len, MAX_PROVENANCE_BYTES, TextOf(full)).0
      decreases Rank(text).0, Rank(text).1
    {
      var doc := WithText(full, text);
      var size := JsonLen(ToJson(doc));
      assert size == len(text);
      RunUnfolds(len, MAX_PROVENANCE_BYTES, text);
      ShrunkIsSmaller(text, Monus(size, MAX_PROVENANCE_BYTES));
      if size <= MAX_PROVENANCE_BYTES {
        return Ok(ToJson(doc));
      }
      var next, changed := ShrinkOnce(text, size - MAX_PROVENANCE_BYTES);
      if !changed {
        return Err(TooLarge);
      }
      text := next;
    }
  }

  /** One turn: try the fields in order and stop at the first that changes. */
  method ShrinkOnce(text: Fields, excess: nat) returns (next: Fields, changed: bool)
    ensures changed <==> Shrunk(text, excess).Some?
    ensures changed ==> next == Shrunk(text, excess).value
  {
    next := text;
    var s;
    s, changed := TruncateOptString(text.rights, excess);
    if changed {
      next := next.(rights := s);
      return;
    }
    s, changed := TruncateOptString(text.title, excess);
    if changed {
      next := next.(title := s);
      return;
    }
    var list;
    list, changed := TruncateList(text.creators, excess);
    if changed {
      next := next.(creators := list);
      return;
    }
    list, changed := TruncateList(text.collections, excess);
    if changed {
      next := next.(collections := list);
      return;
    }
    list, changed := TruncateList(text.languages, excess);
    if changed {
      next := next.(languages := list);
    }
  }

  // ---- Reading it back ----

  datatype Parts = Parts(
    identifier: string, fileName: string, md5: Option<string>, sha1: Option<string>,
    size: Option<nat>, mtime: Option<nat>, sha256Local: Option<string>, pageCount: Option<nat>)

  function OptU64(v: Option<Json>): Option<nat> {
    match v
    case Some(Num(n)) => Some(n)
    case Some(Str(s)) => ParseU64(Trim(s))
    case _ => None
  }

  function OptU32(v: Option<Json>): Option<nat> {
    match OptU64(v)
    case Some(n) => if n < 0x1_0000_0000 then Some(n) else None
    case None => None
  }

  function OptString(v: Option<Json>): Option<string> {
    match v
    case Some(Str(s)) => Some(s)
    case _ => None
  }

  function ParseProvenance(root: Json): Option<Parts> {
    match root
    case Object(outer) => (
      match Lookup(outer, PROVENANCE_KEY)
      case Some(Object(obj)) => (
        match (Lookup(obj, "identifier"), Lookup(obj, "file_name"))
        case (Some(Str(identifier)), Some(Str(fileName))) =>
          Some(Parts(identifier, fileName, OptString(Lookup(obj, "md5")), OptString(Lookup(obj, "sha1")),
                     OptU64(Lookup(obj, "size")), OptU64(Lookup(obj, "mtime")),
                     OptString(Lookup(obj, "sha256_local")), OptU32(Lookup(obj, "page_count"))))
        case _ => None)
      case _ => None)
    case _ => None
  }

  lemma LookupOptStr(key: string, v: Option<string>, wanted: string)
    ensures Lookup(OptStr(key, v), wanted) == if key == wanted && v.Some? then Some(Str(v.value)) else None
  {
  }

  lemma LookupOptNum(key: string, v: Option<nat>, wanted: string)
    ensures Lookup(OptNum(key, v), wanted) == if key == wanted && v.Some? then Some(Num(v.value)) else None
  {
  }

  /** No two keys of equal length are the same where a lookup could confuse them. */
  lemma KeysDiffer()
    ensures "size" != "sha1" && "size" != "date" && "sha1" != "date" && "mtime" != "title"
    ensures "identifier" != "page_count" && "file_name" != "languages"
    ensures "sha256_local" != "download_url" && "sha256_local" != "retrieved_at"
  {
    assert "size"[1] != "sha1"[1] && "size"[0] != "date"[0] && "sha1"[0] != "date"[0] && "mtime"[0] != "title"[0];
    assert "identifier"[0] != "page_count"[0] && "file_name"[0] != "languages"[0];
    assert "sha256_local"[0] != "download_url"[0] && "sha256_local"[0] != "retrieved_at"[0];
  }

  lemma LookupInHead(d: Doc, key: string)
    ensures Lookup(Head(d), key) ==
      if Lookup(Opening(d), key).Some? then Lookup(Opening(d), key)
      else if key == "size" && d.size.Some? then Some(Num(d.size.value))
      else if key == "mtime" && d.mtime.Some? then Some(Num(d.mtime.value))
      else if key == "md5" && d.md5.Some? then Some(Str(d.md5.value))
      else if key == "sha1" && d.sha1.Some? then Some(Str(d.sha1.value))
      else Lookup(Verified(d), key)
  {
    var p1 := Opening(d) + OptNum("size", d.size);
    var p2 := p1 + OptNum("mtime", d.mtime);
    var p3 := p2 + OptStr("md5", d.md5);
    var p4 := p3 + OptStr("sha1", d.sha1);
    LookupAppend(p4, Verified(d), key);
    LookupAppend(p3, OptStr("sha1", d.sha1), key);
    LookupAppend(p2, OptStr("md5", d.md5), key);
    LookupAppend(p1, OptNum("mtime", d.mtime), key);
    LookupAppend(Opening(d), OptNum("size", d.size), key);
    LookupOptNum("size", d.size, key);
    LookupOptNum("mtime", d.mtime, key);
    LookupOptStr("md5", d.md5, key);
    LookupOptStr("sha1", d.sha1, key);
  }

  lemma TailHoldsNoIdentity(d: Doc, key: string)
    requires key in ["size", "mtime", "md5", "sha1"]
    ensures Lookup(Tail(d), key) == None && Lookup(Opening(d), key) == None && Lookup(Verified(d), key) == None
  {
    KeysDiffer();
    LookupAbsent(Opening(d), key);
    LookupAbsent(Verified(d), key);
    TailLacks(d, key);
  }

  lemma TailLacks(d: Doc, key: string)
    requires key in ["size", "mtime", "md5", "sha1"]
    ensures Lookup(Tail(d), key) == None
  {
    KeysDiffer();
    var title, rights := OptStr("title", d.title), OptStr("rights", d.rights);
    var license := OptStr("license_url", d.licenseUrl);
    LookupAppend(title + Middle(d) + rights, license, key);
    LookupAppend(title + Middle(d), rights, key);
    LookupAppend(title, Middle(d), key);
    LookupOptStr("title", d.title, key);
    LookupOptStr("rights", d.rights, key);
    LookupOptStr("license_url", d.licenseUrl, key);
    MiddleLacks(d, key);
  }

  lemma MiddleLacks(d: Doc, key: string)
    requires key in ["size", "mtime", "md5", "sha1"]
    ensures Lookup(Middle(d), key) == None
  {
    KeysDiffer();
    LookupAbsent(Middle(d), key);
  }

  lemma FixedKeys(d: Doc)
    ensures Lookup(Opening(d), "identifier") == Some(Str(d.identifier))
    ensures Lookup(Opening(d), "file_name") == Some(Str(d.fileName))
    ensures Lookup(Opening(d), "sha256_local") == Lookup(Opening(d), "page_count") == None
    ensures Lookup(Verified(d), "sha256_local") == Some(Str(d.sha256Local))
    ensures Lookup(Verified(d), "page_count") == Some(Num(d.pageCount))
  {
    KeysDiffer();
    LookupAt(Opening(d), 2, "identifier");
    LookupAt(Opening(d), 3, "file_name");
    LookupAbsent(Opening(d), "sha256_local");
    LookupAbsent(Opening(d), "page_count");
    LookupAt(Verified(d), 0, "sha256_local");
    LookupAt(Verified(d), 1, "page_count");
  }

  lemma LookupInDoc(d: Doc, key: string)
    ensures Lookup(Head(d) + Tail(d), key)
            == if Lookup(Head(d), key).Some? then Lookup(Head(d), key) else Lookup(Tail(d), key)
  {
    LookupAppend(Head(d), Tail(d), key);
  }

  /**
   * Reading a document back, whatever its free text, returns the identity it was built from; a page count that does
   * not fit in 32 bits is not read.
   */
  lemma IdentityRoundTrip(d: Doc)
    ensures ParseProvenance(Object([Member(PROVENANCE_KEY, ToJson(d))]))
            == Some(Parts(d.identifier, d.fileName, d.md5, d.sha1, d.size, d.mtime, Some(d.sha256Local),
                          if d.pageCount <= 0xFFFF_FFFF then Some(d.pageCount) else None))
  {
    LookupAt([Member(PROVENANCE_KEY, ToJson(d))], 0, PROVENANCE_KEY);
    FixedFieldsAreFound(d);
    OptionalFieldsAreFound(d);
  }

  lemma FixedFieldsAreFound(d: Doc)
    ensures
      var obj := Head(d) + Tail(d);
      && Lookup(obj, "identifier") == Some(Str(d.identifier)) && Lookup(obj, "file_name") == Some(Str(d.fileName))
      && Lookup(obj, "sha256_local") == Some(Str(d.sha256Local)) && Lookup(obj, "page_count") == Some(Num(d.pageCount))
  {
    FixedKeys(d);
    KeysDiffer();
    LookupInDoc(d, "identifier"); LookupInHead(d, "identifier");
    LookupInDoc(d, "file_name"); LookupInHead(d, "file_name");
    LookupInDoc(d, "sha256_local"); LookupInHead(d, "sha256_local");
    LookupInDoc(d, "page_count"); LookupInHead(d, "page_count");
  }

  lemma OptionalFieldsAreFound(d: Doc)
    ensures
      var obj := Head(d) + Tail(d);
      && OptString(Lookup(obj, "md5")) == d.md5 && OptString(Lookup(obj, "sha1")) == d.sha1
      && OptU64(Lookup(obj, "size")) == d.size && OptU64(Lookup(obj, "mtime")) == d.mtime
  {
    KeysDiffer();
    LookupInDoc(d, "md5"); LookupInHead(d, "md5"); TailHoldsNoIdentity(d, "md5");
    LookupInDoc(d, "sha1"); LookupInHead(d, "sha1"); TailHoldsNoIdentity(d, "sha1");
    LookupInDoc(d, "size"); LookupInHead(d, "size"); TailHoldsNoIdentity(d, "size");
    LookupInDoc(d, "mtime"); LookupInHead(d, "mtime"); TailHoldsNoIdentity(d, "mtime");
  }

  // ---- Every field in its place ----

  lemma FixedKeysDiffer()
    ensures "schema" != "source" && "schema" != "rights" && "source" != "rights"
    ensures "provider" != "item_url" && "provider" != "creators" && "item_url" != "creators"
    ensures "download_url" != "sha256_local" && "download_url" != "retrieved_at" && "collections" != "license_url"
  {
    assert "schema"[1] != "source"[1] && "schema"[0] != "rights"[0] && "source"[0] != "rights"[0];
    assert "provider"[0] != "item_url"[0] && "provider"[0] != "creators"[0] && "item_url"[0] != "creators"[0];
    assert "download_url"[0] != "sha256_local"[0] && "download_url"[0] != "retrieved_at"[0];
    assert "collections"[0] != "license_url"[0];
  }

  /** The value is the list of these strings. */
  ghost predicate HoldsAll(v: Option<Json>, strings: seq<string>) {
    && v.Some? && v.value.List? && |v.value.items| == |strings|
    && forall i :: 0 <= i < |strings| ==> v.value.items[i] == Str(strings[i])
  }

  /** The value is this string, or there is none. */
  predicate Holds(v: Option<Json>, s: Option<string>) { if s.Some? then v == Some(Str(s.value)) else v == None }

  lemma LookupInMiddle(d: Doc, key: string)
    ensures
      var v := Lookup(Middle(d), key);
      && (key == "creators" ==> HoldsAll(v, d.creators)) && (key == "date" ==> Holds(v, d.date))
      && (key == "languages" ==> HoldsAll(v, d.languages)) && (key == "collections" ==> HoldsAll(v, d.collections))
      && (key !in ["creators", "date", "languages", "collections"] ==> v == None)
  {
    var creators, date := StrList("creators", d.creators), OptStr("date", d.date);
    var languages, collections := StrList("languages", d.languages), StrList("collections", d.collections);
    LookupAppend(creators + date + languages, collections, key);
    LookupAppend(creators + date, languages, key);
    LookupAppend(creators, date, key);
    LookupOptStr("date", d.date, key);
  }

  lemma LookupInTail(d: Doc, key: string)
    ensures
      var v := Lookup(Tail(d), key);
      && (key == "title" ==> Holds(v, d.title)) && (key == "rights" ==> Holds(v, d.rights))
      && (key == "license_url" ==> Holds(v, d.licenseUrl))
      && (key in ["creators", "date", "languages", "collections"] ==> v == Lookup(Middle(d), key))
  {
    FixedKeysDiffer();
    var title, rights := OptStr("title", d.title), OptStr("rights", d.rights);
    LookupAppend(title + Middle(d) + rights, OptStr("license_url", d.licenseUrl), key);
    LookupAppend(title + Middle(d), rights, key);
    LookupAppend(title, Middle(d), key);
    LookupOptStr("title", d.title, key);
    LookupOptStr("rights", d.rights, key);
    LookupOptStr("license_url", d.licenseUrl, key);
    LookupInMiddle(d, key);
  }

  lemma OpeningLacks(d: Doc, key: string)
    requires key in ["title", "rights", "license_url", "creators", "date", "languages", "collections"]
    ensures Lookup(Opening(d), key) == None
  {
    KeysDiffer();
    FixedKeysDiffer();
    LookupAbsent(Opening(d), key);
  }

  lemma VerifiedLacks(d: Doc, key: string)
    requires key in ["title", "rights", "license_url", "creators", "date", "languages", "collections"]
    ensures Lookup(Verified(d), key) == None
  {
    LookupAbsent(Verified(d), key);
  }

  lemma HeadLacks(d: Doc, key: string)
    requires key in ["title", "rights", "license_url", "creators", "date", "languages", "collections"]
    ensures Lookup(Head(d), key) == None
  {
    OpeningLacks(d, key);
    VerifiedLacks(d, key);
    LookupInHead(d, key);
  }

  /** Where the free text and the two fields beside it are found. */
  lemma TextIsFound(d: Doc)
    ensures
      var obj := Head(d) + Tail(d);
      && Holds(Lookup(obj, "title"), d.title) && Holds(Lookup(obj, "rights"), d.rights)
      && HoldsAll(Lookup(obj, "creators"), d.creators) && HoldsAll(Lookup(obj, "languages"), d.languages)
      && HoldsAll(Lookup(obj, "collections"), d.collections)
      && Holds(Lookup(obj, "date"), d.date) && Holds(Lookup(obj, "license_url"), d.licenseUrl)
  {
    TextKeyIsFound(d, "title");
    TextKeyIsFound(d, "rights");
    TextKeyIsFound(d, "license_url");
    TextKeyIsFound(d, "creators");
    TextKeyIsFound(d, "date");
    TextKeyIsFound(d, "languages");
    TextKeyIsFound(d, "collections");
  }

  lemma TextKeyIsFound(d: Doc, key: string)
    requires key in ["title", "rights", "license_url", "creators", "date", "languages", "collections"]
    ensures
      var v := Lookup(Head(d) + Tail(d), key);
      && (key == "title" ==> Holds(v, d.title)) && (key == "rights" ==> Holds(v, d.rights))
      && (key == "license_url" ==> Holds(v, d.licenseUrl)) && (key == "date" ==> Holds(v, d.date))
      && (key == "creators" ==> HoldsAll(v, d.creators)) && (key == "languages" ==> HoldsAll(v, d.languages))
      && (key == "collections" ==> HoldsAll(v, d.collections))
  {
    HeadLacks(d, key);
    LookupInDoc(d, key);
    LookupInTail(d, key);
    LookupInMiddle(d, key);
  }

  /** Where the other fields that no reader looks for are found. */
  lemma RecordIsFound(d: Doc)
    ensures
      var obj := Head(d) + Tail(d);
      && Lookup(obj, "schema") == Some(Num(d.schema)) && Lookup(obj, "provider") == Some(Str(d.provider))
      && Lookup(obj, "item_url") == Some(Str(d.itemUrl)) && Lookup(obj, "download_url") == Some(Str(d.downloadUrl))
      && Lookup(obj, "source") == Some(Str(d.source)) && Lookup(obj, "retrieved_at") == Some(Num(d.retrievedAt))
  {
    FixedKeysDiffer();
    OpeningIsFound(d, 0, "schema");
    OpeningIsFound(d, 1, "provider");
    OpeningIsFound(d, 4, "item_url");
    OpeningIsFound(d, 5, "download_url");
    OpeningIsFound(d, 6, "source");
    RetrievedAtIsFound(d);
  }

  lemma OpeningIsFound(d: Doc, i: nat, key: string)
    requires i < |Opening(d)| && Opening(d)[i].key == key && forall j :: 0 <= j < i ==> Opening(d)[j].key != key
    ensures Lookup(Head(d) + Tail(d), key) == Some(Opening(d)[i].value)
  {
    LookupAt(Opening(d), i, key);
    LookupInHead(d, key);
    LookupInDoc(d, key);
  }

  lemma RetrievedAtIsFound(d: Doc)
    ensures Lookup(Head(d) + Tail(d), "retrieved_at") == Some(Num(d.retrievedAt))
  {
    KeysDiffer();
    FixedKeysDiffer();
    LookupAbsent(Opening(d), "retrieved_at");
    LookupAt(Verified(d), 2, "retrieved_at");
    LookupInHead(d, "retrieved_at");
    LookupInDoc(d, "retrieved_at");
  }

  /**
   * The value of a document that fits holds the snapshot of the item, or nothing where there is none. However much
   * of the free text is cut, the rest of it and the two addresses are held.
   */
  lemma BuiltValueHoldsTheRecord(
    file: JobFile, item: Option<ItemSnapshot>, s: ItemSnapshot, retrievedAt: nat, urls: Urls)
    requires file.sha256.Some? && file.pageCount.Some? && HasUrls(file, urls)
    requires if item.Some? then s == item.value
             else s.title == s.date == s.rights == s.licenseUrl == None
                  && s.creators == s.languages == s.collections == []
    ensures
      var full := FullDoc(file, item, retrievedAt, urls);
      var obj := Head(Final(full)) + Tail(Final(full));
      && ToJson(Final(full)) == Object(obj)
      && Lookup(obj, "schema") == Some(Num(1)) && Lookup(obj, "provider") == Some(Str("internet_archive"))
      && Holds(Lookup(obj, "item_url"), urls.item(file.identifier))
      && Holds(Lookup(obj, "download_url"), urls.download(file.identifier, file.fileName))
      && Lookup(obj, "source") == Some(Str(match file.source
                                           case Original => "original"
                                           case Derivative => "derivative"
                                           case Other(value) => value
                                           case Unknown => "unknown"))
      && Lookup(obj, "retrieved_at") == Some(Num(retrievedAt))
      && Holds(Lookup(obj, "date"), s.date) && Holds(Lookup(obj, "license_url"), s.licenseUrl)
      && (ByteLen(Print(ToJson(full))) <= 65536 ==>
            && Holds(Lookup(obj, "title"), s.title) && Holds(Lookup(obj, "rights"), s.rights)
            && HoldsAll(Lookup(obj, "creators"), s.creators) && HoldsAll(Lookup(obj, "languages"), s.languages)
            && HoldsAll(Lookup(obj, "collections"), s.collections))
  {
    var full := FullDoc(file, item, retrievedAt, urls);
    RecordIsFound(Final(full));
    TextIsFound(Final(full));
    RunUnfolds(LenOf(full), MAX_PROVENANCE_BYTES, TextOf(full));
    LengthIsOfTheText(ToJson(full));
  }

  /** However much was cut, the built value still identifies the verified file. */
  lemma BuiltValueIdentifiesTheFile(file: JobFile, item: Option<ItemSnapshot>, retrievedAt: nat, urls: Urls)
    requires file.sha256.Some? && file.pageCount.Some? && file.pageCount.value < 0x1_0000_0000
    requires HasUrls(file, urls)
    ensures
      var built := ToJson(Final(FullDoc(file, item, retrievedAt, urls)));
      ParseProvenance(Object([Member("__entropia_internet_archive", built)]))
        == Some(Parts(file.identifier, file.fileName, file.md5, file.sha1, file.expectedSize, file.mtime,
                      file.sha256, file.pageCount))
  {
    IdentityRoundTrip(Final(FullDoc(file, item, retrievedAt, urls)));
  }
}
