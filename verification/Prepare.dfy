/** Duplicate classification and the preparation summary of `prepare.rs`. */
module Prepare {
  import opened Common
  import opened Text
  import opened Sorting
  import opened ImportJob

  datatype Availability = Available | Restricted(reason: string)

  datatype PdfFile = PdfFile(
    name: string, format: Option<string>, source: FileSource, size: Option<nat>, mtime: Option<nat>,
    md5: Option<string>, sha1: Option<string>, availability: Availability)

  datatype Record = Record(
    itemId: string, collectionId: string, identifier: string, fileName: string, md5: Option<string>,
    sha1: Option<string>, size: Option<nat>, mtime: Option<nat>, sha256Local: Option<string>, pageCount: Option<nat>)

  datatype DuplicateStatus =
    | New
    | AlreadyInTarget(itemId: string)
    | NewVersion(previousItemId: string)
    | InOtherCollection(itemId: string, collectionId: string)

  /** Every record of one remote file, in any order. */
  type Lookup = (string, string) -> seq<Record>

  // ---- Versions ----

  predicate IsHexDigit(c: char) { '0' <= c <= '9' || 'a' <= c <= 'f' || 'A' <= c <= 'F' }

  function Lower(c: char): char { if 'A' <= c <= 'Z' then (c as int + 32) as char else c }

  function NormalizeHex(raw: Option<string>): Option<string> {
    if raw.None? then None
    else
      var t := Trim(raw.value);
      if t != [] && forall i :: 0 <= i < |t| ==> IsHexDigit(t[i]) then Some(Map(t, Lower)) else None
  }

  /** By the strongest kind both sides hold; `None` when they hold none in common. */
  function SameVersion(c: PdfFile, r: Record): Option<bool> {
    var (md5, md5') := (NormalizeHex(c.md5), NormalizeHex(r.md5));
    var (sha1, sha1') := (NormalizeHex(c.sha1), NormalizeHex(r.sha1));
    if md5.Some? && md5'.Some? then Some(md5 == md5')
    else if sha1.Some? && sha1'.Some? then Some(sha1 == sha1')
    else if c.size.Some? && c.mtime.Some? && r.size.Some? && r.mtime.Some?
    then Some(c.size == r.size && c.mtime == r.mtime)
    else None
  }

  /** Same version, or nothing to tell them apart by. */
  predicate Matches(c: PdfFile, r: Record) { SameVersion(c, r) != Some(false) }

  // ---- The order-free rule ----

  predicate InTarget(target: ImportTarget, r: Record) {
    target.ExistingCollection? && r.collectionId == target.collectionId
  }

  predicate MatchesInTarget(c: PdfFile, target: ImportTarget, r: Record) { InTarget(target, r) && Matches(c, r) }

  predicate MatchesElsewhere(c: PdfFile, target: ImportTarget, r: Record) { !InTarget(target, r) && Matches(c, r) }

  predicate ByItem(a: Record, b: Record) {
    if a.itemId == b.itemId then StringLe(a.collectionId, b.collectionId) else StringLe(a.itemId, b.itemId)
  }

  /** `r` is one of `records` with property `p`, and none with that property comes before it. */
  ghost predicate IsLeast(records: seq<Record>, p: Record -> bool, r: Record) {
    r in records && p(r) && forall x :: x in records && p(x) ==> ByItem(r, x)
  }

  ghost predicate NoneHas(records: seq<Record>, p: Record -> bool) {
    forall x :: x in records ==> !p(x)
  }

  /**
   * The least matching record in the target; else the least record in the target; else the least matching
   * record elsewhere; else the file is new.
   */
  ghost predicate IsStatus(c: PdfFile, target: ImportTarget, records: seq<Record>, s: DuplicateStatus) {
    var here, mine, there :=
      (r: Record) => MatchesInTarget(c, target, r), (r: Record) => InTarget(target, r),
      (r: Record) => MatchesElsewhere(c, target, r);
    match s
    case AlreadyInTarget(id) => exists r :: IsLeast(records, here, r) && r.itemId == id
    case NewVersion(id) => NoneHas(records, here) && exists r :: IsLeast(records, mine, r) && r.itemId == id
    case InOtherCollection(id, col) =>
      NoneHas(records, mine) && exists r :: IsLeast(records, there, r) && r.itemId == id && r.collectionId == col
    case New => NoneHas(records, mine) && NoneHas(records, there)
  }

  lemma ItemOrder()
    ensures Total(ByItem)
  {
    StringOrder();
    forall x, y, z | ByItem(x, y) && ByItem(y, z) ensures ByItem(x, z) {
      StringLeTransitive(x.itemId, y.itemId, z.itemId);
      StringLeTotal(x.itemId, y.itemId);
      StringLeTotal(y.itemId, z.itemId);
    }
  }

  lemma LeastIsUnique(records: seq<Record>, p: Record -> bool, q: Record, r: Record)
    requires IsLeast(records, p, q) && IsLeast(records, p, r)
    ensures q.itemId == r.itemId && q.collectionId == r.collectionId
  {
    StringLeTotal(q.itemId, r.itemId);
    StringLeTotal(q.collectionId, r.collectionId);
  }

  /** The rule gives one answer, and it depends only on which records there are, ties and order aside. */
  lemma StatusIsDetermined(c: PdfFile, target: ImportTarget, a: seq<Record>, b: seq<Record>,
                           s: DuplicateStatus, t: DuplicateStatus)
    requires forall r :: r in a <==> r in b
    requires IsStatus(c, target, a, s) && IsStatus(c, target, b, t)
    ensures s == t
  {
    var here, mine, there :=
      (r: Record) => MatchesInTarget(c, target, r), (r: Record) => InTarget(target, r),
      (r: Record) => MatchesElsewhere(c, target, r);
    if s.AlreadyInTarget? && t.AlreadyInTarget? {
      var q :| IsLeast(a, here, q) && q.itemId == s.itemId;
      var r :| IsLeast(b, here, r) && r.itemId == t.itemId;
      LeastIsUnique(a, here, q, r);
    } else if s.NewVersion? && t.NewVersion? {
      var q :| IsLeast(a, mine, q) && q.itemId == s.previousItemId;
      var r :| IsLeast(b, mine, r) && r.itemId == t.previousItemId;
      LeastIsUnique(a, mine, q, r);
    } else if s.InOtherCollection? && t.InOtherCollection? {
      var q :| IsLeast(a, there, q) && q.itemId == s.itemId && q.collectionId == s.collectionId;
      var r :| IsLeast(b, there, r) && r.itemId == t.itemId && r.collectionId == t.collectionId;
      LeastIsUnique(a, there, q, r);
    }
  }

  // ---- What the rule says of a file and its records ----

  const HEX_DIGITS: string := "0123456789abcdefABCDEF"

  predicate IsDigest(v: Option<string>) {
    v.Some? && Trim(v.value) != [] && forall c :: c in Trim(v.value) ==> c in HEX_DIGITS
  }

  predicate SameButCase(x: char, y: char) { x == y || x as int == y as int + 32 || y as int == x as int + 32 }

  /** Two digests in hexadecimal are one, up to case and surrounding white space. */
  predicate SameDigest(v: string, w: string) {
    |Trim(v)| == |Trim(w)| && forall i :: 0 <= i < |Trim(v)| ==> SameButCase(Trim(v)[i], Trim(w)[i])
  }

  lemma HexDigitsAreThese(c: char)
    ensures IsHexDigit(c) <==> c in HEX_DIGITS
  {
    var s := HEX_DIGITS;
    if IsHexDigit(c) {
      var i := if c <= '9' then c as int - '0' as int
               else if c >= 'a' then c as int - 'a' as int + 10 else c as int - 'A' as int + 16;
      assert s[i] == c;
    }
  }

  lemma HexIsDigest(v: Option<string>)
    ensures NormalizeHex(v).Some? <==> IsDigest(v)
    ensures IsDigest(v) ==> NormalizeHex(v) == Some(Map(Trim(v.value), Lower))
  {
    if v.Some? {
      var t := Trim(v.value);
      forall c ensures IsHexDigit(c) <==> c in HEX_DIGITS { HexDigitsAreThese(c); }
      assert (forall i :: 0 <= i < |t| ==> IsHexDigit(t[i])) <==> forall c :: c in t ==> IsHexDigit(c);
    }
  }

  lemma LowerIsSameButCase(x: char, y: char)
    requires x in HEX_DIGITS && y in HEX_DIGITS
    ensures Lower(x) == Lower(y) <==> SameButCase(x, y)
  {
    HexDigitsAreThese(x);
    HexDigitsAreThese(y);
  }

  lemma DigestsCompare(v: Option<string>, w: Option<string>)
    requires IsDigest(v) && IsDigest(w)
    ensures NormalizeHex(v) == NormalizeHex(w) <==> SameDigest(v.value, w.value)
  {
    HexIsDigest(v);
    HexIsDigest(w);
    var t, u := Trim(v.value), Trim(w.value);
    var a, b := Map(t, Lower), Map(u, Lower);
    if |t| == |u| {
      forall i | 0 <= i < |t| ensures a[i] == b[i] <==> SameButCase(t[i], u[i]) {
        LowerIsSameButCase(t[i], u[i]);
      }
      assert a == b <==> forall i :: 0 <= i < |t| ==> a[i] == b[i];
    }
  }

  /** MD5 decides if both sides have one, else SHA-1, else size and time together, else nothing can. */
  lemma VersionsAreCompared(c: PdfFile, r: Record)
    ensures IsDigest(c.md5) && IsDigest(r.md5) ==> SameVersion(c, r) == Some(SameDigest(c.md5.value, r.md5.value))
    ensures !(IsDigest(c.md5) && IsDigest(r.md5)) ==>
              if IsDigest(c.sha1) && IsDigest(r.sha1)
              then SameVersion(c, r) == Some(SameDigest(c.sha1.value, r.sha1.value))
              else SameVersion(c, r) ==
                     if None in {c.size, r.size, c.mtime, r.mtime} then None
                     else Some(c.size == r.size && c.mtime == r.mtime)
  {
    HexIsDigest(c.md5);
    HexIsDigest(r.md5);
    HexIsDigest(c.sha1);
    HexIsDigest(r.sha1);
    if IsDigest(c.md5) && IsDigest(r.md5) { DigestsCompare(c.md5, r.md5); }
    if IsDigest(c.sha1) && IsDigest(r.sha1) { DigestsCompare(c.sha1, r.sha1); }
  }

  /** `r` is one of the records with `p`, and the first of them by item, then by collection. */
  ghost predicate IsFirst(records: seq<Record>, p: Record -> bool, r: Record) {
    && r in records && p(r)
    && forall x :: x in records && p(x) ==>
         StringLe(r.itemId, x.itemId) && (x.itemId == r.itemId ==> StringLe(r.collectionId, x.collectionId))
  }

  lemma LeastIsFirst(records: seq<Record>, p: Record -> bool, r: Record, q: Record -> bool)
    requires IsLeast(records, p, r) && forall x :: x in records ==> (p(x) <==> q(x))
    ensures IsFirst(records, q, r)
  {
    StringOrder();
  }

  predicate Inside(target: ImportTarget, r: Record) { target == ExistingCollection(r.collectionId) }

  /** Nothing tells the record from the file. */
  predicate MayBe(c: PdfFile, r: Record) { SameVersion(c, r) in {None, Some(true)} }

  /** `AlreadyInTarget` and `NewVersion` are about the collection asked for, the other two answers about the rest. */
  lemma StatusMeans(c: PdfFile, target: ImportTarget, records: seq<Record>, s: DuplicateStatus)
    requires IsStatus(c, target, records, s)
    ensures s.AlreadyInTarget? <==> exists r :: r in records && Inside(target, r) && MayBe(c, r)
    ensures s.NewVersion? <==> (exists r :: r in records && Inside(target, r))
                               && forall r :: r in records && Inside(target, r) ==> SameVersion(c, r) == Some(false)
    ensures s.InOtherCollection? <==> (forall r :: r in records ==> !Inside(target, r))
                                      && exists r :: r in records && MayBe(c, r)
    ensures s.New? <==> forall r :: r in records ==> !Inside(target, r) && SameVersion(c, r) == Some(false)
  {
    forall r ensures InTarget(target, r) <==> Inside(target, r) {}
    forall r ensures Matches(c, r) <==> MayBe(c, r) {}
  }

  /** The item named is that of the first record by item, then by collection, that makes the answer true. */
  lemma StatusNames(c: PdfFile, target: ImportTarget, records: seq<Record>, s: DuplicateStatus)
    requires IsStatus(c, target, records, s)
    ensures
      match s
      case AlreadyInTarget(id) =>
        exists r :: IsFirst(records, (x: Record) => Inside(target, x) && MayBe(c, x), r) && r.itemId == id
      case NewVersion(id) => exists r :: IsFirst(records, (x: Record) => Inside(target, x), r) && r.itemId == id
      case InOtherCollection(id, col) =>
        exists r :: IsFirst(records, (x: Record) => MayBe(c, x), r) && r.itemId == id && r.collectionId == col
      case New => true
  {
    match s
    case AlreadyInTarget(id) =>
      var here := (r: Record) => MatchesInTarget(c, target, r);
      var r :| IsLeast(records, here, r) && r.itemId == id;
      LeastIsFirst(records, here, r, (x: Record) => Inside(target, x) && MayBe(c, x));
    case NewVersion(id) =>
      var mine := (r: Record) => InTarget(target, r);
      var r :| IsLeast(records, mine, r) && r.itemId == id;
      LeastIsFirst(records, mine, r, (x: Record) => Inside(target, x));
    case InOtherCollection(id, col) =>
      var mine, there := (r: Record) => InTarget(target, r), (r: Record) => MatchesElsewhere(c, target, r);
      var r :| IsLeast(records, there, r) && r.itemId == id && r.collectionId == col;
      assert forall x :: x in records ==> !mine(x);
      LeastIsFirst(records, there, r, (x: Record) => MayBe(c, x));
    case New =>
  }

  // ---- The classifier ----

  /** The first record with a property, in a list sorted by item. */
  method FirstWhere(records: seq<Record>, p: Record -> bool) returns (r: Option<Record>)
    requires Sorted(ByItem, records)
    ensures r.None? <==> NoneHas(records, p)
    ensures r.Some? ==> IsLeast(records, p, r.value)
  {
    ItemOrder();
    for i := 0 to |records|
      invariant forall k :: 0 <= k < i ==> !p(records[k])
    {
      if p(records[i]) {
        forall x | x in records && p(x) ensures ByItem(records[i], x) {
          var k :| 0 <= k < |records| && records[k] == x;
        }
        return Some(records[i]);
      }
    }
    return None;
  }

  method Classify(c: PdfFile, identifier: string, target: ImportTarget, lookup: Lookup) returns (s: DuplicateStatus)
    ensures IsStatus(c, target, lookup(identifier, c.name), s)
  {
    var found := lookup(identifier, c.name);
    ItemOrder();
    SortIsSorted(ByItem, found);
    var records := Sort(ByItem, found);
    SortKeepsRecords(found);
    var r;
    match target
    case ExistingCollection(_) =>
      r := FirstWhere(records, (x: Record) => MatchesInTarget(c, target, x));
      if r.Some? {
        s := AlreadyInTarget(r.value.itemId);
        assert IsStatus(c, target, records, s);
        return;
      }
      r := FirstWhere(records, (x: Record) => InTarget(target, x));
      if r.Some? {
        s := NewVersion(r.value.itemId);
        assert IsStatus(c, target, records, s);
        return;
      }
      r := FirstWhere(records, (x: Record) => MatchesElsewhere(c, target, x));
      s := if r.Some? then InOtherCollection(r.value.itemId, r.value.collectionId) else New;
      assert IsStatus(c, target, records, s);
    case NewCollection(_) =>
      r := FirstWhere(records, (x: Record) => Matches(c, x));
      s := if r.Some? then InOtherCollection(r.value.itemId, r.value.collectionId) else New;
      if r.Some? {
        assert IsLeast(records, (x: Record) => MatchesElsewhere(c, target, x), r.value);
      }
      assert IsStatus(c, target, records, s);
  }

  lemma SortKeepsRecords(found: seq<Record>)
    ensures forall r :: r in Sort(ByItem, found) <==> r in found
  {
    ItemOrder();
    forall r ensures r in Sort(ByItem, found) <==> r in found {
      SortMembers(ByItem, found, r);
    }
  }

  // ---- The summary ----

  datatype Row = Row(identifier: string, file: PdfFile, duplicate: Option<DuplicateStatus>)

  datatype Summary = Summary(
    totalFiles: nat, availableFiles: nat, restrictedFiles: nat, knownBytes: nat, unknownSizeFiles: nat,
    newFiles: nat, alreadyInTarget: nat, inOtherCollection: nat, newVersion: nat, rows: seq<Row>)

  function SizeOf(r: Row): nat { if r.file.size.Some? then r.file.size.value else 0 }

  /** Exact total size of the rows with a property. */
  function Bytes(rows: seq<Row>, p: Row -> bool): nat {
    if rows == [] then 0
    else Bytes(rows[..|rows| - 1], p) + if p(rows[|rows| - 1]) then SizeOf(rows[|rows| - 1]) else 0
  }

  function Count(rows: seq<Row>, p: Row -> bool): nat {
    if rows == [] then 0
    else Count(rows[..|rows| - 1], p) + if p(rows[|rows| - 1]) then 1 else 0
  }

  predicate IsAvailable(r: Row) { r.file.availability.Available? }
  predicate IsRestricted(r: Row) { !r.file.availability.Available? }
  predicate HasUnknownSize(r: Row) { IsAvailable(r) && r.file.size.None? }
  predicate IsNew(r: Row) { r.duplicate.Some? && r.duplicate.value.New? }
  predicate IsAlready(r: Row) { r.duplicate.Some? && r.duplicate.value.AlreadyInTarget? }
  predicate IsOther(r: Row) { r.duplicate.Some? && r.duplicate.value.InOtherCollection? }
  predicate IsNewVersion(r: Row) { r.duplicate.Some? && r.duplicate.value.NewVersion? }
  predicate WillImport(r: Row) { IsNew(r) || IsNewVersion(r) }

  /** The row of one input file: classified exactly when it is available. */
  ghost predicate IsRowOf(f: (string, PdfFile), target: ImportTarget, lookup: Lookup, r: Row) {
    && r.identifier == f.0 && r.file == f.1
    && (r.duplicate.Some? <==> f.1.availability.Available?)
    && (r.duplicate.Some? ==> IsStatus(f.1, target, lookup(f.0, f.1.name), r.duplicate.value))
  }

  /** The counters say of the rows what their names say. */
  ghost predicate Counts(s: Summary) {
    && s.availableFiles == Count(s.rows, IsAvailable) && s.restrictedFiles == Count(s.rows, IsRestricted)
    && s.knownBytes == Capped(Bytes(s.rows, IsAvailable)) && s.unknownSizeFiles == Count(s.rows, HasUnknownSize)
    && s.newFiles == Count(s.rows, IsNew) && s.alreadyInTarget == Count(s.rows, IsAlready)
    && s.inOtherCollection == Count(s.rows, IsOther) && s.newVersion == Count(s.rows, IsNewVersion)
  }

  lemma CountSnoc(rows: seq<Row>, r: Row, p: Row -> bool)
    ensures Count(rows + [r], p) == Count(rows, p) + (if p(r) then 1 else 0)
    ensures Bytes(rows + [r], p) == Bytes(rows, p) + (if p(r) then SizeOf(r) else 0)
  {
    assert (rows + [r])[..|rows|] == rows;
  }

  /** The restricted branch: counted, listed, never classified. */
  method AddRestricted(s: Summary, identifier: string, pdf: PdfFile) returns (t: Summary)
    requires Counts(s) && !pdf.availability.Available?
    ensures Counts(t) && t.totalFiles == s.totalFiles && t.rows == s.rows + [Row(identifier, pdf, None)]
  {
    var row := Row(identifier, pdf, None);
    t := s.(restrictedFiles := s.restrictedFiles + 1, rows := s.rows + [row]);
    CountsGrow(s, row, t);
  }

  /** The available branch: size, then status, then the row. */
  method AddAvailable(s: Summary, identifier: string, pdf: PdfFile, status: DuplicateStatus) returns (t: Summary)
    requires Counts(s) && pdf.availability.Available?
    ensures Counts(t) && t.totalFiles == s.totalFiles && t.rows == s.rows + [Row(identifier, pdf, Some(status))]
  {
    var row := Row(identifier, pdf, Some(status));
    t := s.(availableFiles := s.availableFiles + 1);
    match pdf.size {
      case Some(size) => t := t.(knownBytes := SaturatingAdd(t.knownBytes, size));
      case None => t := t.(unknownSizeFiles := t.unknownSizeFiles + 1);
    }
    match status {
      case New => t := t.(newFiles := t.newFiles + 1);
      case AlreadyInTarget(_) => t := t.(alreadyInTarget := t.alreadyInTarget + 1);
      case InOtherCollection(_, _) => t := t.(inOtherCollection := t.inOtherCollection + 1);
      case NewVersion(_) => t := t.(newVersion := t.newVersion + 1);
    }
    t := t.(rows := t.rows + [row]);
    CountsGrow(s, row, t);
  }

  method Summarize(files: seq<(string, PdfFile)>, target: ImportTarget, lookup: Lookup) returns (s: Summary)
    ensures s.totalFiles == |files| == |s.rows| && Counts(s)
    ensures forall i :: 0 <= i < |files| ==> IsRowOf(files[i], target, lookup, s.rows[i])
  {
    s := Summary(|files|, 0, 0, 0, 0, 0, 0, 0, 0, []);
    for i := 0 to |files|
      invariant s.totalFiles == |files| && |s.rows| == i && Counts(s)
      invariant forall k :: 0 <= k < i ==> IsRowOf(files[k], target, lookup, s.rows[k])
    {
      var identifier, pdf := files[i].0, files[i].1;
      if !pdf.availability.Available? {
        s := AddRestricted(s, identifier, pdf);
        continue;
      }
      var status := Classify(pdf, identifier, target, lookup);
      s := AddAvailable(s, identifier, pdf, status);
    }
  }

  /** Each counter rises by what the new row adds. */
  lemma CountsGrow(s: Summary, r: Row, t: Summary)
    requires Counts(s) && t.rows == s.rows + [r]
    requires t.availableFiles == s.availableFiles + (if IsAvailable(r) then 1 else 0)
    requires t.restrictedFiles == s.restrictedFiles + (if IsRestricted(r) then 1 else 0)
    requires t.knownBytes == SaturatingAdd(s.knownBytes, if IsAvailable(r) then SizeOf(r) else 0)
    requires t.unknownSizeFiles == s.unknownSizeFiles + (if HasUnknownSize(r) then 1 else 0)
    requires t.newFiles == s.newFiles + (if IsNew(r) then 1 else 0)
    requires t.alreadyInTarget == s.alreadyInTarget + (if IsAlready(r) then 1 else 0)
    requires t.inOtherCollection == s.inOtherCollection + (if IsOther(r) then 1 else 0)
    requires t.newVersion == s.newVersion + (if IsNewVersion(r) then 1 else 0)
    ensures Counts(t)
  {
    CountSnoc(s.rows, r, IsAvailable);
    CountSnoc(s.rows, r, IsRestricted);
    CountSnoc(s.rows, r, HasUnknownSize);
    CountSnoc(s.rows, r, IsNew);
    CountSnoc(s.rows, r, IsAlready);
    CountSnoc(s.rows, r, IsOther);
    CountSnoc(s.rows, r, IsNewVersion);
  }

  /** The counters partition the files: each file is counted once by availability and once by status. */
  lemma {:induction false} CountersPartition(rows: seq<Row>)
    requires forall i :: 0 <= i < |rows| ==> (rows[i].duplicate.Some? <==> IsAvailable(rows[i]))
    ensures Count(rows, IsAvailable) + Count(rows, IsRestricted) == |rows|
    ensures Count(rows, IsNew) + Count(rows, IsAlready) + Count(rows, IsOther) + Count(rows, IsNewVersion)
         == Count(rows, IsAvailable)
    ensures Bytes(rows, WillImport) + Bytes(rows, IsAlready) + Bytes(rows, IsOther) == Bytes(rows, IsAvailable)
  {
    if rows != [] {
      CountersPartition(rows[..|rows| - 1]);
    }
  }

  ghost function Having(rows: seq<Row>, p: Row -> bool): set<int> { set i | 0 <= i < |rows| && p(rows[i]) }

  /** A count is the number of the rows it counts. */
  lemma {:induction false} CountIsSize(rows: seq<Row>, p: Row -> bool, q: Row -> bool)
    requires forall r :: p(r) <==> q(r)
    ensures Count(rows, p) == |Having(rows, q)|
  {
    if rows != [] {
      var n := |rows| - 1;
      CountIsSize(rows[..n], p, q);
      assert Having(rows, q) == Having(rows[..n], q) + if q(rows[n]) then {n} else {};
    }
  }

  /** What each counter counts. */
  lemma CountersMeanTheirNames(s: Summary)
    requires Counts(s)
    ensures s.availableFiles == |Having(s.rows, (r: Row) => r.file.availability == Available)|
    ensures s.restrictedFiles == |Having(s.rows, (r: Row) => r.file.availability.Restricted?)|
    ensures s.unknownSizeFiles == |Having(s.rows, (r: Row) => r.file.availability == Available && r.file.size == None)|
    ensures s.newFiles == |Having(s.rows, (r: Row) => r.duplicate == Some(New))|
    ensures s.alreadyInTarget == |Having(s.rows, (r: Row) => r.duplicate.Some? && r.duplicate.value.AlreadyInTarget?)|
    ensures s.inOtherCollection
            == |Having(s.rows, (r: Row) => r.duplicate.Some? && r.duplicate.value.InOtherCollection?)|
    ensures s.newVersion == |Having(s.rows, (r: Row) => r.duplicate.Some? && r.duplicate.value.NewVersion?)|
  {
    var rows := s.rows;
    CountIsSize(rows, IsAvailable, (r: Row) => r.file.availability == Available);
    CountIsSize(rows, IsRestricted, (r: Row) => r.file.availability.Restricted?);
    CountIsSize(rows, HasUnknownSize, (r: Row) => r.file.availability == Available && r.file.size == None);
    CountIsSize(rows, IsNew, (r: Row) => r.duplicate == Some(New));
    CountIsSize(rows, IsAlready, (r: Row) => r.duplicate.Some? && r.duplicate.value.AlreadyInTarget?);
    CountIsSize(rows, IsOther, (r: Row) => r.duplicate.Some? && r.duplicate.value.InOtherCollection?);
    CountIsSize(rows, IsNewVersion, (r: Row) => r.duplicate.Some? && r.duplicate.value.NewVersion?);
  }

  /** The loop both estimates run: a saturating sum, doubled with saturation. */
  method DoubledBytes(rows: seq<Row>, counted: Row -> bool) returns (total: nat)
    ensures total == Capped(2 * Bytes(rows, counted))
  {
    total := 0;
    for i := 0 to |rows|
      invariant total == Capped(Bytes(rows[..i], counted))
    {
      TakeNext(rows, i);
      CountSnoc(rows[..i], rows[i], counted);
      if counted(rows[i]) {
        total := SaturatingAdd(total, SizeOf(rows[i]));
      }
    }
    assert rows[..|rows|] == rows;
    total := Capped(2 * total);
  }

  method EstimatedSyncBytes(s: Summary) returns (total: nat)
    ensures total == Capped(2 * Bytes(s.rows, WillImport))
  {
    total := DoubledBytes(s.rows, WillImport);
  }

  method InOtherCollectionBytes(s: Summary) returns (total: nat)
    ensures total == Capped(2 * Bytes(s.rows, IsOther))
  {
    total := DoubledBytes(s.rows, IsOther);
  }
}
