/** JSON values and the length of their compact text (RFC 8259, section 7). */
module Json {
  import opened Common
  import opened Text

  datatype Json =
    | Null
    | Num(n: nat)
    | Str(s: string)
    | List(items: seq<Json>)
    | Object(members: seq<Member>)

  datatype Member = Member(key: string, value: Json)

  /** Bytes one character takes inside a JSON string. */
  function EscapedCharLen(c: char): (n: nat)
    ensures n >= CharLen(c)
  {
    var v := c as int;
    if v in {0x08, 0x09, 0x0A, 0x0C, 0x0D, 0x22, 0x5C} then 2
    else if v < 0x20 then 6
    else CharLen(c)
  }

  function EscapedLen(s: string): (n: nat)
    ensures n >= ByteLen(s)
  {
    if s == [] then 0 else EscapedLen(s[..|s| - 1]) + EscapedCharLen(s[|s| - 1])
  }

  lemma {:induction false} EscapedLenAppend(s: string, t: string)
    ensures EscapedLen(s + t) == EscapedLen(s) + EscapedLen(t)
  {
    if t == [] {
      assert s + t == s;
    } else {
      var n := |t| - 1;
      assert (s + t)[..|s| + n] == s + t[..n];
      EscapedLenAppend(s, t[..n]);
    }
  }

  function StrLen(s: string): nat { EscapedLen(s) + 2 }

  function JsonLen(j: Json): nat {
    match j
    case Null => 4
    case Num(n) => |Decimal(n)|
    case Str(s) => StrLen(s)
    case List(items) => if items == [] then 2 else 1 + ItemsLen(items)
    case Object(members) => if members == [] then 2 else 1 + MembersLen(members)
  }

  /** Items, each with the comma or bracket after it. */
  function ItemsLen(items: seq<Json>): nat {
    if items == [] then 0 else ItemsLen(items[..|items| - 1]) + JsonLen(items[|items| - 1]) + 1
  }

  /** Members, each with its colon and the comma or brace after it. */
  function MembersLen(members: seq<Member>): nat {
    if members == [] then 0
    else
      var m := members[|members| - 1];
      MembersLen(members[..|members| - 1]) + StrLen(m.key) + 1 + JsonLen(m.value) + 1
  }

  lemma {:induction false} MembersLenAppend(a: seq<Member>, b: seq<Member>)
    ensures MembersLen(a + b) == MembersLen(a) + MembersLen(b)
  {
    if b == [] {
      assert a + b == a;
    } else {
      var n := |b| - 1;
      assert (a + b)[..|a| + n] == a + b[..n];
      MembersLenAppend(a, b[..n]);
    }
  }

  // ---- The text itself ----

  function HexLow(n: nat): char
    requires n < 16
  {
    if n < 10 then Digit(n) else ('a' as int + n - 10) as char
  }

  /** A character inside a JSON string: the short escapes, four hexadecimal digits for other controls, or itself. */
  function EscapeChar(c: char): string {
    if c == '\"' then "\\\"" else if c == '\\' then "\\\\"
    else if c == '\n' then "\\n" else if c == '\r' then "\\r" else if c == '\t' then "\\t"
    else if c as int == 8 then "\\b" else if c as int == 12 then "\\f"
    else if c as int < 0x20 then "\\u00" + [HexLow(c as int / 16), HexLow(c as int % 16)]
    else [c]
  }

  function PrintStr(s: string): string { "\"" + Concat(s, EscapeChar) + "\"" }

  function Print(j: Json): string {
    match j
    case Null => "null"
    case Num(n) => Decimal(n)
    case Str(s) => PrintStr(s)
    case List(items) => if items == [] then "[]" else "[" + PrintItems(items) + "]"
    case Object(members) => if members == [] then "{}" else "{" + PrintMembers(members) + "}"
  }

  function PrintItems(items: seq<Json>): string {
    if items == [] then []
    else (if |items| == 1 then [] else PrintItems(items[..|items| - 1]) + ",") + Print(items[|items| - 1])
  }

  function PrintMembers(members: seq<Member>): string {
    if members == [] then []
    else
      var m := members[|members| - 1];
      (if |members| == 1 then [] else PrintMembers(members[..|members| - 1]) + ",")
      + PrintStr(m.key) + ":" + Print(m.value)
  }

  lemma AsciiLen(s: string)
    requires forall i :: 0 <= i < |s| ==> s[i] as int < 0x80
    ensures ByteLen(s) == |s|
  {
    if s != [] { AsciiLen(s[..|s| - 1]); }
  }

  lemma {:induction false} DecimalIsAscii(n: nat)
    ensures forall i :: 0 <= i < |Decimal(n)| ==> Decimal(n)[i] as int < 0x80
  {
    if n >= 10 { DecimalIsAscii(n / 10); }
  }

  lemma CharIsCharged(c: char)
    ensures ByteLen(EscapeChar(c)) == EscapedCharLen(c)
  {
    if c as int < 0x20 || c == '\"' || c == '\\' {
      AsciiLen(EscapeChar(c));
    } else {
      assert EscapeChar(c)[..0] == [];
    }
  }

  lemma {:induction false} TextIsCharged(s: string)
    ensures ByteLen(Concat(s, EscapeChar)) == EscapedLen(s)
  {
    if s != [] {
      var n := |s| - 1;
      TextIsCharged(s[..n]);
      CharIsCharged(s[n]);
      ByteLenAppend(Concat(s[..n], EscapeChar), EscapeChar(s[n]));
    }
  }

  lemma StrIsCharged(s: string)
    ensures ByteLen(PrintStr(s)) == StrLen(s)
  {
    TextIsCharged(s);
    AsciiLen("\"");
    ByteLenAppend("\"", Concat(s, EscapeChar));
    ByteLenAppend("\"" + Concat(s, EscapeChar), "\"");
  }

  lemma Bracketed(a: string, s: string, b: string)
    requires |a| == |b| == 1 && a[0] as int < 0x80 && b[0] as int < 0x80
    ensures ByteLen(a + s + b) == ByteLen(s) + 2
  {
    AsciiLen(a);
    AsciiLen(b);
    ByteLenAppend(a, s);
    ByteLenAppend(a + s, b);
  }

  /** The length charged is the number of bytes the printed value takes. */
  lemma {:induction false} LengthIsOfTheText(j: Json)
    ensures JsonLen(j) == ByteLen(Print(j))
    decreases j, 0
  {
    match j
    case Null => AsciiLen("null");
    case Num(n) =>
      DecimalIsAscii(n);
      AsciiLen(Decimal(n));
    case Str(s) => StrIsCharged(s);
    case List(items) =>
      if items == [] {
        AsciiLen("[]");
      } else {
        ItemsAreCharged(items);
        Bracketed("[", PrintItems(items), "]");
      }
    case Object(members) =>
      if members == [] {
        AsciiLen("{}");
      } else {
        MembersAreCharged(members);
        Bracketed("{", PrintMembers(members), "}");
      }
  }

  lemma {:induction false} ItemsAreCharged(items: seq<Json>)
    requires items != []
    ensures ItemsLen(items) == ByteLen(PrintItems(items)) + 1
    decreases items, |items|
  {
    var n := |items| - 1;
    LengthIsOfTheText(items[n]);
    if n > 0 {
      ItemsAreCharged(items[..n]);
      AsciiLen(",");
      ByteLenAppend(PrintItems(items[..n]), ",");
      ByteLenAppend(PrintItems(items[..n]) + ",", Print(items[n]));
    } else {
      assert items[..n] == [] && [] + Print(items[n]) == Print(items[n]);
    }
  }

  lemma MemberIsCharged(front: string, key: string, value: string)
    ensures ByteLen(front + PrintStr(key) + ":" + value) == ByteLen(front) + StrLen(key) + 1 + ByteLen(value)
  {
    StrIsCharged(key);
    AsciiLen(":");
    ByteLenAppend(front, PrintStr(key));
    ByteLenAppend(front + PrintStr(key), ":");
    ByteLenAppend(front + PrintStr(key) + ":", value);
  }

  lemma FrontIsCharged(front: string)
    ensures ByteLen(front + ",") == ByteLen(front) + 1
  {
    AsciiLen(",");
    ByteLenAppend(front, ",");
  }

  lemma {:induction false} MembersAreCharged(members: seq<Member>)
    requires members != []
    ensures MembersLen(members) == ByteLen(PrintMembers(members)) + 1
    decreases members, |members|
  {
    var n := |members| - 1;
    LengthIsOfTheText(members[n].value);
    if n == 0 {
      assert members[..0] == [];
      MemberIsCharged([], members[0].key, Print(members[0].value));
    } else {
      MembersAreCharged(members[..n]);
      FrontIsCharged(PrintMembers(members[..n]));
      MemberIsCharged(PrintMembers(members[..n]) + ",", members[n].key, Print(members[n].value));
    }
  }

  // ---- Reading a string back ----

  function HexDigitValue(c: char): Option<nat> {
    if '0' <= c <= '9' then Some(c as int - '0' as int)
    else if 'a' <= c <= 'f' then Some(c as int - 'a' as int + 10)
    else if 'A' <= c <= 'F' then Some(c as int - 'A' as int + 10)
    else None
  }

  /** The character at the front of the inside of a string, and how much of the text it takes. */
  function ReadChar(s: string): Option<(char, nat)> {
    if s == [] || s[0] == '\"' || s[0] as int < 0x20 then None
    else if s[0] != '\\' then Some((s[0], 1))
    else if |s| < 2 then None
    else if s[1] == '\"' || s[1] == '\\' || s[1] == '/' then Some((s[1], 2))
    else if s[1] == 'b' then Some((8 as char, 2))
    else if s[1] == 'f' then Some((12 as char, 2))
    else if s[1] == 'n' then Some(('\n', 2))
    else if s[1] == 'r' then Some(('\r', 2))
    else if s[1] == 't' then Some(('\t', 2))
    else if s[1] == 'u' && |s| >= 6 && s[2] == '0' && s[3] == '0' then
      match (HexDigitValue(s[4]), HexDigitValue(s[5]))
      case (Some(x), Some(y)) => if 16 * x + y < 0x100 then Some(((16 * x + y) as char, 6)) else None
      case _ => None
    else None
  }

  function ReadText(s: string): Option<string> {
    if s == [] then Some([])
    else match ReadChar(s)
      case None => None
      case Some((c, k)) =>
        if k == 0 || k > |s| then None
        else match ReadText(s[k..])
          case None => None
          case Some(rest) => Some([c] + rest)
  }

  lemma CharIsRead(c: char, rest: string)
    ensures ReadChar(EscapeChar(c) + rest) == Some((c, |EscapeChar(c)|))
  {
    var v := c as int;
    var s := EscapeChar(c) + rest;
    if v < 0x20 && v !in {8, 9, 10, 12, 13} {
      assert s[0] == '\\' && s[1] == 'u' && s[2] == '0' && s[3] == '0';
      assert HexDigitValue(s[4]) == Some(v / 16) && HexDigitValue(s[5]) == Some(v % 16);
    }
  }

  /** Whatever a string holds, its printed inside reads back as it. */
  lemma {:induction false} TextIsRead(s: string)
    ensures ReadText(Concat(s, EscapeChar)) == Some(s)
  {
    if s != [] {
      var rest := Concat(s[1..], EscapeChar);
      assert s == [s[0]] + s[1..];
      ConcatFront(s[0], s[1..], EscapeChar);
      CharIsRead(s[0], rest);
      TextIsRead(s[1..]);
      assert (EscapeChar(s[0]) + rest)[|EscapeChar(s[0])|..] == rest;
    }
  }

  /** The first value under `key`. */
  function Lookup(members: seq<Member>, key: string): Option<Json> {
    if members == [] then None
    else if members[0].key == key then Some(members[0].value)
    else Lookup(members[1..], key)
  }

  lemma {:induction false} LookupAppend(a: seq<Member>, b: seq<Member>, key: string)
    ensures Lookup(a + b, key) == if Lookup(a, key).Some? then Lookup(a, key) else Lookup(b, key)
  {
    if a == [] {
      assert a + b == b;
    } else {
      assert (a + b)[1..] == a[1..] + b;
      LookupAppend(a[1..], b, key);
    }
  }

  lemma {:induction false} LookupAbsent(members: seq<Member>, key: string)
    requires forall i :: 0 <= i < |members| ==> members[i].key != key
    ensures Lookup(members, key) == None
  {
    if members != [] {
      LookupAbsent(members[1..], key);
    }
  }

  lemma {:induction false} LookupAt(members: seq<Member>, i: nat, key: string)
    requires i < |members| && members[i].key == key && forall j :: 0 <= j < i ==> members[j].key != key
    ensures Lookup(members, key) == Some(members[i].value)
  {
    if i > 0 {
      LookupAt(members[1..], i - 1, key);
    }
  }
}
