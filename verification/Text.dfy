/** Text as the sources see it: Unicode scalar values, their UTF-8 bytes (RFC 3629), and white space. */
module Text {
  import opened Common

  /** Bytes one character takes in UTF-8. */
  function CharLen(c: char): (n: nat)
    ensures 1 <= n <= 4
  {
    var n := c as int;
    if n < 0x80 then 1 else if n < 0x800 then 2 else if n < 0x1_0000 then 3 else 4
  }

  /** Length of a string in bytes. */
  function ByteLen(s: string): (n: nat)
    ensures n >= |s|
  {
    if s == [] then 0 else ByteLen(s[..|s| - 1]) + CharLen(s[|s| - 1])
  }

  lemma {:induction false} ByteLenAppend(s: string, t: string)
    ensures ByteLen(s + t) == ByteLen(s) + ByteLen(t)
  {
    if t == [] {
      assert s + t == s;
    } else {
      var n := |t| - 1;
      assert (s + t)[..|s| + n] == s + t[..n];
      ByteLenAppend(s, t[..n]);
    }
  }

  function EncodeChar(c: char): (b: Bytes)
    ensures |b| == CharLen(c)
  {
    var n := c as int;
    if n < 0x80 then [n as Byte]
    else if n < 0x800 then [(0xC0 + n / 64) as Byte, (0x80 + n % 64) as Byte]
    else if n < 0x1_0000 then
      [(0xE0 + n / 4096) as Byte, (0x80 + n / 64 % 64) as Byte, (0x80 + n % 64) as Byte]
    else
      [(0xF0 + n / 0x4_0000) as Byte, (0x80 + n / 4096 % 64) as Byte,
       (0x80 + n / 64 % 64) as Byte, (0x80 + n % 64) as Byte]
  }

  function EncodeUtf8(s: string): (b: Bytes)
    ensures |b| == ByteLen(s)
  {
    if s == [] then [] else EncodeUtf8(s[..|s| - 1]) + EncodeChar(s[|s| - 1])
  }

  predicate IsScalar(n: int) { 0 <= n < 0xD800 || 0xE000 <= n < 0x11_0000 }

  /** The character at the front of `b`, if there is one, with the number of bytes it took. */
  function DecodeChar(b: Bytes): Option<(char, nat)> {
    if b == [] then None
    else
      var lead := b[0] as int;
      var k: nat := if lead < 0x80 then 1 else if lead < 0xE0 then 2 else if lead < 0xF0 then 3 else 4;
      if |b| < k then None
      else
        var n :=
          if k == 1 then lead
          else if k == 2 then (lead - 0xC0) * 64 + (b[1] as int - 0x80)
          else if k == 3 then (lead - 0xE0) * 4096 + (b[1] as int - 0x80) * 64 + (b[2] as int - 0x80)
          else
            (lead - 0xF0) * 0x4_0000 + (b[1] as int - 0x80) * 4096
            + (b[2] as int - 0x80) * 64 + (b[3] as int - 0x80);
        if IsScalar(n) then Some((n as char, k)) else None
  }

  function DecodeUtf8(b: Bytes): Option<string>
    decreases |b|
  {
    if b == [] then Some([])
    else match DecodeChar(b)
      case None => None
      case Some((c, k)) =>
        if k == 0 || k > |b| then None
        else match DecodeUtf8(b[k..])
          case None => None
          case Some(rest) => Some([c] + rest)
  }

  lemma DecodeCharInverts(c: char, rest: Bytes)
    ensures DecodeChar(EncodeChar(c) + rest) == Some((c, CharLen(c)))
  {
    var n := c as int;
    if n < 0x80 {
    } else if n < 0x800 {
      DecodeTwo(c, rest);
    } else if n < 0x1_0000 {
      DecodeThree(c, rest);
    } else {
      DecodeFour(c, rest);
    }
  }

  lemma DecodeTwo(c: char, rest: Bytes)
    requires 0x80 <= c as int < 0x800
    ensures DecodeChar(EncodeChar(c) + rest) == Some((c, 2))
  {
    var n, b := c as int, EncodeChar(c) + rest;
    assert b[0] as int == 0xC0 + n / 64 && b[1] as int == 0x80 + n % 64;
  }

  lemma DecodeThree(c: char, rest: Bytes)
    requires 0x800 <= c as int < 0x1_0000
    ensures DecodeChar(EncodeChar(c) + rest) == Some((c, 3))
  {
    var n, b := c as int, EncodeChar(c) + rest;
    assert b[0] as int == 0xE0 + n / 4096 && b[1] as int == 0x80 + n / 64 % 64 && b[2] as int == 0x80 + n % 64;
    assert n / 64 / 64 == n / 4096;
  }

  lemma DecodeFour(c: char, rest: Bytes)
    requires 0x1_0000 <= c as int
    ensures DecodeChar(EncodeChar(c) + rest) == Some((c, 4))
  {
    var n, b := c as int, EncodeChar(c) + rest;
    assert b[0] as int == 0xF0 + n / 0x4_0000 && b[1] as int == 0x80 + n / 4096 % 64;
    assert b[2] as int == 0x80 + n / 64 % 64 && b[3] as int == 0x80 + n % 64;
    assert n / 64 / 64 == n / 4096 && n / 4096 / 64 == n / 0x4_0000;
  }

  lemma {:induction false} EncodingIsConcat(s: string)
    ensures EncodeUtf8(s) == Concat(s, EncodeChar)
  {
    if s != [] { EncodingIsConcat(s[..|s| - 1]); }
  }

  lemma EncodeUtf8Front(c: char, s: string)
    ensures EncodeUtf8([c] + s) == EncodeChar(c) + EncodeUtf8(s)
  {
    EncodingIsConcat([c] + s);
    EncodingIsConcat(s);
    ConcatFront(c, s, EncodeChar);
  }

  /** UTF-8 can be read back. */
  lemma {:induction false} Utf8RoundTrip(s: string)
    ensures DecodeUtf8(EncodeUtf8(s)) == Some(s)
  {
    if s != [] {
      var c, rest := s[0], EncodeUtf8(s[1..]);
      assert s == [c] + s[1..];
      EncodeUtf8Front(c, s[1..]);
      DecodeCharInverts(c, rest);
      Utf8RoundTrip(s[1..]);
      assert (EncodeChar(c) + rest)[CharLen(c)..] == rest;
    }
  }

  /** The shape of section 3 of RFC 3629: the first byte tells the length, the others start with the bits 10. */
  lemma Utf8Shape(c: char)
    ensures
      var b := EncodeChar(c);
      && (|b| == 1 <==> b[0] < 0x80) && (|b| == 2 <==> 0xC2 <= b[0] < 0xE0)
      && (|b| == 3 <==> 0xE0 <= b[0] < 0xF0) && (|b| == 4 <==> 0xF0 <= b[0] < 0xF5)
      && forall i :: 1 <= i < |b| ==> 0x80 <= b[i] < 0xC0
  {
  }

  // ---- White space ----

  /** The Unicode White_Space property. */
  predicate IsWhitespace(c: char) {
    var n := c as int;
    || 0x9 <= n <= 0xD || n == 0x20 || n == 0x85 || n == 0xA0 || n == 0x1680 || 0x2000 <= n <= 0x200A
    || n == 0x2028 || n == 0x2029 || n == 0x202F || n == 0x205F || n == 0x3000
  }

  /** Its twenty-five code points. */
  lemma WhitespaceTable(c: char)
    ensures IsWhitespace(c) <==>
              c as int in {0x9, 0xA, 0xB, 0xC, 0xD, 0x20, 0x85, 0xA0, 0x1680, 0x2000, 0x2001, 0x2002, 0x2003, 0x2004,
                           0x2005, 0x2006, 0x2007, 0x2008, 0x2009, 0x200A, 0x2028, 0x2029, 0x202F, 0x205F, 0x3000}
  {
  }

  function TrimStart(s: string): string {
    if s != [] && IsWhitespace(s[0]) then TrimStart(s[1..]) else s
  }

  function TrimEnd(s: string): string {
    if s != [] && IsWhitespace(s[|s| - 1]) then TrimEnd(s[..|s| - 1]) else s
  }

  function Trim(s: string): string { TrimEnd(TrimStart(s)) }

  ghost predicate IsBlankText(s: string) { forall c :: c in s ==> IsWhitespace(c) }

  /** `s[i..n]` is what is left when white space is taken from the front and the end, as far as it goes. */
  ghost predicate TrimsTo(s: string, i: nat, n: nat) {
    && i <= n <= |s| && (forall k :: 0 <= k < i || n <= k < |s| ==> IsWhitespace(s[k]))
    && (i < n ==> !IsWhitespace(s[i]) && !IsWhitespace(s[n - 1]))
  }

  ghost predicate IsTrimOf(t: string, s: string) { exists i: nat, n: nat :: TrimsTo(s, i, n) && s[i..n] == t }

  lemma {:induction false} TrimStartMeans(s: string) returns (i: nat)
    ensures i <= |s| && TrimStart(s) == s[i..] && IsBlankText(s[..i])
    ensures i < |s| ==> !IsWhitespace(s[i])
  {
    if s != [] && IsWhitespace(s[0]) {
      i := TrimStartMeans(s[1..]);
      assert s[..i + 1] == [s[0]] + s[1..][..i];
      i := i + 1;
    } else {
      i := 0;
    }
  }

  lemma {:induction false} TrimEndMeans(s: string) returns (n: nat)
    ensures n <= |s| && TrimEnd(s) == s[..n] && IsBlankText(s[n..])
    ensures n > 0 ==> !IsWhitespace(s[n - 1])
  {
    if s != [] && IsWhitespace(s[|s| - 1]) {
      var t, c := s[..|s| - 1], s[|s| - 1];
      n := TrimEndMeans(t);
      assert s == t + [c];
      assert s[..n] == t[..n] && s[n..] == t[n..] + [c];
    } else {
      n := |s|;
    }
  }

  lemma TrimMeans(s: string)
    ensures IsTrimOf(Trim(s), s)
    ensures Trim(s) == [] <==> IsBlankText(s)
  {
    var i := TrimStartMeans(s);
    var n := TrimEndMeans(s[i..]);
    assert s[i..i + n] == s[i..][..n];
    forall k | 0 <= k < i || i + n <= k < |s| ensures IsWhitespace(s[k]) {
      assert k < i ==> s[..i][k] in s[..i];
      assert k >= i ==> s[i..][n..][k - i - n] in s[i..][n..];
    }
    assert TrimsTo(s, i, i + n);
    if n > 0 {
      assert s[i] in s;
    } else {
      forall c | c in s ensures IsWhitespace(c) {
        var k :| 0 <= k < |s| && s[k] == c;
      }
    }
  }

  lemma TrimIsUnique(s: string, t: string, u: string)
    requires IsTrimOf(t, s) && IsTrimOf(u, s) && t != [] && u != []
    ensures t == u
  {
    var i: nat, n: nat :| TrimsTo(s, i, n) && s[i..n] == t;
    var j: nat, m: nat :| TrimsTo(s, j, m) && s[j..m] == u;
    assert i == j && n == m;
  }

  predicate StartsWith(s: string, p: string) { |p| <= |s| && s[..|p|] == p }

  predicate EndsWith(s: string, p: string) { |p| <= |s| && s[|s| - |p|..] == p }

  // ---- Numbers in text ----

  predicate IsDigit(c: char) { '0' <= c <= '9' }

  function DigitOf(c: char): nat
    requires IsDigit(c)
  {
    c as int - '0' as int
  }

  predicate AllDigits(s: string) { forall i :: 0 <= i < |s| ==> IsDigit(s[i]) }

  function DigitsValue(s: string): nat
    requires AllDigits(s)
  {
    if s == [] then 0 else 10 * DigitsValue(s[..|s| - 1]) + DigitOf(s[|s| - 1])
  }

  /** A decimal number that fits in 64 bits, with an optional plus sign. */
  function ParseU64(s: string): Option<nat> {
    var digits := if s != [] && s[0] == '+' then s[1..] else s;
    if digits != [] && AllDigits(digits) && DigitsValue(digits) <= MAX_U64
    then Some(DigitsValue(digits)) else None
  }

  /** Decimal numbers read back as themselves. */
  lemma DecimalIsRead(n: nat)
    ensures ParseU64(Decimal(n)) == if n <= MAX_U64 then Some(n) else None
  {
    DigitsAreRead(n);
    assert IsDigit(Decimal(n)[0]);
  }

  lemma DigitsSnoc(s: string, c: char)
    requires AllDigits(s) && IsDigit(c)
    ensures AllDigits(s + [c]) && DigitsValue(s + [c]) == 10 * DigitsValue(s) + DigitOf(c)
  {
    assert (s + [c])[..|s|] == s;
  }

  lemma {:induction false} DigitsAreRead(n: nat)
    ensures AllDigits(Decimal(n)) && DigitsValue(Decimal(n)) == n
  {
    if n >= 10 {
      DigitsAreRead(n / 10);
      DigitsSnoc(Decimal(n / 10), Digit(n % 10));
    } else {
      DigitsSnoc([], Digit(n));
    }
  }
}
