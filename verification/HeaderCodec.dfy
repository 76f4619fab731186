/** The wrapping of header values in `relay.rs`, over base64 as in section 4 of RFC 4648. */
module HeaderCodec {
  import opened Common
  import opened Text

  // ---- Base64 ----

  function Symbol(v: nat): (c: char)
    requires v < 64
    ensures 0x21 <= c as int <= 0x7E && c != '=' && c != '?'
  {
    if v < 26 then ('A' as int + v) as char
    else if v < 52 then ('a' as int + v - 26) as char
    else if v < 62 then ('0' as int + v - 52) as char
    else if v == 62 then '+' else '/'
  }

  function SymbolValue(c: char): Option<nat> {
    if 'A' <= c <= 'Z' then Some(c as int - 'A' as int)
    else if 'a' <= c <= 'z' then Some(c as int - 'a' as int + 26)
    else if '0' <= c <= '9' then Some(c as int - '0' as int + 52)
    else if c == '+' then Some(62)
    else if c == '/' then Some(63)
    else None
  }

  lemma SymbolRoundTrip(v: nat)
    requires v < 64
    ensures SymbolValue(Symbol(v)) == Some(v)
  {
  }

  /** The four symbols of three bytes. */
  function Quad(x: Byte, y: Byte, z: Byte): (s: string)
    ensures |s| == 4
  {
    var a, b, c := x as int, y as int, z as int;
    [Symbol(a / 4), Symbol(a % 4 * 16 + b / 16), Symbol(b % 16 * 4 + c / 64), Symbol(c % 64)]
  }

  function Base64(b: Bytes): string {
    if b == [] then []
    else if |b| == 1 then Quad(b[0], 0, 0)[..2] + "=="
    else if |b| == 2 then Quad(b[0], b[1], 0)[..3] + "="
    else Quad(b[0], b[1], b[2]) + Base64(b[3..])
  }

  /** The value of a symbol; padding reads as zero. */
  function ZeroOr(c: char): Option<nat> { if c == '=' then Some(0) else SymbolValue(c) }

  predicate AllSextets(p: nat, q: nat, r: nat, t: nat) { p < 64 && q < 64 && r < 64 && t < 64 }

  function Pack(p: nat, q: nat, r: nat, t: nat): (b: Bytes)
    requires AllSextets(p, q, r, t)
    ensures |b| == 3
  {
    [(p * 4 + q / 16) as Byte, (q % 16 * 16 + r / 4) as Byte, (r % 4 * 64 + t) as Byte]
  }

  /** The three bytes of four symbols. */
  function Triple(s: string): Option<Bytes>
    requires |s| == 4
  {
    match (SymbolValue(s[0]), SymbolValue(s[1]), ZeroOr(s[2]), ZeroOr(s[3]))
    case (Some(p), Some(q), Some(r), Some(t)) => if AllSextets(p, q, r, t) then Some(Pack(p, q, r, t)) else None
    case _ => None
  }

  function Unbase64(s: string): Option<Bytes> {
    if s == [] then Some([])
    else if |s| < 4 then None
    else match Triple(s[..4])
      case None => None
      case Some(t) =>
        if |t| != 3 then None
        else if s[2] == '=' then (if s[3] == '=' && |s| == 4 then Some(t[..1]) else None)
        else if s[3] == '=' then (if |s| == 4 then Some(t[..2]) else None)
        else match Unbase64(s[4..])
          case None => None
          case Some(rest) => Some(t + rest)
  }

  lemma PackInverts(x: Byte, y: Byte, z: Byte)
    ensures
      var a, b, c := x as int, y as int, z as int;
      && AllSextets(a / 4, a % 4 * 16 + b / 16, b % 16 * 4 + c / 64, c % 64)
      && Pack(a / 4, a % 4 * 16 + b / 16, b % 16 * 4 + c / 64, c % 64) == [x, y, z]
  {
  }

  lemma SymbolIsRead(v: nat)
    requires v < 64
    ensures SymbolValue(Symbol(v)) == Some(v) && ZeroOr(Symbol(v)) == Some(v)
  {
    SymbolRoundTrip(v);
  }

  lemma QuadRoundTrip(x: Byte, y: Byte, z: Byte)
    ensures Triple(Quad(x, y, z)) == Some([x, y, z])
  {
    var a, b, c := x as int, y as int, z as int;
    PackInverts(x, y, z);
    SymbolIsRead(a / 4);
    SymbolIsRead(a % 4 * 16 + b / 16);
    SymbolIsRead(b % 16 * 4 + c / 64);
    SymbolIsRead(c % 64);
  }

  lemma PaddedOne(x: Byte)
    ensures Triple(Quad(x, 0, 0)[..2] + "==") == Some([x, 0, 0])
  {
    var a := x as int;
    PackInverts(x, 0, 0);
    SymbolIsRead(a / 4);
    SymbolIsRead(a % 4 * 16);
  }

  lemma PaddedTwo(x: Byte, y: Byte)
    ensures Triple(Quad(x, y, 0)[..3] + "=") == Some([x, y, 0])
  {
    var a, b := x as int, y as int;
    PackInverts(x, y, 0);
    SymbolIsRead(a / 4);
    SymbolIsRead(a % 4 * 16 + b / 16);
    SymbolIsRead(b % 16 * 4);
  }

  /** A full group is read before what follows it. */
  lemma QuadIsRead(x: Byte, y: Byte, z: Byte, rest: string, t: Bytes)
    requires Unbase64(rest) == Some(t)
    ensures Unbase64(Quad(x, y, z) + rest) == Some([x, y, z] + t)
  {
    var s := Quad(x, y, z) + rest;
    QuadRoundTrip(x, y, z);
    assert s[..4] == Quad(x, y, z) && s[4..] == rest && s[2] != '=' && s[3] != '=';
  }

  /** Base64 can be read back. */
  lemma {:induction false} Base64RoundTrip(b: Bytes)
    ensures Unbase64(Base64(b)) == Some(b)
  {
    if |b| == 1 {
      OneIsRead(b[0]);
      assert b == [b[0]];
    } else if |b| == 2 {
      TwoAreRead(b[0], b[1]);
      assert b == [b[0], b[1]];
    } else if |b| > 2 {
      Base64RoundTrip(b[3..]);
      QuadIsRead(b[0], b[1], b[2], Base64(b[3..]), b[3..]);
      assert [b[0], b[1], b[2]] + b[3..] == b;
    }
  }

  lemma OneIsRead(x: Byte)
    ensures Unbase64(Base64([x])) == Some([x])
  {
    var s := Base64([x]);
    PaddedOne(x);
    assert s[..4] == s && [x, 0, 0][..1] == [x];
  }

  lemma TwoAreRead(x: Byte, y: Byte)
    ensures Unbase64(Base64([x, y])) == Some([x, y])
  {
    var s := Base64([x, y]);
    PaddedTwo(x, y);
    assert s[..4] == s && [x, y, 0][..2] == [x, y];
  }

  // ---- Header values ----

  const PREFIX: string := "=?base64?"
  const SUFFIX: string := "?="

  predicate IsInvisible(c: char) { c as int < 0x20 || c as int > 0x7E }

  predicate HasEdgeSpace(v: string) {
    v != [] && (v[0] in {' ', '\t'} || v[|v| - 1] in {' ', '\t'})
  }

  predicate LooksEncoded(v: string) { StartsWith(v, PREFIX) && EndsWith(v, SUFFIX) }

  predicate NeedsWrapping(v: string) {
    v != [] && (HasEdgeSpace(v) || (exists i :: 0 <= i < |v| && IsInvisible(v[i])) || LooksEncoded(v))
  }

  function EncodeHeaderValue(v: string): string {
    if NeedsWrapping(v) then PREFIX + Base64(EncodeUtf8(v)) + SUFFIX else v
  }

  /** What the other side reads: unwrap what is wrapped, take the rest as it is. */
  function DecodeHeaderValue(h: string): Option<string> {
    if |PREFIX| + |SUFFIX| <= |h| && LooksEncoded(h) then
      match Unbase64(h[|PREFIX|..|h| - |SUFFIX|])
      case None => None
      case Some(b) => DecodeUtf8(b)
    else Some(h)
  }

  /** Every value is recovered, including those that already look wrapped. */
  lemma HeaderRoundTrip(v: string)
    ensures DecodeHeaderValue(EncodeHeaderValue(v)) == Some(v)
  {
    if NeedsWrapping(v) {
      var inner := Base64(EncodeUtf8(v));
      var h := PREFIX + inner + SUFFIX;
      assert h[..|PREFIX|] == PREFIX && h[|h| - |SUFFIX|..] == SUFFIX && h[|PREFIX|..|h| - |SUFFIX|] == inner;
      Base64RoundTrip(EncodeUtf8(v));
      Utf8RoundTrip(v);
    }
  }

  /** So no two values share an encoding. */
  lemma HeaderEncodingIsInjective(v: string, w: string)
    requires EncodeHeaderValue(v) == EncodeHeaderValue(w)
    ensures v == w
  {
    HeaderRoundTrip(v);
    HeaderRoundTrip(w);
  }

  /** The vectors of RFC 4648, section 10, and one group from each part of its alphabet. */
  lemma Vectors()
    ensures Base64([]) == "" && Base64([0x66]) == "Zg==" && Base64([0x66, 0x6F]) == "Zm8="
    ensures Base64([0x66, 0x6F, 0x6F]) == "Zm9v" && Base64([0x66, 0x6F, 0x6F, 0x62]) == "Zm9vYg=="
    ensures Quad(0, 0x10, 0x83) == "ABCD" && Quad(0x69, 0xB7, 0x1D) == "abcd" && Quad(0xD3, 0x5D, 0xB7) == "0123"
    ensures Quad(0xFB, 0xFF, 0xBF) == "+/+/"
  {
    assert Base64([0x66, 0x6F]) == [Symbol(25), Symbol(38), Symbol(60)] + "=";
    assert Base64([0x66, 0x6F, 0x6F]) == [Symbol(25), Symbol(38), Symbol(61), Symbol(47)];
    assert [0x66 as Byte, 0x6F, 0x6F, 0x62][3..] == [0x62];
  }

  /** A value goes as it is exactly when it is plain: visible ASCII, no space at an edge, and not like a wrapped one. */
  lemma PlainValuesAreUnchanged(v: string)
    ensures EncodeHeaderValue(v) == v <==>
              || v == []
              || ((forall i :: 0 <= i < |v| ==> ' ' <= v[i] <= '~') && v[0] != ' ' && v[|v| - 1] != ' '
                  && !("=?base64?" <= v && "?=" <= v[|v| - 2..]))
  {
    Base64IsNoShorter(EncodeUtf8(v));
    assert NeedsWrapping(v) ==> |EncodeHeaderValue(v)| > |v|;
  }

  lemma OthersAreWrapped(v: string)
    ensures EncodeHeaderValue(v) == v || EncodeHeaderValue(v) == "=?base64?" + Base64(EncodeUtf8(v)) + "?="
  {
  }

  lemma {:induction false} Base64IsNoShorter(b: Bytes)
    ensures |Base64(b)| >= |b|
  {
    if |b| > 2 { Base64IsNoShorter(b[3..]); }
  }

  lemma {:induction false} Base64IsVisible(b: Bytes)
    ensures forall i :: 0 <= i < |Base64(b)| ==> 0x21 <= Base64(b)[i] as int <= 0x7E
  {
    if |b| > 2 {
      Base64IsVisible(b[3..]);
    }
  }

  /** The header itself is visible ASCII, spaces allowed inside but not at the edges. */
  lemma HeaderIsVisible(v: string)
    ensures forall i :: 0 <= i < |EncodeHeaderValue(v)| ==> 0x20 <= EncodeHeaderValue(v)[i] as int <= 0x7E
    ensures !HasEdgeSpace(EncodeHeaderValue(v))
  {
    Base64IsVisible(EncodeUtf8(v));
    if !NeedsWrapping(v) {
      forall i | 0 <= i < |v| ensures 0x20 <= v[i] as int <= 0x7E {
        assert !IsInvisible(v[i]);
      }
    }
  }
}
