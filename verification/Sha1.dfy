/** The hand-written SHA-1 of `verify.rs` against FIPS 180-4. */
module Sha1 {
  import opened Common

  type Word = bv32

  // ---- FIPS 180-4, as written there ----

  /** Section 4.1.1. */
  function Ch(x: Word, y: Word, z: Word): Word { (x & y) ^ (!x & z) }

  function Parity(x: Word, y: Word, z: Word): Word { x ^ y ^ z }

  function Maj(x: Word, y: Word, z: Word): Word { (x & y) ^ (x & z) ^ (y & z) }

  function F(t: nat, x: Word, y: Word, z: Word): Word {
    if t < 20 then Ch(x, y, z) else if t < 40 then Parity(x, y, z) else if t < 60 then Maj(x, y, z) else Parity(x, y, z)
  }

  /** Section 4.2.1. */
  function K(t: nat): Word {
    if t < 20 then 0x5A827999 else if t < 40 then 0x6ED9EBA1 else if t < 60 then 0x8F1BBCDC else 0xCA62C1D6
  }

  datatype Hash = Hash(a: Word, b: Word, c: Word, d: Word, e: Word)

  /** Section 5.3.1. */
  const H0: Hash := Hash(0x67452301, 0xEFCDAB89, 0x98BADCFE, 0x10325476, 0xC3D2E1F0)

  /** `n` in `k` bytes, most significant first. */
  function BigEndian(n: nat, k: nat): (b: Bytes)
    ensures |b| == k
  {
    if k == 0 then [] else BigEndian(n / 256, k - 1) + [(n % 256) as Byte]
  }

  function Zeros(k: nat): (b: Bytes)
    ensures |b| == k
  {
    seq(k, i => 0)
  }

  /** The least number of zero bytes that leaves room for the length in the last block. */
  function ZeroCount(n: nat): (k: nat)
    ensures (n + 1 + k) % 64 == 56 && k < 64
  {
    (119 - n % 64) % 64
  }

  /** The length in bits, as the padding holds it. */
  function BitLength(n: nat): nat { 8 * n % 0x1_0000_0000_0000_0000 }

  function OneAndZeros(n: nat): (z: Bytes)
    ensures (n + |z| + 8) % 64 == 0
  {
    [0x80] + Zeros(ZeroCount(n))
  }

  /** Section 5.1.1: a one bit, zeros, and the length in bits, to a multiple of 512 bits. */
  function Padded(m: Bytes): (p: Bytes)
    ensures |p| % 64 == 0 && m <= p
  {
    m + OneAndZeros(|m|) + BigEndian(BitLength(|m|), 8)
  }

  /** Four bytes as a word, most significant first. */
  function WordOf(p: Byte, q: Byte, r: Byte, s: Byte): Word {
    ((p as int as bv32) << 24) | ((q as int as bv32) << 16) | ((r as int as bv32) << 8) | (s as int as bv32)
  }

  /** How four bytes make a word; kept abstract wherever it does not matter. */
  type Reader = (Byte, Byte, Byte, Byte) -> Word

  function Mix(p: Word, q: Word, r: Word, s: Word): Word { (p ^ q ^ r ^ s).RotateLeft(1) }

  /** Word `t` of the message schedule of a block (section 6.1.2, step 1). */
  function W(word: Reader, block: Bytes, t: nat): Word
    requires |block| == 64
  {
    if t < 16 then word(block[4 * t], block[4 * t + 1], block[4 * t + 2], block[4 * t + 3])
    else Mix(W(word, block, t - 3), W(word, block, t - 8), W(word, block, t - 14), W(word, block, t - 16))
  }

  function Temp(a: Word, f: Word, e: Word, k: Word, w: Word): Word { a.RotateLeft(5) + f + e + k + w }

  /** One turn of step 3. */
  function Turn(t: nat, w: Word, v: Hash): Hash {
    Hash(Temp(v.a, F(t, v.b, v.c, v.d), v.e, K(t), w), v.a, v.b.RotateLeft(30), v.c, v.d)
  }

  /** The working variables after the first `t` turns. */
  function Turns(word: Reader, block: Bytes, h: Hash, t: nat): Hash
    requires |block| == 64
  {
    if t == 0 then h else Turn(t - 1, W(word, block, t - 1), Turns(word, block, h, t - 1))
  }

  function Plus(x: Word, y: Word): Word { x + y }

  function Combine(f: (Word, Word) -> Word, v: Hash, h: Hash): Hash {
    Hash(f(v.a, h.a), f(v.b, h.b), f(v.c, h.c), f(v.d, h.d), f(v.e, h.e))
  }

  lemma CombineCommutes(f: (Word, Word) -> Word, v: Hash, h: Hash)
    requires forall x, y :: f(x, y) == f(y, x)
    ensures Combine(f, v, h) == Combine(f, h, v)
  {
  }

  lemma PlusCommutes()
    ensures forall x, y :: Plus(x, y) == Plus(y, x)
  {
  }

  /** Step 4: the intermediate hash value after one more block. */
  function Absorb(word: Reader, block: Bytes, h: Hash): Hash
    requires |block| == 64
  {
    Combine(Plus, Turns(word, block, h, 80), h)
  }

  function AbsorbAll(word: Reader, p: Bytes, n: nat): Hash
    requires 64 * n <= |p|
  {
    if n == 0 then H0 else Absorb(word, p[64 * (n - 1)..64 * n], AbsorbAll(word, p, n - 1))
  }

  function Digest(m: Bytes): Hash { AbsorbAll(WordOf, Padded(m), |Padded(m)| / 64) }

  function HexChar(n: nat): char
    requires n < 16
  {
    if n < 10 then ('0' as int + n) as char else ('a' as int + n - 10) as char
  }

  function Hex8(w: Word): string { HexOf(w as nat, 8) }

  function HexOf(n: nat, k: nat): (s: string)
    ensures |s| == k
  {
    if k == 0 then [] else HexOf(n / 16, k - 1) + [HexChar(n % 16)]
  }

  /** A number in base 16, lowercase digits only. */
  function ReadHex(s: string): Option<nat> {
    if s == [] then Some(0)
    else
      var c := s[|s| - 1];
      match ReadHex(s[..|s| - 1])
      case None => None
      case Some(n) =>
        if '0' <= c <= '9' then Some(16 * n + (c as int - '0' as int))
        else if 'a' <= c <= 'f' then Some(16 * n + 10 + (c as int - 'a' as int))
        else None
  }

  function Pow16(k: nat): nat { if k == 0 then 1 else 16 * Pow16(k - 1) }

  /** The digits give the number back. */
  lemma {:induction false} HexIsRead(n: nat, k: nat)
    requires n < Pow16(k)
    ensures ReadHex(HexOf(n, k)) == Some(n)
  {
    if k > 0 {
      HexIsRead(n / 16, k - 1);
      assert HexOf(n, k)[..k - 1] == HexOf(n / 16, k - 1);
    }
  }

  lemma WordIsRead(w: Word)
    ensures |Hex8(w)| == 8 && ReadHex(Hex8(w)) == Some(w as nat)
  {
    assert Pow16(4) == 0x1_0000 && Pow16(8) == 0x1_0000_0000;
    HexIsRead(w as nat, 8);
  }

  /** So the forty digits are the five words, eight digits each. */
  lemma DigestIsRead(h: Hash)
    ensures
      var s := HexDigest(h);
      && |s| == 40 && ReadHex(s[..8]) == Some(h.a as nat) && ReadHex(s[8..16]) == Some(h.b as nat)
      && ReadHex(s[16..24]) == Some(h.c as nat) && ReadHex(s[24..32]) == Some(h.d as nat)
      && ReadHex(s[32..]) == Some(h.e as nat)
  {
    WordIsRead(h.a);
    WordIsRead(h.b);
    WordIsRead(h.c);
    WordIsRead(h.d);
    WordIsRead(h.e);
    FiveEights(Hex8(h.a), Hex8(h.b), Hex8(h.c), Hex8(h.d), Hex8(h.e));
  }

  lemma FiveEights(a: string, b: string, c: string, d: string, e: string)
    requires |a| == |b| == |c| == |d| == |e| == 8
    ensures var s := a + b + c + d + e;
            |s| == 40 && s[..8] == a && s[8..16] == b && s[16..24] == c && s[24..32] == d && s[32..] == e
  {
  }

  function HexDigest(h: Hash): string { Hex8(h.a) + Hex8(h.b) + Hex8(h.c) + Hex8(h.d) + Hex8(h.e) }

  // ---- The code's forms ----

  /** The choice function written with or. */
  lemma ChWithOr(x: Word, y: Word, z: Word)
    ensures (x & y) | (!x & z) == Ch(x, y, z)
  {
  }

  /** The majority function written with or. */
  lemma MajWithOr(x: Word, y: Word, z: Word)
    ensures (x & y) | (x & z) | (y & z) == Maj(x, y, z)
  {
  }

  function CodeCh(x: Word, y: Word, z: Word): (f: Word)
    ensures f == Ch(x, y, z)
  {
    ChWithOr(x, y, z);
    (x & y) | (!x & z)
  }

  function CodeMaj(x: Word, y: Word, z: Word): (f: Word)
    ensures f == Maj(x, y, z)
  {
    MajWithOr(x, y, z);
    (x & y) | (x & z) | (y & z)
  }

  /** The round function as the code picks it. */
  function CodeF(t: nat, b: Word, c: Word, d: Word): (f: Word)
    ensures f == F(t, b, c, d)
  {
    if t <= 19 then CodeCh(b, c, d)
    else if t <= 39 then b ^ c ^ d
    else if t <= 59 then CodeMaj(b, c, d)
    else b ^ c ^ d
  }

  function CodeK(t: nat): (k: Word)
    ensures k == K(t)
  {
    if t <= 19 then 0x5A827999 else if t <= 39 then 0x6ED9EBA1 else if t <= 59 then 0x8F1BBCDC else 0xCA62C1D6
  }

  // ---- The method ----

  /** Pad a copy of the message in place. */
  method Pad(bytes: Bytes) returns (msg: Bytes)
    ensures msg == Padded(bytes)
  {
    var bitLen := BitLength(|bytes|);
    msg := bytes + [0x80];
    var k := 0;
    assert msg + Zeros(0) == msg;
    while |msg| % 64 != 56
      invariant k <= ZeroCount(|bytes|) && msg == bytes + [0x80] + Zeros(k)
      decreases ZeroCount(|bytes|) - k
    {
      LeastZeros(|bytes|, k);
      assert Zeros(k + 1) == Zeros(k) + [0];
      msg := msg + [0];
      k := k + 1;
    }
    LeastZeros(|bytes|, k);
    assert msg == bytes + OneAndZeros(|bytes|);
    msg := msg + BigEndian(bitLen, 8);
  }

  lemma LeastZeros(n: nat, k: nat)
    requires k <= ZeroCount(n)
    ensures (n + 1 + k) % 64 == 56 <==> k == ZeroCount(n)
  {
  }

  /** Fill the schedule of one block. */
  method Schedule(word: Reader, chunk: Bytes) returns (w: array<Word>)
    requires |chunk| == 64
    ensures w.Length == 80 && fresh(w) && forall t :: 0 <= t < 80 ==> w[t] == W(word, chunk, t)
  {
    w := new Word[80](_ => 0);
    for i := 0 to 16
      invariant forall t :: 0 <= t < i ==> w[t] == W(word, chunk, t)
    {
      w[i] := word(chunk[4 * i], chunk[4 * i + 1], chunk[4 * i + 2], chunk[4 * i + 3]);
    }
    for i := 16 to 80
      invariant forall t :: 0 <= t < i ==> w[t] == W(word, chunk, t)
    {
      w[i] := Mix(w[i - 3], w[i - 8], w[i - 14], w[i - 16]);
    }
  }

  /** The code adds in the other order. */
  lemma SumsCommute(v: Hash, h: Hash)
    ensures Combine(Plus, v, h) == Combine(Plus, h, v)
  {
    PlusCommutes();
    CombineCommutes(Plus, v, h);
  }

  /** Eighty turns over one block. */
  method Compress(word: Reader, chunk: Bytes, h: Hash) returns (next: Hash)
    requires |chunk| == 64
    ensures next == Absorb(word, chunk, h)
  {
    var w := Schedule(word, chunk);
    var v := Rounds(word, chunk, w, h);
    SumsCommute(v, h);
    next := Combine(Plus, h, v);
  }

  /** The eighty turns, with the five working variables shifted one by one. */
  method Rounds(word: Reader, chunk: Bytes, w: array<Word>, h: Hash) returns (v: Hash)
    requires |chunk| == 64 && w.Length == 80 && forall t :: 0 <= t < 80 ==> w[t] == W(word, chunk, t)
    ensures v == Turns(word, chunk, h, 80)
  {
    var a, b, c, d, e := h.a, h.b, h.c, h.d, h.e;
    for i := 0 to 80
      invariant Hash(a, b, c, d, e) == Turns(word, chunk, h, i)
    {
      TurnsUnfold(word, chunk, h, i);
      var tmp := Temp(a, CodeF(i, b, c, d), e, CodeK(i), w[i]);
      e := d;
      d := c;
      c := b.RotateLeft(30);
      b := a;
      a := tmp;
    }
    v := Hash(a, b, c, d, e);
  }

  lemma TurnsUnfold(word: Reader, block: Bytes, h: Hash, t: nat)
    requires |block| == 64
    ensures Turns(word, block, h, t + 1) == Turn(t, W(word, block, t), Turns(word, block, h, t))
  {
  }

  /** Every block in turn, from the initial hash value. */
  method HashBlocks(word: Reader, msg: Bytes) returns (h: Hash)
    ensures h == AbsorbAll(word, msg, |msg| / 64)
  {
    h := Hash(0x67452301, 0xEFCDAB89, 0x98BADCFE, 0x10325476, 0xC3D2E1F0);
    for n := 0 to |msg| / 64
      invariant h == AbsorbAll(word, msg, n)
    {
      h := Compress(word, msg[64 * n..64 * (n + 1)], h);
    }
  }

  method Sha1Hex(bytes: Bytes) returns (hex: string)
    ensures hex == HexDigest(Digest(bytes))
  {
    var msg := Pad(bytes);
    var h := HashBlocks(WordOf, msg);
    hex := HexDigest(h);
  }

  // ---- Padding keeps messages apart ----

  function Pow256(k: nat): nat { if k == 0 then 1 else 256 * Pow256(k - 1) }

  lemma {:induction false} BigEndianIsInjective(m: nat, n: nat, k: nat)
    requires m < Pow256(k) && n < Pow256(k) && BigEndian(m, k) == BigEndian(n, k)
    ensures m == n
  {
    if k > 0 {
      var x, y := BigEndian(m / 256, k - 1), BigEndian(n / 256, k - 1);
      assert (x + [(m % 256) as Byte])[..k - 1] == x && (y + [(n % 256) as Byte])[..k - 1] == y;
      assert (x + [(m % 256) as Byte])[k - 1] == (y + [(n % 256) as Byte])[k - 1];
      BigEndianIsInjective(m / 256, n / 256, k - 1);
    }
  }

  /** Two messages short enough for their length field never pad to the same bytes. */
  lemma PaddingIsInjective(m: Bytes, n: Bytes)
    requires |m| < 0x2000_0000_0000_0000 && |n| < 0x2000_0000_0000_0000 && Padded(m) == Padded(n)
    ensures m == n
  {
    PaddedEnds(m);
    PaddedEnds(n);
    EightBytes();
    BitLengthFits(|m|);
    BitLengthFits(|n|);
    BigEndianIsInjective(8 * |m|, 8 * |n|, 8);
  }

  lemma EightBytes()
    ensures Pow256(8) == 0x1_0000_0000_0000_0000
  {
    assert Pow256(2) == 0x1_0000 && Pow256(4) == 0x1_0000_0000 && Pow256(6) == 0x1_0000_0000_0000;
  }

  lemma BitLengthFits(n: nat)
    requires n < 0x2000_0000_0000_0000
    ensures BitLength(n) == 8 * n < 0x1_0000_0000_0000_0000
  {
  }

  /** The length field counts bits in 64 bits: it starts again after as many bytes as fill it. */
  lemma BitLengthWraps(n: nat)
    ensures BitLength(n + 0x2000_0000_0000_0000) == BitLength(n) < 0x1_0000_0000_0000_0000
  {
  }

  lemma PaddedEnds(m: Bytes)
    ensures |Padded(m)| >= 8 && Padded(m)[|Padded(m)| - 8..] == BigEndian(BitLength(|m|), 8) && Padded(m)[..|m|] == m
  {
    SplitEnds(m, OneAndZeros(|m|), BigEndian(BitLength(|m|), 8));
  }

  lemma SplitEnds(x: Bytes, y: Bytes, z: Bytes)
    ensures (x + y + z)[|x + y + z| - |z|..] == z && (x + y + z)[..|x|] == x
  {
  }
}
