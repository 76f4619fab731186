/** The digest of "abc", the first example of FIPS 180, worked out from the definitions. */
module Sha1Example {
  import opened Common
  import opened Sha1

  const ABC: Bytes := [0x61, 0x62, 0x63]

  /** The one block it pads to. */
  const BLOCK: Bytes := [0x61, 0x62, 0x63, 0x80] + Zeros(59) + [0x18]

  lemma BlockIsPadded()
    ensures Padded(ABC) == BLOCK && |BLOCK| == 64
  {
    assert BitLength(3) == 24 && ZeroCount(3) == 52;
    SmallNumber(8);
    assert Padded(ABC) == ABC + ([0x80] + Zeros(52)) + (Zeros(7) + [0x18]);
  }

  lemma SmallNumber(k: nat)
    requires k > 0
    ensures BigEndian(24, k) == Zeros(k - 1) + [0x18]
  {
    assert BigEndian(24, k) == BigEndian(0, k - 1) + [0x18];
    ZeroNumber(k - 1);
  }

  lemma {:induction false} ZeroNumber(k: nat)
    ensures BigEndian(0, k) == Zeros(k)
  {
    if k > 0 { ZeroNumber(k - 1); }
  }

  /** Sixteen words in a row of the schedule. */
  datatype Window = Window(a: Four, b: Four, c: Four, d: Four)

  datatype Four = Four(p: Word, q: Word, r: Word, s: Word)

  ghost predicate At(block: Bytes, t: nat, f: Four)
    requires |block| == 64
  {
    && W(WordOf, block, t) == f.p && W(WordOf, block, t + 1) == f.q
    && W(WordOf, block, t + 2) == f.r && W(WordOf, block, t + 3) == f.s
  }

  ghost predicate IsWindow(block: Bytes, t: nat, w: Window)
    requires |block| == 64
  {
    At(block, t, w.a) && At(block, t + 4, w.b) && At(block, t + 8, w.c) && At(block, t + 12, w.d)
  }

  /** The four words after a window. */
  function NextFour(w: Window): Four {
    var p := Mix(w.d.q, w.c.p, w.a.r, w.a.p);
    Four(p, Mix(w.d.r, w.c.q, w.a.s, w.a.q), Mix(w.d.s, w.c.r, w.b.p, w.a.r), Mix(p, w.c.s, w.b.q, w.a.s))
  }

  lemma NextFourIs(block: Bytes, t: nat, w: Window, f: Four)
    requires |block| == 64 && IsWindow(block, t, w) && f == NextFour(w)
    ensures At(block, t + 16, f) && IsWindow(block, t + 4, Window(w.b, w.c, w.d, f))
  {
    assert W(WordOf, block, t + 16) == f.p;
  }

  /** The window sixteen words on. */
  function NextWindow(w: Window): Window {
    var a := NextFour(w);
    var b := NextFour(Window(w.b, w.c, w.d, a));
    var c := NextFour(Window(w.c, w.d, a, b));
    Window(a, b, c, NextFour(Window(w.d, a, b, c)))
  }

  lemma NextWindowIs(block: Bytes, t: nat, w: Window, v: Window)
    requires |block| == 64 && IsWindow(block, t, w) && v == NextWindow(w)
    ensures IsWindow(block, t + 16, v)
  {
    NextFourIs(block, t, w, v.a);
    NextFourIs(block, t + 4, Window(w.b, w.c, w.d, v.a), v.b);
    NextFourIs(block, t + 8, Window(w.c, w.d, v.a, v.b), v.c);
    NextFourIs(block, t + 12, Window(w.d, v.a, v.b, v.c), v.d);
  }

  function FourTurns(t: nat, f: Four, h: Hash): Hash {
    Turn(t + 3, f.s, Turn(t + 2, f.r, Turn(t + 1, f.q, Turn(t, f.p, h))))
  }

  function SixteenTurns(t: nat, w: Window, h: Hash): Hash {
    FourTurns(t + 12, w.d, FourTurns(t + 8, w.c, FourTurns(t + 4, w.b, FourTurns(t, w.a, h))))
  }

  lemma FourTurnsAre(block: Bytes, t: nat, f: Four, h: Hash)
    requires |block| == 64 && At(block, t, f)
    ensures Turns(WordOf, block, h, t + 4) == FourTurns(t, f, Turns(WordOf, block, h, t))
  {
    TurnsUnfold(WordOf, block, h, t);
    TurnsUnfold(WordOf, block, h, t + 1);
    TurnsUnfold(WordOf, block, h, t + 2);
    TurnsUnfold(WordOf, block, h, t + 3);
  }

  lemma SixteenTurnsAre(block: Bytes, t: nat, w: Window, h: Hash, from: Hash, to: Hash)
    requires |block| == 64 && IsWindow(block, t, w)
    requires Turns(WordOf, block, h, t) == from && SixteenTurns(t, w, from) == to
    ensures Turns(WordOf, block, h, t + 16) == to
  {
    FourTurnsAre(block, t, w.a, h);
    FourTurnsAre(block, t + 4, w.b, h);
    FourTurnsAre(block, t + 8, w.c, h);
    FourTurnsAre(block, t + 12, w.d, h);
  }

  // ---- The values ----

  const W0: Window := Window(
    Four(0x61626380, 0x00000000, 0x00000000, 0x00000000), Four(0x00000000, 0x00000000, 0x00000000, 0x00000000),
    Four(0x00000000, 0x00000000, 0x00000000, 0x00000000), Four(0x00000000, 0x00000000, 0x00000000, 0x00000018))
  const W16: Window := Window(
    Four(0xC2C4C700, 0x00000000, 0x00000030, 0x85898E01), Four(0x00000000, 0x00000060, 0x0B131C03, 0x00000030),
    Four(0x85898EC1, 0x16263806, 0x00000000, 0x00000180), Four(0x2C4C700C, 0x000000F0, 0x93AFB507, 0x5898E048))
  const W32: Window := Window(
    Four(0x8E9A9202, 0x00000600, 0xB131C0F0, 0x16263BC6), Four(0x4EBED41E, 0x626380A1, 0x16263806, 0x000018C0),
    Four(0xD2E138C4, 0x00000F00, 0x3AFB5079, 0x898E04E5), Four(0xE2BA3C2B, 0x000060C0, 0x053A37CD, 0x74458547))
  const W48: Window := Window(
    Four(0xDA9415ED, 0x26380A16, 0x626383A1, 0x4EBF54DE), Four(0x3835B44B, 0x0000F600, 0x1E84C7A3, 0x98E04D98),
    Four(0x651D16A0, 0x62658CA1, 0x458544D6, 0x44584CB7), Four(0x7BA06619, 0x6380AEA2, 0x0AE55269, 0x627B49A1))
  const W64: Window := Window(
    Four(0x7CD45C9D, 0x000F0000, 0xFB50753A, 0xEC6765E8), Four(0xBA3C2BE2, 0x0060C000, 0x3A37CD05, 0x458546F4),
    Four(0xB8599DD6, 0x380A1A26, 0x01E02203, 0xE7CC3456), Four(0xE6E60B69, 0x00F60A00, 0x5795EF4F, 0x822E0879))

  const H16: Hash := Hash(0x20BDD62F, 0x196BEE77, 0x644A3DA5, 0x1181ED99, 0x18C623F9)
  const H32: Hash := Hash(0x3B845D33, 0x1267B407, 0x717EEBD7, 0xA0DC2D4B, 0xD2AA1365)
  const H48: Hash := Hash(0xBEAD02CA, 0xA01B846C, 0x8714787C, 0x503CA382, 0xFB86C6AB)
  const H64: Hash := Hash(0x6B61C9E1, 0xB66C020B, 0x9523272C, 0xF5D5B051, 0x8FD4B796)
  const H80: Hash := Hash(0x42541B35, 0x5738D5E1, 0x21834873, 0x681E6DF6, 0xD8FDF6AD)

  /** The schedule and the working variables at turn `t`. */
  ghost predicate Reached(block: Bytes, t: nat, w: Window, h: Hash)
    requires |block| == 64
  {
    IsWindow(block, t, w) && Turns(WordOf, block, H0, t) == h
  }

  lemma Reach(block: Bytes, t: nat, w: Window, v: Window, from: Hash, to: Hash)
    requires |block| == 64 && Reached(block, t, w, from) && v == NextWindow(w) && SixteenTurns(t, w, from) == to
    ensures Reached(block, t + 16, v, to)
  {
    NextWindowIs(block, t, w, v);
    SixteenTurnsAre(block, t, w, H0, from, to);
  }

  lemma Reach16(block: Bytes, t: nat)
    requires |block| == 64 && t == 0 && Reached(block, t, W0, H0)
    ensures Reached(block, 16, W16, H16)
  {
    NextWindowIs(block, t, W0, W16);
    SixteenTurnsAre(block, t, W0, H0, H0, H16);
    assert t + 16 == 16;
  }

  lemma Reach32(block: Bytes)
    requires |block| == 64 && Reached(block, 16, W16, H16)
    ensures Reached(block, 32, W32, H32)
  {
    Reach(block, 16, W16, W32, H16, H32);
  }

  lemma Reach48(block: Bytes)
    requires |block| == 64 && Reached(block, 32, W32, H32)
    ensures Reached(block, 48, W48, H48)
  {
    Reach(block, 32, W32, W48, H32, H48);
  }

  lemma Reach64(block: Bytes)
    requires |block| == 64 && Reached(block, 48, W48, H48)
    ensures Reached(block, 64, W64, H64)
  {
    Reach(block, 48, W48, W64, H48, H64);
  }

  lemma Reach80(block: Bytes)
    requires |block| == 64 && Reached(block, 64, W64, H64)
    ensures Turns(WordOf, block, H0, 80) == H80
  {
    SixteenTurnsAre(block, 64, W64, H0, H64, H80);
  }

  lemma FirstWords(block: Bytes)
    requires |block| == 64 && block[0] == 0x61 && block[1] == 0x62 && block[2] == 0x63 && block[3] == 0x80
    requires (forall i :: 4 <= i < 63 ==> block[i] == 0) && block[63] == 0x18
    ensures IsWindow(block, 0, W0)
  {
    assert WordOf(0x61, 0x62, 0x63, 0x80) == 0x61626380 && WordOf(0, 0, 0, 0) == 0 && WordOf(0, 0, 0, 0x18) == 0x18;
    forall t: nat | t < 16 ensures W(WordOf, block, t) == if t == 0 then 0x61626380 else if t == 15 then 0x18 else 0 {}
  }

  /** Sixteen turns at a time, to the last. */
  lemma EveryTurn(block: Bytes)
    requires |block| == 64 && Reached(block, 0, W0, H0)
    ensures Turns(WordOf, block, H0, 80) == H80
  {
    Reach16(block, 0);
    Reach32(block);
    Reach48(block);
    Reach64(block);
    Reach80(block);
  }

  /** Schedule, turns and padding, all constants included, come to the published digest. */
  lemma DigestOfAbc()
    ensures Digest(ABC) == Hash(0xA9993E36, 0x4706816A, 0xBA3E2571, 0x7850C26C, 0x9CD0D89D)
  {
    BlockIsPadded();
    FirstWords(BLOCK);
    EveryTurn(BLOCK);
    assert BLOCK[0..64] == BLOCK;
    assert AbsorbAll(WordOf, BLOCK, 1) == Absorb(WordOf, BLOCK, H0);
  }
}
