/**
 The published digest of "abc" (the one-block example FIPS 180-4 refers to), computed round by round: it fixes
 which rotations, variables and constants go into a digest, and in what order.
 */
module Sha256Vector {
  import opened Octets
  import opened Fips180

  /** The padded message: "abc", the bit 1, zeros, and the length of 24 bits. */
  function Block(): (b: Bytes)
    ensures |b| == 64
  {
    [97, 98, 99, 128] + Zeros(59) + [24]
  }

  /** Schedule word t; stated over any name of the block, so that a fact about one word stays a small fact. */
  ghost predicate Is(t: nat, w: Word) {
    t < 64 && forall b: Bytes :: |b| == 64 && b == Block() ==> W(b, t) == w
  }

  /** The working variables after t rounds, in the same way. */
  ghost predicate After(t: nat, v: Vars) {
    t <= 64 && forall b: Bytes :: |b| == 64 && b == Block() ==> Rounds(H0, b, t) == v
  }

  lemma Small(x2: bv32, x15: bv32, s1: bv32, s0: bv32)
    requires SmallSigma1Bits(x2) == s1 && SmallSigma0Bits(x15) == s0
    ensures SmallSigma1(x2 as Word) == s1 as Word && SmallSigma0(x15 as Word) == s0 as Word
  {
    hide SmallSigma0Bits, SmallSigma1Bits;
  }

  /** One more schedule word, from the four it depends on and the two sigma values. */
  lemma NextWord(t: nat, w2: bv32, w7: Word, w15: bv32, w16: Word, s1: bv32, s0: bv32, w: Word)
    requires 16 <= t < 64 && Is(t - 2, w2 as Word) && Is(t - 7, w7) && Is(t - 15, w15 as Word) && Is(t - 16, w16)
    requires SmallSigma1Bits(w2) == s1 && SmallSigma0Bits(w15) == s0
    requires Sum(s1 as int + w7 as int + s0 as int + w16 as int) == w
    ensures Is(t, w)
  {
    hide SmallSigma0, SmallSigma1, SmallSigma0Bits, SmallSigma1Bits, Block, Sum;
    Small(w2, w15, s1, s0);
  }

  lemma Big(x: bv32, y1: bv32, z: bv32, y0: bv32)
    requires BigSigma1Bits(x) == y1 && BigSigma0Bits(z) == y0
    ensures BigSigma1(x as Word) == y1 as Word && BigSigma0(z as Word) == y0 as Word
  {
    hide BigSigma0Bits, BigSigma1Bits;
  }

  lemma Choose(x: bv32, y: bv32, z: bv32, ch: bv32)
    requires ChBits(x, y, z) == ch
    ensures Ch(x as Word, y as Word, z as Word) == ch as Word
  {
    hide ChBits;
  }

  lemma Vote(x: bv32, y: bv32, z: bv32, maj: bv32)
    requires MajBits(x, y, z) == maj
    ensures Maj(x as Word, y as Word, z as Word) == maj as Word
  {
    hide MajBits;
  }

  lemma SumOfSums(x: int, y: int)
    ensures Sum(Sum(x) as int + Sum(y) as int) == Sum(x + y) && Sum(x + Sum(y) as int) == Sum(x + y)
  {
  }

  /** One round, from the values of the four functions: the new a and e, the others moved along. */
  lemma NextRound(t: nat, v: Vars, k: Word, w: Word, s1: Word, ch: Word, s0: Word, maj: Word, a: Word, e: Word)
    requires t < 64 && After(t, v) && RoundConstant(t) == k && Is(t, w)
    requires BigSigma1(v.e) == s1 && Ch(v.e, v.f, v.g) == ch && BigSigma0(v.a) == s0 && Maj(v.a, v.b, v.c) == maj
    requires
      var t1 := v.h as int + s1 as int + ch as int + k as int + w as int;
      Sum(t1 + (s0 as int + maj as int)) == a && Sum(v.d as int + t1) == e
    ensures After(t + 1, Vars(a, v.a, v.b, v.c, e, v.e, v.f, v.g))
  {
    hide BigSigma0, BigSigma1, Ch, Maj, Block, W, RoundConstant, Sum;
    var t1 := v.h as int + s1 as int + ch as int + k as int + w as int;
    SumOfSums(t1, s0 as int + maj as int);
    SumOfSums(v.d as int, t1);
  }

  /** One round on literals: old variables, constant, schedule word, the four function values, and the new a and e. */
  lemma Step(t: nat, a: bv32, b: bv32, c: bv32, d: bv32, e: bv32, f: bv32, g: bv32, h: bv32, k: Word, w: Word,
             s1: bv32, ch: bv32, s0: bv32, maj: bv32, a': Word, e': Word)
    requires t < 64 && RoundConstant(t) == k && Is(t, w)
    requires After(t, Vars(a as Word, b as Word, c as Word, d as Word, e as Word, f as Word, g as Word, h as Word))
    requires BigSigma1Bits(e) == s1 && ChBits(e, f, g) == ch && BigSigma0Bits(a) == s0 && MajBits(a, b, c) == maj
    requires
      var t1 := h as int + s1 as int + ch as int + k as int + w as int;
      Sum(t1 + (s0 as int + maj as int)) == a' && Sum(d as int + t1) == e'
    ensures After(t + 1, Vars(a', a as Word, b as Word, c as Word, e', e as Word, f as Word, g as Word))
  {
    hide *;
    Big(e, s1, a, s0);
    Choose(e, f, g, ch);
    Vote(a, b, c, maj);
    NextRound(t, Vars(a as Word, b as Word, c as Word, d as Word, e as Word, f as Word, g as Word, h as Word),
              k, w, s1 as Word, ch as Word, s0 as Word, maj as Word, a', e');
  }

  lemma EightWords(s: seq<Word>)
    requires |s| == 8
    ensures HexWords(s) == HexWord(s[0]) + HexWord(s[1]) + HexWord(s[2]) + HexWord(s[3])
                           + HexWord(s[4]) + HexWord(s[5]) + HexWord(s[6]) + HexWord(s[7])
  {
    hide HexWord;
    FewWords(s[..4]);
    assert s[..7][..6] == s[..6] && s[..6][..5] == s[..5] && s[..5][..4] == s[..4];
    assert HexWords(s[..5]) == HexWords(s[..4]) + HexWord(s[4]);
    assert HexWords(s[..6]) == HexWords(s[..5]) + HexWord(s[5]);
    assert HexWords(s[..7]) == HexWords(s[..6]) + HexWord(s[6]);
  }

  lemma FewWords(s: seq<Word>)
    requires |s| == 4
    ensures HexWords(s) == HexWord(s[0]) + HexWord(s[1]) + HexWord(s[2]) + HexWord(s[3])
  {
    hide HexWord;
    assert s[..3][..2] == s[..2] && s[..2][..1] == s[..1] && s[..1][..0] == [];
    assert HexWords(s[..1]) == HexWord(s[0]);
    assert HexWords(s[..2]) == HexWord(s[0]) + HexWord(s[1]);
    assert HexWords(s[..3]) == HexWords(s[..2]) + HexWord(s[2]);
  }

  lemma NextNibble(x: nat, k: nat, d: nat)
    requires d < 16
    ensures HexNibbles(16 * x + d, k + 1) == HexNibbles(x, k) + [HexDigit(d)]
  {
    hide HexDigit;
    assert (16 * x + d) / 16 == x && (16 * x + d) % 16 == d;
  }

  /** A word from its eight hex digits, four of the upper half and four of the lower. */
  lemma HexOf(w: Word, a: nat, b: nat, c: nat, d: nat, e: nat, f: nat, g: nat, h: nat)
    requires a < 16 && b < 16 && c < 16 && d < 16 && e < 16 && f < 16 && g < 16 && h < 16
    requires w as int == 16 * (16 * (16 * (16 * (16 * (16 * (16 * a + b) + c) + d) + e) + f) + g) + h
    ensures HexWord(w) == [HexDigit(a), HexDigit(b), HexDigit(c), HexDigit(d),
                           HexDigit(e), HexDigit(f), HexDigit(g), HexDigit(h)]
  {
    hide HexNibbles, HexDigit;
    var x2 := 16 * a + b;
    var x3 := 16 * x2 + c;
    var x4 := 16 * x3 + d;
    var x5 := 16 * x4 + e;
    var x6 := 16 * x5 + f;
    NoNibbles(a);
    NextNibble(0, 0, a);
    NextNibble(a, 1, b);
    NextNibble(x2, 2, c);
    NextNibble(x3, 3, d);
    NextNibble(x4, 4, e);
    NextNibble(x5, 5, f);
    NextNibble(x6, 6, g);
    NextNibble(16 * x6 + g, 7, h);
  }

  /** The character of a hex digit. */
  predicate Shows(s: char, d: nat) { s as int == if d < 10 then 48 + d else 87 + d }

  lemma Spelled(s: string, a: nat, b: nat, c: nat, d: nat, e: nat, f: nat, g: nat, h: nat)
    requires |s| == 8
    requires a < 16 && b < 16 && c < 16 && d < 16 && e < 16 && f < 16 && g < 16 && h < 16
    requires Shows(s[0], a) && Shows(s[1], b) && Shows(s[2], c) && Shows(s[3], d)
    requires Shows(s[4], e) && Shows(s[5], f) && Shows(s[6], g) && Shows(s[7], h)
    ensures Ascii(s) == [HexDigit(a), HexDigit(b), HexDigit(c), HexDigit(d),
                         HexDigit(e), HexDigit(f), HexDigit(g), HexDigit(h)]
  {
    hide Shows, Ascii, HexDigit;
    ShownAt(s, 0, a);
    ShownAt(s, 1, b);
    ShownAt(s, 2, c);
    ShownAt(s, 3, d);
    ShownAt(s, 4, e);
    ShownAt(s, 5, f);
    ShownAt(s, 6, g);
    ShownAt(s, 7, h);
  }

  lemma ShownAt(s: string, i: nat, d: nat)
    requires i < |s| && d < 16 && Shows(s[i], d)
    ensures Ascii(s)[i] == HexDigit(d)
  {
  }

  lemma NoNibbles(x: nat)
    ensures HexNibbles(0, 0) == []
  {
  }

  lemma MessageWords()
    ensures Is(0, 0x61626380) && Is(15, 24) && forall t :: 1 <= t < 15 ==> Is(t, 0)
  {
  }

  lemma Words16()
    ensures Is(16, 0x61626380) && Is(17, 0x000f0000) && Is(18, 0x7da86405) && Is(19, 0x600003c6)
    ensures Is(20, 0x3e9d7b78) && Is(21, 0x0183fc00) && Is(22, 0x12dcbfdb) && Is(23, 0xe2e2c38e)
  {
    hide Is, W, SmallSigma0, SmallSigma1;
    MessageWords();
    NextWord(16, 0x00000000, 0x00000000, 0x00000000, 0x61626380, 0x00000000, 0x00000000, 0x61626380);
    NextWord(17, 0x00000018, 0x00000000, 0x00000000, 0x00000000, 0x000f0000, 0x00000000, 0x000f0000);
    NextWord(18, 0x61626380, 0x00000000, 0x00000000, 0x00000000, 0x7da86405, 0x00000000, 0x7da86405);
    NextWord(19, 0x000f0000, 0x00000000, 0x00000000, 0x00000000, 0x600003c6, 0x00000000, 0x600003c6);
    NextWord(20, 0x7da86405, 0x00000000, 0x00000000, 0x00000000, 0x3e9d7b78, 0x00000000, 0x3e9d7b78);
    NextWord(21, 0x600003c6, 0x00000000, 0x00000000, 0x00000000, 0x0183fc00, 0x00000000, 0x0183fc00);
    NextWord(22, 0x3e9d7b78, 0x00000018, 0x00000000, 0x00000000, 0x12dcbfc3, 0x00000000, 0x12dcbfdb);
    NextWord(23, 0x0183fc00, 0x61626380, 0x00000000, 0x00000000, 0x8180600e, 0x00000000, 0xe2e2c38e);
  }

  lemma Words24()
    ensures Is(24, 0xc8215c1a) && Is(25, 0xb73679a2) && Is(26, 0xe5bc3909) && Is(27, 0x32663c5b)
    ensures Is(28, 0x9d209d67) && Is(29, 0xec8726cb) && Is(30, 0x702138a4) && Is(31, 0xd3b7973b)
  {
    hide Is, W, SmallSigma0, SmallSigma1;
    MessageWords();
    Words16();
    NextWord(24, 0x12dcbfdb, 0x000f0000, 0x00000000, 0x00000000, 0xc8125c1a, 0x00000000, 0xc8215c1a);
    NextWord(25, 0xe2e2c38e, 0x7da86405, 0x00000000, 0x00000000, 0x398e159d, 0x00000000, 0xb73679a2);
    NextWord(26, 0xc8215c1a, 0x600003c6, 0x00000000, 0x00000000, 0x85bc3543, 0x00000000, 0xe5bc3909);
    NextWord(27, 0xb73679a2, 0x3e9d7b78, 0x00000000, 0x00000000, 0xf3c8c0e3, 0x00000000, 0x32663c5b);
    NextWord(28, 0xe5bc3909, 0x0183fc00, 0x00000000, 0x00000000, 0x9b9ca167, 0x00000000, 0x9d209d67);
    NextWord(29, 0x32663c5b, 0x12dcbfdb, 0x00000000, 0x00000000, 0xd9aa66f0, 0x00000000, 0xec8726cb);
    NextWord(30, 0x9d209d67, 0xe2e2c38e, 0x00000018, 0x00000000, 0x5d387513, 0x30060003, 0x702138a4);
    NextWord(31, 0xec8726cb, 0xc8215c1a, 0x61626380, 0x00000018, 0x7787aa1a, 0x940e90ef, 0xd3b7973b);
  }

  lemma Words32()
    ensures Is(32, 0x93f5997f) && Is(33, 0x3b68ba73) && Is(34, 0xaff4ffc1) && Is(35, 0xf10a5c62)
    ensures Is(36, 0x0a8b3996) && Is(37, 0x72af830a) && Is(38, 0x9409e33e) && Is(39, 0x24641522)
  {
    hide Is, W, SmallSigma0, SmallSigma1;
    Words16();
    Words24();
    NextWord(32, 0x702138a4, 0xb73679a2, 0x000f0000, 0x61626380, 0xbb5abe5a, 0xc001fe03, 0x93f5997f);
    NextWord(33, 0xd3b7973b, 0xe5bc3909, 0x7da86405, 0x000f0000, 0x394e7e48, 0x1c4f0322, 0x3b68ba73);
    NextWord(34, 0x93f5997f, 0x32663c5b, 0x600003c6, 0x7da86405, 0x7fb4c6e2, 0x8031987f, 0xaff4ffc1);
    NextWord(35, 0x3b68ba73, 0x9d209d67, 0x3e9d7b78, 0x600003c6, 0x4a7920f7, 0xa9709a3e, 0xf10a5c62);
    NextWord(36, 0xaff4ffc1, 0xec8726cb, 0x0183fc00, 0x3e9d7b78, 0xe0331f3b, 0xff337818, 0x0a8b3996);
    NextWord(37, 0xf10a5c62, 0x702138a4, 0x12dcbfdb, 0x0183fc00, 0x65816433, 0x9b88ea33, 0x72af830a);
    NextWord(38, 0x0a8b3996, 0xd3b7973b, 0xe2e2c38e, 0x12dcbfdb, 0xfbfb66da, 0xb17a254e, 0x9409e33e);
    NextWord(39, 0x72af830a, 0x93f5997f, 0xc8215c1a, 0xe2e2c38e, 0x31f8dce2, 0x7b92db33, 0x24641522);
  }

  lemma Words40()
    ensures Is(40, 0x9f47bf94) && Is(41, 0xf0a64f5a) && Is(42, 0x3e246a79) && Is(43, 0x27333ba3)
    ensures Is(44, 0x0c4763f2) && Is(45, 0x840abf27) && Is(46, 0x7a290d5d) && Is(47, 0x065c43da)
  {
    hide Is, W, SmallSigma0, SmallSigma1;
    Words24();
    Words32();
    NextWord(40, 0x9409e33e, 0x3b68ba73, 0xb73679a2, 0xc8215c1a, 0xcddd9afd, 0xcde00e0a, 0x9f47bf94);
    NextWord(41, 0x24641522, 0xaff4ffc1, 0xe5bc3909, 0xb73679a2, 0x883c4fbb, 0x013e863c, 0xf0a64f5a);
    NextWord(42, 0x9f47bf94, 0xf10a5c62, 0x32663c5b, 0xe5bc3909, 0x281f0da4, 0x3f3ec76a, 0x3e246a79);
    NextWord(43, 0xf0a64f5a, 0x0a8b3996, 0x9d209d67, 0x32663c5b, 0xee7a0fd4, 0xfbc7b5de, 0x27333ba3);
    NextWord(44, 0x3e246a79, 0x72af830a, 0xec8726cb, 0x9d209d67, 0xb87c31cc, 0x43fb11b5, 0x0c4763f2);
    NextWord(45, 0x27333ba3, 0x9409e33e, 0x702138a4, 0xec8726cb, 0xfaac3bb1, 0x08cd796d, 0x840abf27);
    NextWord(46, 0x0c4763f2, 0x24641522, 0xd3b7973b, 0x702138a4, 0x5d845673, 0x881f6924, 0x7a290d5d);
    NextWord(47, 0x840abf27, 0x9f47bf94, 0x93f5997f, 0xd3b7973b, 0x0856302b, 0x8b06bce0, 0x065c43da);
  }

  lemma Words48()
    ensures Is(48, 0xfb3e89cb) && Is(49, 0xcc7617db) && Is(50, 0xb9e66c34) && Is(51, 0xa9993667)
    ensures Is(52, 0x84badedd) && Is(53, 0xc21462bc) && Is(54, 0x1487472c) && Is(55, 0xb20f7a99)
  {
    hide Is, W, SmallSigma0, SmallSigma1;
    Words32();
    Words40();
    NextWord(48, 0x7a290d5d, 0xf0a64f5a, 0x3b68ba73, 0x93f5997f, 0xa71b9812, 0xcf8708e0, 0xfb3e89cb);
    NextWord(49, 0x065c43da, 0x3e246a79, 0xaff4ffc1, 0x3b68ba73, 0xa997d4f5, 0xa9511dfa, 0xcc7617db);
    NextWord(50, 0xfb3e89cb, 0x27333ba3, 0xf10a5c62, 0xaff4ffc1, 0x95e24d5a, 0x4cdbe376, 0xb9e66c34);
    NextWord(51, 0xcc7617db, 0x0c4763f2, 0x0a8b3996, 0xf10a5c62, 0xc9258230, 0xe321f3e3, 0xa9993667);
    NextWord(52, 0xb9e66c34, 0x840abf27, 0x72af830a, 0x0a8b3996, 0xfbb2b254, 0xfa7233cc, 0x84badedd);
    NextWord(53, 0xa9993667, 0x7a290d5d, 0x9409e33e, 0x72af830a, 0xbdd547b2, 0x17668aa3, 0xc21462bc);
    NextWord(54, 0x84badedd, 0x065c43da, 0x24641522, 0x9409e33e, 0x34945c7d, 0x458cc397, 0x1487472c);
    NextWord(55, 0xc21462bc, 0xfb3e89cb, 0x9f47bf94, 0x24641522, 0xbd397c50, 0xd5335f5c, 0xb20f7a99);
  }

  lemma Words56()
    ensures Is(56, 0xef57b9cd) && Is(57, 0xebe6b238) && Is(58, 0x9fe3095e) && Is(59, 0x78bc8d4b)
    ensures Is(60, 0xa43fcf15) && Is(61, 0x668b2ff8) && Is(62, 0xeeaba2cc) && Is(63, 0x12b1edeb)
  {
    hide Is, W, SmallSigma0, SmallSigma1;
    Words40();
    Words48();
    NextWord(56, 0x1487472c, 0xcc7617db, 0xf0a64f5a, 0x9f47bf94, 0x4b76a902, 0x3823395c, 0xef57b9cd);
    NextWord(57, 0xb20f7a99, 0xb9e66c34, 0x3e246a79, 0xf0a64f5a, 0x52336c98, 0xef268a12, 0xebe6b238);
    NextWord(58, 0xef57b9cd, 0xa9993667, 0x27333ba3, 0x3e246a79, 0x2be49faf, 0x8c40c8cf, 0x9fe3095e);
    NextWord(59, 0xebe6b238, 0x84badedd, 0x0c4763f2, 0x27333ba3, 0x8f619123, 0x3d6ce1a8, 0x78bc8d4b);
    NextWord(60, 0x9fe3095e, 0xc21462bc, 0x840abf27, 0x0c4763f2, 0xe5a364cf, 0xf040a398, 0xa43fcf15);
    NextWord(61, 0x78bc8d4b, 0x1487472c, 0x7a290d5d, 0x840abf27, 0xd712fc6a, 0xf6e62d3b, 0x668b2ff8);
    NextWord(62, 0xa43fcf15, 0xb20f7a99, 0x065c43da, 0x7a290d5d, 0x1e41696b, 0xa431b16b, 0xeeaba2cc);
    NextWord(63, 0x668b2ff8, 0xef57b9cd, 0xfb3e89cb, 0x065c43da, 0xf21a9d5f, 0x2ae352e5, 0x12b1edeb);
  }

  lemma Rounds4()
    ensures After(4, Vars(0xd550f666, 0xc8c347a7, 0x5a6ad9ad, 0x5d6aebcd,
                  0x24e00850, 0xf92939eb, 0x78ce7989, 0xfa2a4622))
  {
    hide After, Is, BigSigma0, BigSigma1, Ch, Maj;
    NoRounds();
    MessageWords();
    Step(0, 0x6a09e667, 0xbb67ae85, 0x3c6ef372, 0xa54ff53a, 0x510e527f, 0x9b05688c, 0x1f83d9ab, 0x5be0cd19,
         0x428a2f98, 0x61626380, 0x3587272b, 0x1f85c98c, 0xce20b47e, 0x3a6fe667, 0x5d6aebcd, 0xfa2a4622);
    Step(1, 0x5d6aebcd, 0x6a09e667, 0xbb67ae85, 0x3c6ef372, 0xfa2a4622, 0x510e527f, 0x9b05688c, 0x1f83d9ab,
         0x71374491, 0x00000000, 0x5a94fd2d, 0x510f6aae, 0xa29f64d1, 0x7b6beec5, 0x5a6ad9ad, 0x78ce7989);
    Step(2, 0x5a6ad9ad, 0x5d6aebcd, 0x6a09e667, 0xbb67ae85, 0x78ce7989, 0xfa2a4622, 0x510e527f, 0x9b05688c,
         0xb5c0fbcf, 0x00000000, 0x73f0e495, 0x790a4276, 0x3096d054, 0x5a6aebed, 0xc8c347a7, 0xf92939eb);
    Step(3, 0xc8c347a7, 0x5a6ad9ad, 0x5d6aebcd, 0x6a09e667, 0xf92939eb, 0x78ce7989, 0xfa2a4622, 0x510e527f,
         0xe9b5dba5, 0x00000000, 0x0607743c, 0x7a0a7f89, 0xc21008d0, 0x586acbad, 0xd550f666, 0x24e00850);
  }

  lemma Rounds8()
    ensures After(8, Vars(0x85a07b5f, 0xe5030380, 0x2b4209f5, 0x04409a6a,
                  0x0c657a79, 0x9b27a401, 0x714260ad, 0x43ada245))
  {
    hide After, Is, BigSigma0, BigSigma1, Ch, Maj;
    Rounds4();
    MessageWords();
    Step(4, 0xd550f666, 0xc8c347a7, 0x5a6ad9ad, 0x5d6aebcd, 0x24e00850, 0xf92939eb, 0x78ce7989, 0xfa2a4622,
         0x3956c25b, 0x00000000, 0x3a933432, 0x782e79c9, 0x45bb0c4b, 0xd842d7a7, 0x04409a6a, 0x43ada245);
    Step(5, 0x04409a6a, 0xd550f666, 0xc8c347a7, 0x5a6ad9ad, 0x43ada245, 0x24e00850, 0xf92939eb, 0x78ce7989,
         0x59f111f1, 0x00000000, 0x8b77e19c, 0xb8a019ea, 0x5029ac8f, 0xc440d666, 0x2b4209f5, 0x714260ad);
    Step(6, 0x2b4209f5, 0x04409a6a, 0xd550f666, 0xc8c347a7, 0x714260ad, 0x43ada245, 0x24e00850, 0xf92939eb,
         0x923f82a4, 0x00000000, 0x015b7776, 0x45a02855, 0x0d5e0cc0, 0x05409a66, 0xe5030380, 0x9b27a401);
    Step(7, 0xe5030380, 0x2b4209f5, 0x04409a6a, 0xd550f666, 0x9b27a401, 0x714260ad, 0x43ada245, 0x24e00850,
         0xab1c5ed5, 0x00000000, 0x158dfaa9, 0x518a2245, 0x2949eb6c, 0x25420be0, 0x85a07b5f, 0x0c657a79);
  }

  lemma Rounds12()
    ensures After(12, Vars(0xf71fc5a9, 0x4798a3f4, 0x8c87346b, 0x8e04ecb9,
                  0x816fd6e9, 0x436b23e8, 0x1cc92596, 0x32ca2d8c))
  {
    hide After, Is, BigSigma0, BigSigma1, Ch, Maj;
    Rounds8();
    MessageWords();
    Step(8, 0x85a07b5f, 0xe5030380, 0x2b4209f5, 0x04409a6a, 0x0c657a79, 0x9b27a401, 0x714260ad, 0x43ada245,
         0xd807aa98, 0x00000000, 0x99ad25c0, 0x79272085, 0xba794dc2, 0xa5020bd5, 0x8e04ecb9, 0x32ca2d8c);
    Step(9, 0x8e04ecb9, 0x85a07b5f, 0xe5030380, 0x2b4209f5, 0x32ca2d8c, 0x0c657a79, 0x9b27a401, 0x714260ad,
         0x12835b01, 0x00000000, 0xe45bb7ea, 0x8965a809, 0x15ffad31, 0x85006b99, 0x8c87346b, 0x1cc92596);
    Step(10, 0x8c87346b, 0x8e04ecb9, 0x85a07b5f, 0xe5030380, 0x1cc92596, 0x32ca2d8c, 0x0c657a79, 0x9b27a401,
         0x243185be, 0x00000000, 0x8e2276bc, 0x10ec7fed, 0x5cac0711, 0x8c847c7b, 0x4798a3f4, 0x436b23e8);
    Step(11, 0x4798a3f4, 0x8c87346b, 0x8e04ecb9, 0x85a07b5f, 0x436b23e8, 0x1cc92596, 0x32ca2d8c, 0x0c657a79,
         0x550c7dc3, 0x00000000, 0x699435ca, 0x30c92d84, 0x6ccbc526, 0x8e84a4f9, 0xf71fc5a9, 0x816fd6e9);
  }

  lemma Rounds16()
    ensures After(16, Vars(0xb0fa238e, 0xc0645fde, 0xd932eb16, 0x87912990,
                  0x07590dcd, 0x0b92f20c, 0x745a48de, 0x1e578218))
  {
    hide After, Is, BigSigma0, BigSigma1, Ch, Maj;
    Rounds12();
    MessageWords();
    Step(12, 0xf71fc5a9, 0x4798a3f4, 0x8c87346b, 0x8e04ecb9, 0x816fd6e9, 0x436b23e8, 0x1cc92596, 0x32ca2d8c,
         0x72be5d74, 0x00000000, 0xccdee661, 0x1deb23fe, 0x2f9eee48, 0xc79fa5e9, 0x87912990, 0x1e578218);
    Step(13, 0x87912990, 0xf71fc5a9, 0x4798a3f4, 0x8c87346b, 0x1e578218, 0x816fd6e9, 0x436b23e8, 0x1cc92596,
         0x80deb1fe, 0x00000000, 0x08bb98f7, 0x416fa3e8, 0x29c634f3, 0xc799a1b0, 0xd932eb16, 0x745a48de);
    Step(14, 0xd932eb16, 0x87912990, 0xf71fc5a9, 0x4798a3f4, 0x745a48de, 0x1e578218, 0x816fd6e9, 0x436b23e8,
         0x9bdc06a7, 0x00000000, 0x4f3b8d50, 0x95779639, 0x25562836, 0xd713e990, 0xc0645fde, 0x0b92f20c);
    Step(15, 0xc0645fde, 0xd932eb16, 0x87912990, 0xf71fc5a9, 0x0b92f20c, 0x745a48de, 0x1e578218, 0x816fd6e9,
         0xc19bf174, 0x00000018, 0xb8d63f93, 0x1457401c, 0xdf906fd4, 0xc1306b96, 0xb0fa238e, 0x07590dcd);
  }

  lemma Rounds20()
    ensures After(20, Vars(0xe1f20c33, 0xfe777bbf, 0xc2fbd9d1, 0x21da9a9b,
                  0xb0638179, 0xcc899961, 0x846ee454, 0x8034229c))
  {
    hide After, Is, BigSigma0, BigSigma1, Ch, Maj;
    Rounds16();
    Words16();
    Step(16, 0xb0fa238e, 0xc0645fde, 0xd932eb16, 0x87912990, 0x07590dcd, 0x0b92f20c, 0x745a48de, 0x1e578218,
         0xe49b69c1, 0x61626380, 0x213b6995, 0x7312401e, 0x58c535f1, 0xd0726b9e, 0x21da9a9b, 0x8034229c);
    Step(17, 0x21da9a9b, 0xb0fa238e, 0xc0645fde, 0xd932eb16, 0x8034229c, 0x07590dcd, 0x0b92f20c, 0x745a48de,
         0xefbe4786, 0x000f0000, 0x3b81984e, 0x0b92d08c, 0x76c5c4f5, 0xa0fa1b9e, 0xc2fbd9d1, 0x846ee454);
    Step(18, 0xc2fbd9d1, 0x21da9a9b, 0xb0fa238e, 0xc0645fde, 0x846ee454, 0x8034229c, 0x07590dcd, 0x0b92f20c,
         0x0fc19dc6, 0x7da86405, 0xeff31c0f, 0x8335299d, 0x5157a6a1, 0xa0fa9b9b, 0xfe777bbf, 0xcc899961);
    Step(19, 0xfe777bbf, 0xc2fbd9d1, 0x21da9a9b, 0xb0fa238e, 0xcc899961, 0x846ee454, 0x8034229c, 0x07590dcd,
         0x240ca1cc, 0x600003c6, 0xefc707b0, 0x843ca2dc, 0xff8cd2ad, 0xe2fbdb9b, 0xe1f20c33, 0xb0638179);
  }

  lemma Rounds24()
    ensures After(24, Vars(0xc5d53d8d, 0xa7a3623f, 0xc2606d6d, 0x9dc68b63,
                  0xaa47c347, 0x49f5114a, 0xe1257970, 0x8ada8930))
  {
    hide After, Is, BigSigma0, BigSigma1, Ch, Maj;
    Rounds20();
    Words16();
    Step(20, 0xe1f20c33, 0xfe777bbf, 0xc2fbd9d1, 0x21da9a9b, 0xb0638179, 0xcc899961, 0x846ee454, 0x8034229c,
         0x2de92c6f, 0x3e9d7b78, 0xf8373ead, 0x840de565, 0x51d3431b, 0xe2f359b3, 0x9dc68b63, 0x8ada8930);
    Step(21, 0x9dc68b63, 0xe1f20c33, 0xfe777bbf, 0xc2fbd9d1, 0x8ada8930, 0xb0638179, 0xcc899961, 0x846ee454,
         0x4a7484aa, 0x0183fc00, 0x897ea930, 0xc4439171, 0xa640c29b, 0xfdf60b33, 0xc2606d6d, 0xe1257970);
    Step(22, 0xc2606d6d, 0x9dc68b63, 0xe1f20c33, 0xfe777bbf, 0xe1257970, 0x8ada8930, 0xb0638179, 0xcc899961,
         0x5cb0a9dc, 0x12dcbfdb, 0x7f24093a, 0x90428939, 0x9a43bf51, 0xc1e20d63, 0xa7a3623f, 0x49f5114a);
    Step(23, 0xa7a3623f, 0xc2606d6d, 0x9dc68b63, 0xe1f20c33, 0x49f5114a, 0xe1257970, 0x8ada8930, 0xb0638179,
         0x76f988da, 0xe2e2c38e, 0xfae64fc3, 0xc32f9970, 0x759d1b0a, 0x87e26b6f, 0xc5d53d8d, 0xaa47c347);
  }

  lemma Rounds28()
    ensures After(28, Vars(0x77d37528, 0xb62ec4bc, 0xcde8037d, 0x1c2c2838,
                  0xedffbff8, 0xc74c6516, 0x14383d8e, 0x2823ef91))
  {
    hide After, Is, BigSigma0, BigSigma1, Ch, Maj;
    Rounds24();
    Words24();
    Step(24, 0xc5d53d8d, 0xa7a3623f, 0xc2606d6d, 0x9dc68b63, 0xaa47c347, 0x49f5114a, 0xe1257970, 0x8ada8930,
         0x983e5152, 0xc8215c1a, 0x55bdf420, 0x49653972, 0xc9ed56dd, 0xc7e16d2d, 0x1c2c2838, 0x2823ef91);
    Step(25, 0x1c2c2838, 0xc5d53d8d, 0xa7a3623f, 0xc2606d6d, 0x2823ef91, 0xaa47c347, 0x49f5114a, 0xe1257970,
         0xa831c66d, 0xb73679a2, 0xa7724357, 0x69d7d34b, 0xf66b0b1f, 0x85a5283d, 0xcde8037d, 0x14383d8e);
    Step(26, 0xcde8037d, 0x1c2c2838, 0xc5d53d8d, 0xa7a3623f, 0x14383d8e, 0x2823ef91, 0xaa47c347, 0x49f5114a,
         0xb00327c8, 0xe5bc3909, 0x958ca0fb, 0xaa67efc1, 0xc89998a8, 0xcdec293d, 0xb62ec4bc, 0xc74c6516);
    Step(27, 0xb62ec4bc, 0xcde8037d, 0x1c2c2838, 0xc5d53d8d, 0xc74c6516, 0x14383d8e, 0x2823ef91, 0xaa47c347,
         0xbf597fc7, 0x32663c5b, 0x5ff7537b, 0x2c2baf87, 0xb37cf281, 0x9c2c003c, 0x77d37528, 0xedffbff8);
  }

  lemma Rounds32()
    ensures After(32, Vars(0x73b33bf5, 0xea992a22, 0xa0060b30, 0x363482c9,
                  0xba591112, 0x0109ab3a, 0xade79437, 0x6112a3b7))
  {
    hide After, Is, BigSigma0, BigSigma1, Ch, Maj;
    Rounds28();
    Words24();
    Step(28, 0x77d37528, 0xb62ec4bc, 0xcde8037d, 0x1c2c2838, 0xedffbff8, 0xc74c6516, 0x14383d8e, 0x2823ef91,
         0xc6e00bf3, 0x9d209d67, 0xe375bd7e, 0xd54c2516, 0xf963c20e, 0xf7ea453c, 0x363482c9, 0x6112a3b7);
    Step(29, 0x363482c9, 0x77d37528, 0xb62ec4bc, 0xcde8037d, 0x6112a3b7, 0xedffbff8, 0xc74c6516, 0x14383d8e,
         0xd5a79147, 0xec8726cb, 0x2239b36a, 0xe75ee7b0, 0x89cfb5ce, 0x3636c4a8, 0xa0060b30, 0xade79437);
    Step(30, 0xa0060b30, 0x363482c9, 0x77d37528, 0xb62ec4bc, 0xade79437, 0x6112a3b7, 0xedffbff8, 0xc74c6516,
         0x06ca6351, 0x702138a4, 0xab883974, 0x611aabff, 0x69a8407c, 0x36160328, 0xea992a22, 0x0109ab3a);
    Step(31, 0xea992a22, 0xa0060b30, 0x363482c9, 0x77d37528, 0x0109ab3a, 0xade79437, 0x6112a3b7, 0xedffbff8,
         0x14292967, 0xd3b7973b, 0x0b919a99, 0x611380b7, 0x8f1995eb, 0xa2140a20, 0x73b33bf5, 0xba591112);
  }

  lemma Rounds36()
    ensures After(36, Vars(0x65a0cfe4, 0xa9a7738c, 0xfe604df5, 0x98e12507,
                  0xf4b002d6, 0x085f3833, 0x59249dd3, 0x9cd9f5f6))
  {
    hide After, Is, BigSigma0, BigSigma1, Ch, Maj;
    Rounds32();
    Words32();
    Step(32, 0x73b33bf5, 0xea992a22, 0xa0060b30, 0x363482c9, 0xba591112, 0x0109ab3a, 0xade79437, 0x6112a3b7,
         0x27b70a85, 0x93f5997f, 0x4436a63b, 0x05af8537, 0x4fa886aa, 0xe2932b30, 0x98e12507, 0x9cd9f5f6);
    Step(33, 0x98e12507, 0x73b33bf5, 0xea992a22, 0xa0060b30, 0x9cd9f5f6, 0xba591112, 0x0109ab3a, 0xade79437,
         0x2e1b2138, 0x3b68ba73, 0x085a07a7, 0x99591b1a, 0x4a90902b, 0xfab12b27, 0xfe604df5, 0x59249dd3);
    Step(34, 0xfe604df5, 0x98e12507, 0x73b33bf5, 0xea992a22, 0x59249dd3, 0x9cd9f5f6, 0xba591112, 0x0109ab3a,
         0x4d2c6dfc, 0xaff4ffc1, 0x65415f48, 0xba5995d2, 0x91003786, 0xfae12df5, 0xa9a7738c, 0x085f3833);
    Step(35, 0xa9a7738c, 0xfe604df5, 0x98e12507, 0x73b33bf5, 0x085f3833, 0x59249dd3, 0x9cd9f5f6, 0xba591112,
         0x53380d13, 0xf10a5c62, 0xe5dc6e83, 0x9c84ddd7, 0x2bc2a37e, 0xb8e16585, 0x65a0cfe4, 0xf4b002d6);
  }

  lemma Rounds40()
    ensures After(40, Vars(0x79ea687a, 0x6dc57a8a, 0x34df1604, 0x41a65cb1,
                  0x1efbc0a0, 0xf0781bc8, 0xa507a53d, 0x0772a26b))
  {
    hide After, Is, BigSigma0, BigSigma1, Ch, Maj;
    Rounds36();
    Words32();
    Step(36, 0x65a0cfe4, 0xa9a7738c, 0xfe604df5, 0x98e12507, 0xf4b002d6, 0x085f3833, 0x59249dd3, 0x9cd9f5f6,
         0x650a7354, 0x0a8b3996, 0x590d3d71, 0x09149d13, 0xe5748f69, 0xeda04fe4, 0x41a65cb1, 0x0772a26b);
    Step(37, 0x41a65cb1, 0x65a0cfe4, 0xa9a7738c, 0xfe604df5, 0x0772a26b, 0xf4b002d6, 0x085f3833, 0x59249dd3,
         0x766a0abb, 0x72af830a, 0x582c115e, 0x0c3d1a52, 0x2c915f18, 0x61a65fa4, 0x34df1604, 0xa507a53d);
    Step(38, 0x34df1604, 0x41a65cb1, 0x65a0cfe4, 0xa9a7738c, 0xa507a53d, 0x0772a26b, 0xf4b002d6, 0x085f3833,
         0x81c2c92e, 0x9409e33e, 0xd2f220b2, 0x55b2a2eb, 0xc14e73aa, 0x65a65ea4, 0x6dc57a8a, 0xf0781bc8);
    Step(39, 0x6dc57a8a, 0x34df1604, 0x41a65cb1, 0x65a0cfe4, 0xf0781bc8, 0xa507a53d, 0x0772a26b, 0xf4b002d6,
         0x92722c85, 0x24641522, 0x66d20b14, 0xa702a12b, 0x5ac8193e, 0x65c75e80, 0x79ea687a, 0x1efbc0a0);
  }

  lemma Rounds44()
    ensures After(44, Vars(0x9d4baf93, 0x17aa0dfe, 0xdf46652f, 0xd6670766,
                  0xfda24c2e, 0xdecd4715, 0x838b2711, 0x26352d63))
  {
    hide After, Is, BigSigma0, BigSigma1, Ch, Maj;
    Rounds40();
    Words40();
    Step(40, 0x79ea687a, 0x6dc57a8a, 0x34df1604, 0x41a65cb1, 0x1efbc0a0, 0xf0781bc8, 0xa507a53d, 0x0772a26b,
         0xa2bfe8a1, 0x9f47bf94, 0xe9986075, 0xb17c259d, 0x7408bcaa, 0x7dcf7a0a, 0xd6670766, 0x26352d63);
    Step(41, 0xd6670766, 0x79ea687a, 0x6dc57a8a, 0x34df1604, 0x26352d63, 0x1efbc0a0, 0xf0781bc8, 0xa507a53d,
         0xa81a664b, 0xf0a64f5a, 0x3a6aa383, 0xd67912a8, 0x12b2e9b8, 0x7de76a6a, 0xdf46652f, 0x838b2711);
    Step(42, 0xdf46652f, 0xd6670766, 0x79ea687a, 0x6dc57a8a, 0x838b2711, 0x26352d63, 0x1efbc0a0, 0xf0781bc8,
         0xc24b8b70, 0x3e246a79, 0x61add539, 0x1e71e5a1, 0xc73bdc05, 0xdf66656e, 0x17aa0dfe, 0xdecd4715);
    Step(43, 0x17aa0dfe, 0xdf46652f, 0xd6670766, 0x79ea687a, 0xdecd4715, 0x838b2711, 0x26352d63, 0x1efbc0a0,
         0xc76c51a3, 0x27333ba3, 0xd363665b, 0xa2b92f73, 0x422dc671, 0xd766056e, 0x9d4baf93, 0xfda24c2e);
  }

  lemma Rounds48()
    ensures After(48, Vars(0x4172328d, 0xa14c14b0, 0x72ab4b91, 0x26628815,
                  0xfecf0bc6, 0xd57b94a9, 0xb7755da1, 0xa80f11f0))
  {
    hide After, Is, BigSigma0, BigSigma1, Ch, Maj;
    Rounds44();
    Words40();
    Step(44, 0x9d4baf93, 0x17aa0dfe, 0xdf46652f, 0xd6670766, 0xfda24c2e, 0xdecd4715, 0x838b2711, 0x26352d63,
         0xd192e819, 0x0c4763f2, 0xef0f2a07, 0xde896715, 0xb5704fcc, 0x9f4a2dbf, 0x26628815, 0xa80f11f0);
    Step(45, 0x26628815, 0x9d4baf93, 0x17aa0dfe, 0xdf46652f, 0xa80f11f0, 0xfda24c2e, 0xdecd4715, 0x838b2711,
         0xd6990624, 0x840abf27, 0xfb3dc5f1, 0xfec24625, 0x8311c588, 0x176a8d97, 0x72ab4b91, 0xb7755da1);
    Step(46, 0x72ab4b91, 0x26628815, 0x9d4baf93, 0x17aa0dfe, 0xb7755da1, 0xa80f11f0, 0xfda24c2e, 0xdecd4715,
         0xf40e3585, 0x7a290d5d, 0x8845eb06, 0xe88711ae, 0xad0f0274, 0x366b8b91, 0xa14c14b0, 0xd57b94a9);
    Step(47, 0xa14c14b0, 0x72ab4b91, 0x26628815, 0x9d4baf93, 0xd57b94a9, 0xb7755da1, 0xa80f11f0, 0xfda24c2e,
         0x106aa070, 0x065c43da, 0x8fa515ca, 0xbd7515f1, 0xbd84cdc9, 0x226a0891, 0x4172328d, 0xfecf0bc6);
  }

  lemma Rounds52()
    ensures After(52, Vars(0x886e7a22, 0x7a0508a1, 0xf11bfaa8, 0x05757ceb,
                  0x49231c1e, 0x52f1ccf7, 0x6e5c390c, 0xbd714038))
  {
    hide After, Is, BigSigma0, BigSigma1, Ch, Maj;
    Rounds48();
    Words48();
    Step(48, 0x4172328d, 0xa14c14b0, 0x72ab4b91, 0x26628815, 0xfecf0bc6, 0xd57b94a9, 0xb7755da1, 0xa80f11f0,
         0x19a4c116, 0xfb3e89cb, 0x04a106b1, 0xd57b54a1, 0x0cfcb237, 0x616a1291, 0x05757ceb, 0xbd714038);
    Step(49, 0x05757ceb, 0x4172328d, 0xa14c14b0, 0x72ab4b91, 0xbd714038, 0xfecf0bc6, 0xd57b94a9, 0xb7755da1,
         0x1e376c08, 0xcc7617db, 0x5d427776, 0xfc4b9481, 0xf3f6d884, 0x017434a9, 0xf11bfaa8, 0x6e5c390c);
    Step(50, 0xf11bfaa8, 0x05757ceb, 0x4172328d, 0xa14c14b0, 0x6e5c390c, 0xbd714038, 0xfecf0bc6, 0xd57b94a9,
         0x2748774c, 0xb9e66c34, 0x3e283d54, 0xbcd302ca, 0x86ebd5b1, 0x41737aa9, 0x7a0508a1, 0x52f1ccf7);
    Step(51, 0x7a0508a1, 0xf11bfaa8, 0x05757ceb, 0x4172328d, 0x52f1ccf7, 0x6e5c390c, 0xbd714038, 0xfecf0bc6,
         0x34b0bcb5, 0xa9993667, 0x3b47e2a3, 0xef50080c, 0x0fa817e8, 0x711578a9, 0x886e7a22, 0x49231c1e);
  }

  lemma Rounds56()
    ensures After(56, Vars(0x38cc9913, 0x3ec45cdb, 0xf5702fdb, 0x101fd28f,
                  0x54cb266b, 0xe50e1b4f, 0x9f4787c3, 0x529e7d00))
  {
    hide After, Is, BigSigma0, BigSigma1, Ch, Maj;
    Rounds52();
    Words48();
    Step(52, 0x886e7a22, 0x7a0508a1, 0xf11bfaa8, 0x05757ceb, 0x49231c1e, 0x52f1ccf7, 0x6e5c390c, 0xbd714038,
         0x391c0cb3, 0x84badedd, 0x6b63a737, 0x667d2d16, 0xcae757da, 0xf80f7aa0, 0x101fd28f, 0x529e7d00);
    Step(53, 0x101fd28f, 0x886e7a22, 0x7a0508a1, 0xf11bfaa8, 0x529e7d00, 0x49231c1e, 0x52f1ccf7, 0x6e5c390c,
         0x4ed8aa4a, 0xc21462bc, 0xee7eaa12, 0x40639cf7, 0x2f35481d, 0x180f5aa3, 0xf5702fdb, 0x9f4787c3);
    Step(54, 0xf5702fdb, 0x101fd28f, 0x886e7a22, 0x7a0508a1, 0x9f4787c3, 0x529e7d00, 0x49231c1e, 0x52f1ccf7,
         0x5b9cca4f, 0x1487472c, 0x55cd1720, 0x52261d1c, 0x433ccfa2, 0x907e7a8b, 0x3ec45cdb, 0xe50e1b4f);
    Step(55, 0x3ec45cdb, 0xf5702fdb, 0x101fd28f, 0x886e7a22, 0xe50e1b4f, 0x9f4787c3, 0x529e7d00, 0x49231c1e,
         0x682e6ff3, 0xb20f7a99, 0xd1653e5c, 0x97966743, 0x381b8def, 0x34545edb, 0x38cc9913, 0x54cb266b);
  }

  lemma Rounds60()
    ensures After(60, Vars(0xb6ae8fff, 0xffb70472, 0xc062d46f, 0xfcd1887b,
                  0xb21bad3d, 0x6d83bfc6, 0x7e44008e, 0x9b5e906c))
  {
    hide After, Is, BigSigma0, BigSigma1, Ch, Maj;
    Rounds56();
    Words56();
    Step(56, 0x38cc9913, 0x3ec45cdb, 0xf5702fdb, 0x101fd28f, 0x54cb266b, 0xe50e1b4f, 0x9f4787c3, 0x529e7d00,
         0x748f82ee, 0xef57b9cd, 0x05aa8057, 0xcf0e83cb, 0x34ceacc3, 0x3cc41ddb, 0xfcd1887b, 0x9b5e906c);
    Step(57, 0xfcd1887b, 0x38cc9913, 0x3ec45cdb, 0xf5702fdb, 0x9b5e906c, 0x54cb266b, 0xe50e1b4f, 0x9f4787c3,
         0x78a5636f, 0xebe6b238, 0x10b627de, 0x744a0b6b, 0xfaca6b61, 0x3cc4985b, 0xc062d46f, 0x7e44008e);
    Step(58, 0xc062d46f, 0xfcd1887b, 0x38cc9913, 0x3ec45cdb, 0x7e44008e, 0x9b5e906c, 0x54cb266b, 0xe50e1b4f,
         0x84c87814, 0x9fe3095e, 0x0a369fbd, 0x1acf266d, 0xd837090c, 0xf8c0987b, 0xffb70472, 0x6d83bfc6);
    Step(59, 0xffb70472, 0xc062d46f, 0xfcd1887b, 0x38cc9913, 0x6d83bfc6, 0x7e44008e, 0x9b5e906c, 0x54cb266b,
         0x8cc70208, 0x78bc8d4b, 0x20a45dbe, 0xfe5c00ae, 0x406bf75a, 0xfcf3847b, 0xb6ae8fff, 0xb21bad3d);
  }

  lemma Rounds64()
    ensures After(64, Vars(0x506e3058, 0xd39a2165, 0x04d24d6c, 0xb85e2ce9,
                  0x5ef50f24, 0xfb121210, 0x948d25b6, 0x961f4894))
  {
    hide After, Is, BigSigma0, BigSigma1, Ch, Maj;
    Rounds60();
    Words56();
    Step(60, 0xb6ae8fff, 0xffb70472, 0xc062d46f, 0xfcd1887b, 0xb21bad3d, 0x6d83bfc6, 0x7e44008e, 0x9b5e906c,
         0x90befffa, 0xa43fcf15, 0x5ca8b318, 0x6c47ad86, 0x2869e851, 0xf6a6847f, 0xb85e2ce9, 0x961f4894);
    Step(61, 0xb85e2ce9, 0xb6ae8fff, 0xffb70472, 0xc062d46f, 0x961f4894, 0xb21bad3d, 0x6d83bfc6, 0x7e44008e,
         0xa4506ceb, 0x668b2ff8, 0x4f6ef480, 0xfb9bbf56, 0x71e9ef2a, 0xbebe0cfb, 0x04d24d6c, 0x948d25b6);
    Step(62, 0x04d24d6c, 0xb85e2ce9, 0xb6ae8fff, 0xffb70472, 0x948d25b6, 0x961f4894, 0xb21bad3d, 0x6d83bfc6,
         0xbef9a3f7, 0xeeaba2cc, 0x2a127e78, 0xb61f889d, 0x236105da, 0xb4de0ded, 0xd39a2165, 0xfb121210);
    Step(63, 0xd39a2165, 0x04d24d6c, 0xb85e2ce9, 0xb6ae8fff, 0xfb121210, 0x948d25b6, 0x961f4894, 0xb21bad3d,
         0xc67178f2, 0x12b1edeb, 0x88fa2277, 0x940d4894, 0x174d83c6, 0x90da2d6d, 0x506e3058, 0x5ef50f24);
  }

  lemma NoRounds()
    ensures After(0, Vars(0x6a09e667, 0xbb67ae85, 0x3c6ef372, 0xa54ff53a,
                  0x510e527f, 0x9b05688c, 0x1f83d9ab, 0x5be0cd19))
  {
  }

  function AbcValue(): Vars {
    Vars(0xba7816bf, 0x8f01cfea, 0x414140de, 0x5dae2223,
                   0xb00361a3, 0x96177a9c, 0xb410ff61, 0xf20015ad)
  }

  lemma DigestWords(b: Bytes)
    requires b == Block()
    ensures forall n :: n == 1 ==> HashValue(b, n) == AbcValue()
  {
    hide Block, Rounds;
    Rounds64();
    assert b[0..64] == b;
    assert HashValue(b, 0) == H0;
  }

  lemma PadAbc()
    ensures Pad([97, 98, 99]) == Block()
  {
    assert BigEndian(24, 8) == Zeros(7) + [24] by {
      assert BigEndian(0, 4) == Zeros(4);
    }
  }

  lemma HexWord0()
    ensures HexWord(0xba7816bf) == Ascii("ba7816bf")
  {
    HexOf(0xba7816bf, 0xb, 0xa, 0x7, 0x8, 0x1, 0x6, 0xb, 0xf);
    hide HexWord, Ascii, HexDigit;
    Spelled("ba7816bf", 0xb, 0xa, 0x7, 0x8, 0x1, 0x6, 0xb, 0xf);
  }

  lemma HexWord1()
    ensures HexWord(0x8f01cfea) == Ascii("8f01cfea")
  {
    HexOf(0x8f01cfea, 0x8, 0xf, 0x0, 0x1, 0xc, 0xf, 0xe, 0xa);
    hide HexWord, Ascii, HexDigit;
    Spelled("8f01cfea", 0x8, 0xf, 0x0, 0x1, 0xc, 0xf, 0xe, 0xa);
  }

  lemma HexWord2()
    ensures HexWord(0x414140de) == Ascii("414140de")
  {
    HexOf(0x414140de, 0x4, 0x1, 0x4, 0x1, 0x4, 0x0, 0xd, 0xe);
    hide HexWord, Ascii, HexDigit;
    Spelled("414140de", 0x4, 0x1, 0x4, 0x1, 0x4, 0x0, 0xd, 0xe);
  }

  lemma HexWord3()
    ensures HexWord(0x5dae2223) == Ascii("5dae2223")
  {
    HexOf(0x5dae2223, 0x5, 0xd, 0xa, 0xe, 0x2, 0x2, 0x2, 0x3);
    hide HexWord, Ascii, HexDigit;
    Spelled("5dae2223", 0x5, 0xd, 0xa, 0xe, 0x2, 0x2, 0x2, 0x3);
  }

  lemma HexWord4()
    ensures HexWord(0xb00361a3) == Ascii("b00361a3")
  {
    HexOf(0xb00361a3, 0xb, 0x0, 0x0, 0x3, 0x6, 0x1, 0xa, 0x3);
    hide HexWord, Ascii, HexDigit;
    Spelled("b00361a3", 0xb, 0x0, 0x0, 0x3, 0x6, 0x1, 0xa, 0x3);
  }

  lemma HexWord5()
    ensures HexWord(0x96177a9c) == Ascii("96177a9c")
  {
    HexOf(0x96177a9c, 0x9, 0x6, 0x1, 0x7, 0x7, 0xa, 0x9, 0xc);
    hide HexWord, Ascii, HexDigit;
    Spelled("96177a9c", 0x9, 0x6, 0x1, 0x7, 0x7, 0xa, 0x9, 0xc);
  }

  lemma HexWord6()
    ensures HexWord(0xb410ff61) == Ascii("b410ff61")
  {
    HexOf(0xb410ff61, 0xb, 0x4, 0x1, 0x0, 0xf, 0xf, 0x6, 0x1);
    hide HexWord, Ascii, HexDigit;
    Spelled("b410ff61", 0xb, 0x4, 0x1, 0x0, 0xf, 0xf, 0x6, 0x1);
  }

  lemma HexWord7()
    ensures HexWord(0xf20015ad) == Ascii("f20015ad")
  {
    HexOf(0xf20015ad, 0xf, 0x2, 0x0, 0x0, 0x1, 0x5, 0xa, 0xd);
    hide HexWord, Ascii, HexDigit;
    Spelled("f20015ad", 0xf, 0x2, 0x0, 0x0, 0x1, 0x5, 0xa, 0xd);
  }

  /** The digest of "abc" published with the standard. */
  lemma DigestOfAbc()
    ensures Digest(Ascii("abc")) ==
            Ascii("ba7816bf") + Ascii("8f01cfea") + Ascii("414140de") + Ascii("5dae2223")
            + Ascii("b00361a3") + Ascii("96177a9c") + Ascii("b410ff61") + Ascii("f20015ad")
  {
    hide Pad, HashValue, Block, HexWords, HexWord;
    PadAbc();
    DigestWords(Block());
    assert Ascii("abc") == [97, 98, 99];
    HexWord0();
    HexWord1();
    HexWord2();
    HexWord3();
    HexWord4();
    HexWord5();
    HexWord6();
    HexWord7();
    EightWords(HashValue(Block(), 1).Words());
  }
}
