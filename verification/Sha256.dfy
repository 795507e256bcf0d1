/** The program's SHA-256 (src/core/sha256.cpp): in-place rounds, in-place padding, proved against FIPS 180-4. */
module Sha256 {
  import opened Octets
  import F = Fips180

  type Word = F.Word

  /** The first `i` schedule words are those of the standard. */
  ghost predicate ScheduledUpTo(w: seq<Word>, block: Bytes, i: nat)
    requires |block| == 64 && i <= 64
  {
    |w| == 64 && forall j :: 0 <= j < i ==> w[j] == F.W(block, j)
  }

  ghost function StateOf(s: seq<Word>): F.Vars
    requires |s| == 8
  {
    F.Vars(s[0], s[1], s[2], s[3], s[4], s[5], s[6], s[7])
  }

  method MessageSchedule(msg: array<byte>, offset: nat) returns (w: array<Word>)
    requires offset + 64 <= msg.Length
    ensures fresh(w)
    ensures ScheduledUpTo(w[..], msg[offset..offset + 64], 64)
  {
    hide F.SmallSigma0, F.SmallSigma1, F.WordOf;
    w := new Word[64](_ => 0);
    ghost var block := msg[offset..offset + 64];
    for i := 0 to 16
      invariant ScheduledUpTo(w[..], block, i)
    {
      w[i] := F.WordOf(msg[offset + 4 * i], msg[offset + 4 * i + 1], msg[offset + 4 * i + 2], msg[offset + 4 * i + 3]);
    }
    for i := 16 to 64
      invariant ScheduledUpTo(w[..], block, i)
    {
      w[i] := F.Sum(F.SmallSigma1(w[i - 2]) as int + w[i - 7] as int
                    + F.SmallSigma0(w[i - 15]) as int + w[i - 16] as int);
    }
  }

  method ProcessBlock(state: array<Word>, msg: array<byte>, offset: nat)
    requires state.Length == 8 && offset + 64 <= msg.Length
    modifies state
    ensures StateOf(state[..]) == F.Compress(old(StateOf(state[..])), msg[offset..offset + 64])
  {
    hide F.BigSigma0, F.BigSigma1, F.Ch, F.Maj, F.W, F.Sum, F.RoundConstant;
    var w := MessageSchedule(msg, offset);
    ghost var block := msg[offset..offset + 64];
    ghost var start := StateOf(state[..]);
    var a, b, c, d := state[0], state[1], state[2], state[3];
    var e, f, g, h := state[4], state[5], state[6], state[7];
    for i := 0 to 64
      invariant F.Vars(a, b, c, d, e, f, g, h) == F.Rounds(start, block, i)
      invariant ScheduledUpTo(w[..], block, 64)
      invariant state[..] == old(state[..])
    {
      var t1 := F.Sum(h as int + F.BigSigma1(e) as int + F.Ch(e, f, g) as int
                      + F.RoundConstant(i) as int + w[i] as int);
      var t2 := F.Sum(F.BigSigma0(a) as int + F.Maj(a, b, c) as int);
      assert w[..][i] == F.W(block, i);
      assert F.Rounds(start, block, i + 1) == F.Round(F.Rounds(start, block, i), F.RoundConstant(i), w[i]);
      h := g;
      g := f;
      f := e;
      e := F.Sum(d as int + t1 as int);
      d := c;
      c := b;
      b := a;
      a := F.Sum(t1 as int + t2 as int);
    }
    state[0] := F.Sum(state[0] as int + a as int);
    state[1] := F.Sum(state[1] as int + b as int);
    state[2] := F.Sum(state[2] as int + c as int);
    state[3] := F.Sum(state[3] as int + d as int);
    state[4] := F.Sum(state[4] as int + e as int);
    state[5] := F.Sum(state[5] as int + f as int);
    state[6] := F.Sum(state[6] as int + g as int);
    state[7] := F.Sum(state[7] as int + h as int);
  }

  /** The message buffer: input, 0x80, zeros, and the 64-bit length written byte by byte at the end. */
  method PadMessage(input: Bytes) returns (msg: array<byte>)
    ensures fresh(msg)
    ensures msg[..] == F.Pad(input)
  {
    var bitLen := (|input| * 8) % 0x1_0000_0000_0000_0000;
    var paddedSize := ((|input| + 9 + 63) / 64) * 64;
    F.PadLengthIsLeast(input, paddedSize);
    msg := new byte[paddedSize](_ => 0);
    for i := 0 to |input|
      invariant forall j :: 0 <= j < i ==> msg[j] == input[j]
      invariant forall j :: i <= j < paddedSize ==> msg[j] == 0
    {
      msg[i] := input[i];
    }
    msg[|input|] := 0x80;
    ghost var before := msg[..];
    for i := 0 to 8
      invariant msg[..paddedSize - 8] == before[..paddedSize - 8]
      invariant forall j :: 0 <= j < i ==> msg[paddedSize - 8 + j] == LengthByte(bitLen, j)
    {
      msg[paddedSize - 8 + i] := LengthByte(bitLen, i);
    }
    LengthBytesAreBigEndian(8 * |input|);
    assert msg[paddedSize - 8..] == F.BigEndian(8 * |input|, 8);
    assert before[..paddedSize - 8] == input + [0x80] + F.Zeros(F.ZeroCount(|input|));
    assert msg[..] == msg[..paddedSize - 8] + msg[paddedSize - 8..];
  }

  /** Byte i, from the most significant, of a 64-bit length: the length shifted right by 8 * (7 - i). */
  function LengthByte(bitLen: nat, i: nat): byte
    requires i < 8
  {
    (bitLen / F.Pow256(7 - i) % 256) as byte
  }

  lemma {:induction false} BigEndianAt(x: nat, k: nat, i: nat)
    requires i < k
    ensures F.BigEndian(x, k)[i] as nat == x / F.Pow256(k - 1 - i) % 256
  {
    if i < k - 1 {
      BigEndianAt(x / 256, k - 1, i);
      ShiftTwice(x, F.Pow256(k - 2 - i));
    }
  }

  lemma ShiftTwice(x: nat, p: nat)
    requires p > 0
    ensures x / 256 / p == x / (256 * p)
  {
    var y := x / 256;
    var q, r := y / p, y % p;
    assert y == p * q + r;
    QuotientUnique(x, 256 * p, q, 256 * r + x % 256);
  }

  lemma QuotientUnique(x: nat, d: nat, q: nat, r: nat)
    requires d > 0 && x == d * q + r && r < d
    ensures x / d == q && x % d == r
  {
    var k := x / d - q;
    assert d * k == r - x % d by {
      assert x == d * (x / d) + x % d;
      assert d * (x / d) - d * q == d * k;
    }
    assert k >= 1 ==> d * k >= d;
    assert k <= -1 ==> d * k <= 0 - d;
  }

  lemma ModuloShift(x: nat, p: nat)
    requires p > 0
    ensures x % (256 * p) == 256 * (x / 256 % p) + x % 256
  {
    var q, y := x / 256 / p, x / 256 % p;
    assert x / 256 == p * q + y;
    QuotientUnique(x, 256 * p, q, 256 * y + x % 256);
  }

  /** The k low bytes of x are those of x modulo 256^k, which is all a 64-bit length keeps. */
  lemma {:induction false} BigEndianModulo(x: nat, k: nat)
    ensures F.BigEndian(x % F.Pow256(k), k) == F.BigEndian(x, k)
  {
    if k > 0 {
      var p := F.Pow256(k - 1);
      var y := x % F.Pow256(k);
      ModuloShift(x, p);
      QuotientUnique(y, 256, x / 256 % p, x % 256);
      BigEndianModulo(x / 256, k - 1);
      assert F.BigEndian(y, k) == F.BigEndian(x / 256 % p, k - 1) + [(x % 256) as byte];
    }
  }

  /** Reducing the bit length modulo 2^64 first, as the 64-bit variable does, changes no byte. */
  lemma LengthBytesAreBigEndian(bits: nat)
    ensures forall i :: 0 <= i < 8 ==>
      LengthByte(bits % 0x1_0000_0000_0000_0000, i) == F.BigEndian(bits, 8)[i]
  {
    F.Pow256Of8();
    BigEndianModulo(bits, 8);
    forall i | 0 <= i < 8
      ensures LengthByte(bits % 0x1_0000_0000_0000_0000, i) == F.BigEndian(bits, 8)[i]
    {
      BigEndianAt(bits % 0x1_0000_0000_0000_0000, 8, i);
    }
  }

  method HashBlocks(msg: array<byte>) returns (state: array<Word>)
    requires msg.Length % 64 == 0
    ensures fresh(state) && state.Length == 8
    ensures state[..] == F.HashValue(msg[..], msg.Length / 64).Words()
  {
    hide F.Compress;
    state := new Word[8];
    state[0], state[1], state[2], state[3] := F.H0.a, F.H0.b, F.H0.c, F.H0.d;
    state[4], state[5], state[6], state[7] := F.H0.e, F.H0.f, F.H0.g, F.H0.h;
    var offset := 0;
    while offset < msg.Length
      invariant offset <= msg.Length && offset % 64 == 0
      invariant StateOf(state[..]) == F.HashValue(msg[..], offset / 64)
    {
      ghost var n := offset / 64;
      assert msg[..][64 * n..64 * (n + 1)] == msg[offset..offset + 64];
      ProcessBlock(state, msg, offset);
      offset := offset + 64;
    }
  }

  /** sha256_hex: the digest of FIPS 180-4 in 64 lower-case hex digits. */
  method Sha256Hex(input: Bytes) returns (digest: Bytes)
    ensures digest == F.Digest(input)
  {
    hide F.HashValue, F.HexWord;
    var msg := PadMessage(input);
    var state := HashBlocks(msg);
    ghost var words := state[..];
    digest := [];
    for i := 0 to 8
      invariant digest == F.HexWords(words[..i])
    {
      digest := digest + F.HexWord(state[i]);
      assert words[..i + 1][..i] == words[..i];
    }
    assert words[..8] == words;
  }
}
