/**
 SHA-256 as FIPS 180-4 states it: functions over 32-bit words (section 4.1.2), constants
 (4.2.2 and 5.3.3), padding (5.1.1) and the hash computation (6.2.2).  Everything is a
 recursive definition on values; the loops of the program are proved against it elsewhere.
 */
module Fips180 {
  import opened Octets

  /** A 32-bit word; sums are modulo 2^32, bit operations act on its 32 bits. */
  newtype Word = x: int | 0 <= x < 0x1_0000_0000

  function Sum(x: int): Word { (x % 0x1_0000_0000) as Word }

  /** Section 3.2: rotation right by n. */
  function RotR(x: bv32, n: bv32): bv32
    requires 0 < n < 32
  {
    (x >> n) | (x << (32 - n))
  }

  function ChBits(x: bv32, y: bv32, z: bv32): bv32 { (x & y) ^ (!x & z) }
  function MajBits(x: bv32, y: bv32, z: bv32): bv32 { (x & y) ^ (x & z) ^ (y & z) }

  function Ch(x: Word, y: Word, z: Word): Word { ChBits(x as bv32, y as bv32, z as bv32) as Word }
  function Maj(x: Word, y: Word, z: Word): Word { MajBits(x as bv32, y as bv32, z as bv32) as Word }
  function BigSigma0(w: Word): Word { BigSigma0Bits(w as bv32) as Word }
  function BigSigma1(w: Word): Word { BigSigma1Bits(w as bv32) as Word }
  function SmallSigma0(w: Word): Word { SmallSigma0Bits(w as bv32) as Word }
  function SmallSigma1(w: Word): Word { SmallSigma1Bits(w as bv32) as Word }

  function Xor(a: bv32, b: bv32): bv32 { a ^ b }
  function Xor3(a: bv32, b: bv32, c: bv32): bv32 { Xor(Xor(a, b), c) }
  function Shr(x: bv32, n: bv32): bv32 requires n < 32 { x >> n }
  function BigSigma0Bits(x: bv32): bv32 { Xor3(RotR(x, 2), RotR(x, 13), RotR(x, 22)) }
  function BigSigma1Bits(x: bv32): bv32 { Xor3(RotR(x, 6), RotR(x, 11), RotR(x, 25)) }
  function SmallSigma0Bits(x: bv32): bv32 { Xor3(RotR(x, 7), RotR(x, 18), Shr(x, 3)) }
  function SmallSigma1Bits(x: bv32): bv32 { Xor3(RotR(x, 17), RotR(x, 19), Shr(x, 10)) }

  /** The shift-and-or form rotates, for each distance in use. */
  lemma RotRRotates(x: bv32)
    ensures RotR(x, 2) == x.RotateRight(2) && RotR(x, 13) == x.RotateRight(13)
    ensures RotR(x, 22) == x.RotateRight(22) && RotR(x, 6) == x.RotateRight(6)
    ensures RotR(x, 11) == x.RotateRight(11) && RotR(x, 25) == x.RotateRight(25)
    ensures RotR(x, 7) == x.RotateRight(7) && RotR(x, 18) == x.RotateRight(18)
    ensures RotR(x, 17) == x.RotateRight(17) && RotR(x, 19) == x.RotateRight(19)
  {
  }

  /** Section 4.1.2: the image of one bit under each sigma function tells its distances. */
  lemma ImagesOfOneBit()
    ensures BigSigma0Bits(1) == 0x4008_0400 && BigSigma1Bits(1) == 0x0420_0080
    ensures SmallSigma0Bits(1) == 0x0200_4000 && SmallSigma1Bits(1) == 0x0000_a000
    ensures SmallSigma0Bits(0x8000_0000) == 0x1100_2000 && SmallSigma1Bits(0x8000_0000) == 0x0020_5000
  {
  }

  /** The sigma functions are linear over exclusive or. */
  lemma SigmasAreLinear(x: bv32, y: bv32)
    ensures BigSigma0Bits(Xor(x, y)) == Xor(BigSigma0Bits(x), BigSigma0Bits(y))
    ensures BigSigma1Bits(Xor(x, y)) == Xor(BigSigma1Bits(x), BigSigma1Bits(y))
    ensures SmallSigma0Bits(Xor(x, y)) == Xor(SmallSigma0Bits(x), SmallSigma0Bits(y))
    ensures SmallSigma1Bits(Xor(x, y)) == Xor(SmallSigma1Bits(x), SmallSigma1Bits(y))
  {
    hide *;
    BigSigma0Linear(x, y);
    BigSigma1Linear(x, y);
    SmallSigma0Linear(x, y);
    SmallSigma1Linear(x, y);
  }

  lemma XorShuffle(a: bv32, a': bv32, b: bv32, b': bv32, c: bv32, c': bv32)
    ensures Xor3(Xor(a, a'), Xor(b, b'), Xor(c, c')) == Xor(Xor3(a, b, c), Xor3(a', b', c'))
  {
    hide Xor;
    XorSwap(a, a', b, b');
    XorSwap(Xor(a, b), Xor(a', b'), c, c');
  }

  lemma XorSwap(p: bv32, q: bv32, r: bv32, s: bv32)
    ensures Xor(Xor(p, q), Xor(r, s)) == Xor(Xor(p, r), Xor(q, s))
  {
    hide Xor;
    XorAssociates(p, q, Xor(r, s));
    XorAssociates(q, r, s);
    XorCommutes(q, r);
    XorAssociates(r, q, s);
    XorAssociates(p, r, Xor(q, s));
  }

  lemma XorAssociates(p: bv32, q: bv32, r: bv32)
    ensures Xor(Xor(p, q), r) == Xor(p, Xor(q, r))
  {
  }

  lemma XorCommutes(p: bv32, q: bv32)
    ensures Xor(p, q) == Xor(q, p)
  {
  }

  lemma BigSigma0Linear(x: bv32, y: bv32)
    ensures BigSigma0Bits(Xor(x, y)) == Xor(BigSigma0Bits(x), BigSigma0Bits(y))
  {
    hide RotR, Shr, Xor, Xor3;
    Rotation2Linear(x, y);
    Rotation13Linear(x, y);
    Rotation22Linear(x, y);
    XorShuffle(RotR(x, 2), RotR(y, 2), RotR(x, 13), RotR(y, 13), RotR(x, 22), RotR(y, 22));
  }

  lemma BigSigma1Linear(x: bv32, y: bv32)
    ensures BigSigma1Bits(Xor(x, y)) == Xor(BigSigma1Bits(x), BigSigma1Bits(y))
  {
    hide RotR, Shr, Xor, Xor3;
    Rotation6Linear(x, y);
    Rotation11Linear(x, y);
    Rotation25Linear(x, y);
    XorShuffle(RotR(x, 6), RotR(y, 6), RotR(x, 11), RotR(y, 11), RotR(x, 25), RotR(y, 25));
  }

  lemma SmallSigma0Linear(x: bv32, y: bv32)
    ensures SmallSigma0Bits(Xor(x, y)) == Xor(SmallSigma0Bits(x), SmallSigma0Bits(y))
  {
    hide RotR, Shr, Xor, Xor3;
    Rotation7Linear(x, y);
    Rotation18Linear(x, y);
    ShiftsLinear(x, y);
    XorShuffle(RotR(x, 7), RotR(y, 7), RotR(x, 18), RotR(y, 18), Shr(x, 3), Shr(y, 3));
  }

  lemma SmallSigma1Linear(x: bv32, y: bv32)
    ensures SmallSigma1Bits(Xor(x, y)) == Xor(SmallSigma1Bits(x), SmallSigma1Bits(y))
  {
    hide RotR, Shr, Xor, Xor3;
    Rotation17Linear(x, y);
    Rotation19Linear(x, y);
    ShiftsLinear(x, y);
    XorShuffle(RotR(x, 17), RotR(y, 17), RotR(x, 19), RotR(y, 19), Shr(x, 10), Shr(y, 10));
  }

  lemma Rotation2Linear(x: bv32, y: bv32)
    ensures RotR(Xor(x, y), 2) == Xor(RotR(x, 2), RotR(y, 2))
  {
  }

  lemma Rotation6Linear(x: bv32, y: bv32)
    ensures RotR(Xor(x, y), 6) == Xor(RotR(x, 6), RotR(y, 6))
  {
  }

  lemma Rotation7Linear(x: bv32, y: bv32)
    ensures RotR(Xor(x, y), 7) == Xor(RotR(x, 7), RotR(y, 7))
  {
  }

  lemma Rotation11Linear(x: bv32, y: bv32)
    ensures RotR(Xor(x, y), 11) == Xor(RotR(x, 11), RotR(y, 11))
  {
  }

  lemma Rotation13Linear(x: bv32, y: bv32)
    ensures RotR(Xor(x, y), 13) == Xor(RotR(x, 13), RotR(y, 13))
  {
  }

  lemma Rotation17Linear(x: bv32, y: bv32)
    ensures RotR(Xor(x, y), 17) == Xor(RotR(x, 17), RotR(y, 17))
  {
  }

  lemma Rotation18Linear(x: bv32, y: bv32)
    ensures RotR(Xor(x, y), 18) == Xor(RotR(x, 18), RotR(y, 18))
  {
  }

  lemma Rotation19Linear(x: bv32, y: bv32)
    ensures RotR(Xor(x, y), 19) == Xor(RotR(x, 19), RotR(y, 19))
  {
  }

  lemma Rotation22Linear(x: bv32, y: bv32)
    ensures RotR(Xor(x, y), 22) == Xor(RotR(x, 22), RotR(y, 22))
  {
  }

  lemma Rotation25Linear(x: bv32, y: bv32)
    ensures RotR(Xor(x, y), 25) == Xor(RotR(x, 25), RotR(y, 25))
  {
  }

  lemma ShiftsLinear(x: bv32, y: bv32)
    ensures Shr(Xor(x, y), 3) == Xor(Shr(x, 3), Shr(y, 3)) && Shr(Xor(x, y), 10) == Xor(Shr(x, 10), Shr(y, 10))
  {
  }

  /** Ch selects bit by bit and Maj votes bit by bit. */
  lemma ChSelectsMajVotes(x: bv32, y: bv32, z: bv32)
    ensures ChBits(x, y, z) == (x & y) | (!x & z)
    ensures MajBits(x, y, z) == (x & y) | (x & z) | (y & z)
  {
  }

  /** Section 4.2.2, eight constants to a row. */
  function RoundConstantRow(i: nat): (r: seq<Word>)
    requires i < 8
    ensures |r| == 8
  {
    if i == 0 then [0x428a2f98, 0x71374491, 0xb5c0fbcf, 0xe9b5dba5, 0x3956c25b, 0x59f111f1, 0x923f82a4, 0xab1c5ed5]
    else if i == 1 then [0xd807aa98, 0x12835b01, 0x243185be, 0x550c7dc3, 0x72be5d74, 0x80deb1fe, 0x9bdc06a7, 0xc19bf174]
    else if i == 2 then [0xe49b69c1, 0xefbe4786, 0x0fc19dc6, 0x240ca1cc, 0x2de92c6f, 0x4a7484aa, 0x5cb0a9dc, 0x76f988da]
    else if i == 3 then [0x983e5152, 0xa831c66d, 0xb00327c8, 0xbf597fc7, 0xc6e00bf3, 0xd5a79147, 0x06ca6351, 0x14292967]
    else if i == 4 then [0x27b70a85, 0x2e1b2138, 0x4d2c6dfc, 0x53380d13, 0x650a7354, 0x766a0abb, 0x81c2c92e, 0x92722c85]
    else if i == 5 then [0xa2bfe8a1, 0xa81a664b, 0xc24b8b70, 0xc76c51a3, 0xd192e819, 0xd6990624, 0xf40e3585, 0x106aa070]
    else if i == 6 then [0x19a4c116, 0x1e376c08, 0x2748774c, 0x34b0bcb5, 0x391c0cb3, 0x4ed8aa4a, 0x5b9cca4f, 0x682e6ff3]
    else [0x748f82ee, 0x78a5636f, 0x84c87814, 0x8cc70208, 0x90befffa, 0xa4506ceb, 0xbef9a3f7, 0xc67178f2]
  }

  function RoundConstant(t: nat): Word
    requires t < 64
  {
    RoundConstantRow(t / 8)[t % 8]
  }

  /** The first 64 primes. */
  function PrimeRow(i: nat): (r: seq<nat>)
    requires i < 8
    ensures |r| == 8
  {
    if i == 0 then [2, 3, 5, 7, 11, 13, 17, 19]
    else if i == 1 then [23, 29, 31, 37, 41, 43, 47, 53]
    else if i == 2 then [59, 61, 67, 71, 73, 79, 83, 89]
    else if i == 3 then [97, 101, 103, 107, 109, 113, 127, 131]
    else if i == 4 then [137, 139, 149, 151, 157, 163, 167, 173]
    else if i == 5 then [179, 181, 191, 193, 197, 199, 211, 223]
    else if i == 6 then [227, 229, 233, 239, 241, 251, 257, 263]
    else [269, 271, 277, 281, 283, 293, 307, 311]
  }

  /** Word k is the first 32 bits of the fractional part of the cube root of p, whose integral part is m. */
  predicate CubeRootFraction(k: Word, p: nat, m: nat) {
    var x := m * 0x1_0000_0000 + k as nat;
    x * x * x <= p * 0x1_0000_0000_0000_0000_0000_0000 < (x + 1) * (x + 1) * (x + 1)
  }

  predicate SquareRootFraction(k: Word, p: nat, m: nat) {
    var x := m * 0x1_0000_0000 + k as nat;
    x * x <= p * 0x1_0000_0000_0000_0000 < (x + 1) * (x + 1)
  }

  function CubeRoot(p: nat): nat {
    if p < 8 then 1 else if p < 27 then 2 else if p < 64 then 3 else if p < 125 then 4 else if p < 216 then 5 else 6
  }

  lemma FirstQuarter(i: nat, j: nat)
    requires i < 2 && j < 8
    ensures CubeRootFraction(RoundConstantRow(i)[j], PrimeRow(i)[j], CubeRoot(PrimeRow(i)[j]))
  {
  }

  lemma SecondQuarter(i: nat, j: nat)
    requires 2 <= i < 4 && j < 8
    ensures CubeRootFraction(RoundConstantRow(i)[j], PrimeRow(i)[j], CubeRoot(PrimeRow(i)[j]))
  {
  }

  lemma ThirdQuarter(i: nat, j: nat)
    requires 4 <= i < 6 && j < 8
    ensures CubeRootFraction(RoundConstantRow(i)[j], PrimeRow(i)[j], CubeRoot(PrimeRow(i)[j]))
  {
  }

  lemma FourthQuarter(i: nat, j: nat)
    requires 6 <= i < 8 && j < 8
    ensures CubeRootFraction(RoundConstantRow(i)[j], PrimeRow(i)[j], CubeRoot(PrimeRow(i)[j]))
  {
  }

  /** The round constants are the ones section 4.2.2 describes: from the cube roots of the first 64 primes. */
  lemma RoundConstantsAreCubeRoots(t: nat)
    requires t < 64
    ensures var p := PrimeRow(t / 8)[t % 8]; CubeRootFraction(RoundConstant(t), p, CubeRoot(p))
  {
    hide RoundConstantRow, PrimeRow, CubeRoot, CubeRootFraction;
    if t < 16 {
      FirstQuarter(t / 8, t % 8);
    } else if t < 32 {
      SecondQuarter(t / 8, t % 8);
    } else if t < 48 {
      ThirdQuarter(t / 8, t % 8);
    } else {
      FourthQuarter(t / 8, t % 8);
    }
  }

  /** The eight words carried between blocks, and the working variables of one block. */
  datatype Vars = Vars(a: Word, b: Word, c: Word, d: Word, e: Word, f: Word, g: Word, h: Word) {
    function Plus(v: Vars): Vars {
      Vars(Sum(a as int + v.a as int), Sum(b as int + v.b as int),
           Sum(c as int + v.c as int), Sum(d as int + v.d as int),
           Sum(e as int + v.e as int), Sum(f as int + v.f as int),
           Sum(g as int + v.g as int), Sum(h as int + v.h as int))
    }
    function Words(): (s: seq<Word>)
      ensures |s| == 8
    {
      [a, b, c, d, e, f, g, h]
    }
  }

  const H0: Vars := Vars(0x6a09e667, 0xbb67ae85, 0x3c6ef372, 0xa54ff53a,
                         0x510e527f, 0x9b05688c, 0x1f83d9ab, 0x5be0cd19)

  /** The initial hash value is the one section 5.3.3 describes: from the square roots of the first 8 primes. */
  lemma InitialValueIsSquareRoots()
    ensures SquareRootFraction(H0.a, 2, 1) && SquareRootFraction(H0.b, 3, 1)
    ensures SquareRootFraction(H0.c, 5, 2) && SquareRootFraction(H0.d, 7, 2)
    ensures SquareRootFraction(H0.e, 11, 3) && SquareRootFraction(H0.f, 13, 3)
    ensures SquareRootFraction(H0.g, 17, 4) && SquareRootFraction(H0.h, 19, 4)
  {
  }

  /** Big-endian 32-bit word. */
  function WordOf(b0: byte, b1: byte, b2: byte, b3: byte): Word {
    (0x100_0000 * b0 as int + 0x1_0000 * b1 as int + 0x100 * b2 as int + b3 as int) as Word
  }

  /** Section 6.2.2 step 1: the message schedule. */
  function W(block: Bytes, t: nat): Word
    requires |block| == 64 && t < 64
  {
    if t < 16 then WordOf(block[4 * t], block[4 * t + 1], block[4 * t + 2], block[4 * t + 3])
    else Sum(SmallSigma1(W(block, t - 2)) as int + W(block, t - 7) as int
             + SmallSigma0(W(block, t - 15)) as int + W(block, t - 16) as int)
  }

  /** Section 6.2.2 step 3: one round. */
  function Round(v: Vars, k: Word, w: Word): Vars {
    var t1 := Sum(v.h as int + BigSigma1(v.e) as int + Ch(v.e, v.f, v.g) as int + k as int + w as int);
    var t2 := Sum(BigSigma0(v.a) as int + Maj(v.a, v.b, v.c) as int);
    Vars(Sum(t1 as int + t2 as int), v.a, v.b, v.c, Sum(v.d as int + t1 as int), v.e, v.f, v.g)
  }

  function Rounds(v: Vars, block: Bytes, n: nat): Vars
    requires |block| == 64 && n <= 64
  {
    if n == 0 then v else
      Round(Rounds(v, block, n - 1), RoundConstant(n - 1), W(block, n - 1))
  }

  /** Section 6.2.2 steps 2 to 4: one block. */
  function Compress(v: Vars, block: Bytes): Vars
    requires |block| == 64
  {
    v.Plus(Rounds(v, block, 64))
  }

  /** The hash value after the first n blocks. */
  function HashValue(msg: Bytes, n: nat): Vars
    requires 64 * n <= |msg|
  {
    if n == 0 then H0 else Compress(HashValue(msg, n - 1), msg[64 * (n - 1)..64 * n])
  }

  /** n zero bytes. */
  function Zeros(n: nat): (z: Bytes)
    ensures |z| == n
  {
    seq(n, _ => 0)
  }

  function Pow256(k: nat): (p: nat)
    ensures p > 0
  {
    if k == 0 then 1 else 256 * Pow256(k - 1)
  }

  /** x modulo 256^k as k big-endian bytes. */
  function BigEndian(x: nat, k: nat): (b: Bytes)
    ensures |b| == k
  {
    if k == 0 then [] else BigEndian(x / 256, k - 1) + [(x % 256) as byte]
  }

  function FromBigEndian(b: Bytes): nat {
    if b == [] then 0 else 256 * FromBigEndian(b[..|b| - 1]) + b[|b| - 1] as nat
  }

  /** Section 5.1.1 in bytes: the fewest zero bytes that bring n + 1 + zeros + 8 to a multiple of 64. */
  function ZeroCount(n: nat): (k: nat)
    ensures k < 64 && (n + 1 + k + 8) % 64 == 0
  {
    (55 - n) % 64
  }

  /** Section 5.1.1.  A message of n bytes has 8 * n bits. */
  function Pad(m: Bytes): (p: Bytes)
    ensures |p| % 64 == 0 && |p| >= |m| + 9
  {
    m + [0x80] + Zeros(ZeroCount(|m|)) + BigEndian(8 * |m|, 8)
  }

  /** The message a padded text stands for. */
  function Unpad(p: Bytes): Bytes
    requires |p| >= 8
  {
    var n := FromBigEndian(p[|p| - 8..]) / 8;
    if n <= |p| then p[..n] else p
  }

  function HexWord(w: Word): Bytes { HexNibbles(w as nat, 8) }

  /** The k low nibbles of x, most significant first, as lower-case hex digits. */
  function HexNibbles(x: nat, k: nat): (b: Bytes)
    ensures |b| == k
    ensures forall i :: 0 <= i < k ==> IsHexDigit(b[i])
  {
    if k == 0 then [] else HexNibbles(x / 16, k - 1) + [HexDigit(x % 16)]
  }

  function HexWords(ws: seq<Word>): (b: Bytes)
    ensures |b| == 8 * |ws|
    ensures forall i :: 0 <= i < |b| ==> IsHexDigit(b[i])
  {
    if ws == [] then [] else HexWords(ws[..|ws| - 1]) + HexWord(ws[|ws| - 1])
  }

  /** The digest as 64 lower-case hex digits. */
  function Digest(m: Bytes): (d: Bytes)
    ensures |d| == 64
    ensures forall i :: 0 <= i < 64 ==> IsHexDigit(d[i])
  {
    var p := Pad(m);
    HexWords(HashValue(p, |p| / 64).Words())
  }

  /** Two different messages with one digest. */
  predicate Collision(m: Bytes, m': Bytes) {
    m != m' && Digest(m) == Digest(m')
  }

  /** Each block is folded into the value of the blocks before it. */
  lemma {:induction false} HashValueAppend(front: Bytes, block: Bytes, n: nat)
    requires |front| == 64 * n && |block| == 64
    ensures HashValue(front + block, n + 1) == Compress(HashValue(front, n), block)
  {
    hide Compress;
    assert (front + block)[64 * n..64 * (n + 1)] == block;
    SameBlocks(front + block, front, n);
  }

  lemma {:induction false} SameBlocks(m: Bytes, m': Bytes, n: nat)
    requires 64 * n <= |m| && 64 * n <= |m'| && m[..64 * n] == m'[..64 * n]
    ensures HashValue(m, n) == HashValue(m', n)
  {
    hide Compress;
    if n > 0 {
      assert m[..64 * (n - 1)] == m[..64 * n][..64 * (n - 1)] == m'[..64 * (n - 1)];
      assert m[64 * (n - 1)..64 * n] == m[..64 * n][64 * (n - 1)..] == m'[64 * (n - 1)..64 * n];
      SameBlocks(m, m', n - 1);
    }
  }

  lemma {:induction false} BigEndianRoundTrip(x: nat, k: nat)
    requires x < Pow256(k)
    ensures FromBigEndian(BigEndian(x, k)) == x
  {
    if k > 0 {
      BigEndianRoundTrip(x / 256, k - 1);
      assert BigEndian(x, k)[..k - 1] == BigEndian(x / 256, k - 1);
    }
  }

  lemma Pow256Of8()
    ensures Pow256(8) == 0x1_0000_0000_0000_0000
  {
    assert Pow256(2) == 0x1_0000;
    assert Pow256(4) == 0x1_0000_0000;
    assert Pow256(6) == 0x1_0000_0000_0000;
  }

  /** Padding can be undone for every message whose bit length fits in 64 bits. */
  lemma PadRoundTrip(m: Bytes)
    requires |m| < 0x2000_0000_0000_0000
    ensures Unpad(Pad(m)) == m
  {
    var p := Pad(m);
    assert p[|p| - 8..] == BigEndian(8 * |m|, 8);
    Pow256Of8();
    BigEndianRoundTrip(8 * |m|, 8);
    assert p[..|m|] == m;
  }

  lemma PadInjective(m: Bytes, m': Bytes)
    requires |m| < 0x2000_0000_0000_0000 && |m'| < 0x2000_0000_0000_0000
    ensures Pad(m) == Pad(m') ==> m == m'
  {
    PadRoundTrip(m);
    PadRoundTrip(m');
  }

  /** The padded length is the least multiple of 64 that holds the message and nine bytes more. */
  lemma PadLengthIsLeast(m: Bytes, n: nat)
    requires n % 64 == 0 && n >= |m| + 9
    ensures |Pad(m)| <= n
    ensures |Pad(m)| == ((|m| + 9 + 63) / 64) * 64
  {
    hide BigEndian, Zeros;
    LeastMultiple(|m| + 9, ZeroCount(|m|), n);
  }

  lemma LeastMultiple(need: nat, k: nat, n: nat)
    requires k < 64 && (need + k) % 64 == 0 && n % 64 == 0 && n >= need
    ensures need + k <= n && need + k == ((need + 63) / 64) * 64
  {
  }

  lemma {:induction false} HexNibblesInjective(x: nat, y: nat, k: nat)
    requires x < Pow16(k) && y < Pow16(k)
    requires HexNibbles(x, k) == HexNibbles(y, k)
    ensures x == y
  {
    if k > 0 {
      var a, b := HexNibbles(x, k), HexNibbles(y, k);
      assert a[..k - 1] == HexNibbles(x / 16, k - 1) && b[..k - 1] == HexNibbles(y / 16, k - 1);
      assert a[k - 1] == HexDigit(x % 16) && b[k - 1] == HexDigit(y % 16);
      HexNibblesInjective(x / 16, y / 16, k - 1);
    }
  }

  function Pow16(k: nat): (p: nat)
    ensures p > 0
  {
    if k == 0 then 1 else 16 * Pow16(k - 1)
  }
}
