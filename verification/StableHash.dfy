/** FNV-1a, 64 bits (src/core/hashing.cpp): the fingerprint drift detection compares. */
module StableHash {
  const MODULUS: int := 0x1_0000_0000_0000_0000
  const PRIME: int := 1099511628211
  /** The multiplicative inverse of PRIME modulo 2^64. */
  const INVERSE: int := 0xce965057aff6957b

  newtype Hash64 = x: int | 0 <= x < 0x1_0000_0000_0000_0000

  const OFFSET: Hash64 := 14695981039346656037

  function ByteOf(c: char): (b: nat)
    ensures b < 256
  {
    c as int % 256
  }

  function Power2(k: nat): (p: nat)
    ensures p > 0
  {
    if k == 0 then 1 else 2 * Power2(k - 1)
  }

  /** Bitwise exclusive or of the k low bits. */
  function Xor(a: nat, b: nat, k: nat): (r: nat)
    ensures r < Power2(k)
  {
    if k == 0 then 0 else 2 * Xor(a / 2, b / 2, k - 1) + (a % 2 + b % 2) % 2
  }

  /** Exclusive or with a byte touches only the low byte of the hash. */
  function XorLow(h: Hash64, b: nat): Hash64 {
    assert Power2(8) == 256 by {
      assert Power2(4) == 16;
    }
    (h as int - h as int % 256 + Xor(h as int % 256, b, 8)) as Hash64
  }

  function Mix(h: Hash64, b: nat): Hash64 { (XorLow(h, b) as int * PRIME % MODULUS) as Hash64 }

  function Hash(s: string): Hash64 {
    if s == [] then OFFSET else Mix(Hash(s[..|s| - 1]), ByteOf(s[|s| - 1]))
  }

  method StableHash64(input: string) returns (hash: Hash64)
    ensures hash == Hash(input)
  {
    hide Mix, ByteOf;
    hash := OFFSET;
    for i := 0 to |input|
      invariant hash == Hash(input[..i])
    {
      assert input[..i + 1][..i] == input[..i];
      hash := Mix(hash, ByteOf(input[i]));
    }
    assert input[..|input|] == input;
  }

  /** Exclusive or cancels in either argument. */
  lemma {:induction false} XorCancels(a: nat, b: nat, c: nat, k: nat)
    requires a < Power2(k) && b < Power2(k)
    ensures Xor(a, c, k) == Xor(b, c, k) ==> a == b
    ensures Xor(c, a, k) == Xor(c, b, k) ==> a == b
  {
    if k > 0 {
      XorCancels(a / 2, b / 2, c / 2, k - 1);
    }
  }

  lemma TimesPrimeInjective(a: Hash64, b: Hash64)
    requires a as int * PRIME % MODULUS == b as int * PRIME % MODULUS
    ensures a == b
  {
    assert PRIME * INVERSE % MODULUS == 1;
    var m := PRIME * INVERSE / MODULUS;
    var k := a as int * PRIME / MODULUS - b as int * PRIME / MODULUS;
    var d := a as int - b as int;
    assert d * PRIME == MODULUS * k;
    assert d * (PRIME * INVERSE) == MODULUS * (k * INVERSE);
    assert d == MODULUS * (k * INVERSE - m * d);
  }

  lemma XorLowParts(h: Hash64, b: nat)
    ensures XorLow(h, b) as int / 256 == h as int / 256
    ensures XorLow(h, b) as int % 256 == Xor(h as int % 256, b, 8)
  {
    hide Xor;
  }

  lemma XorLowInjective(g: Hash64, h: Hash64, b: nat, c: nat)
    requires b < 256 && c < 256
    ensures XorLow(g, b) == XorLow(h, b) ==> g == h
    ensures XorLow(g, b) == XorLow(g, c) ==> b == c
  {
    hide XorLow;
    XorLowParts(g, b);
    XorLowParts(h, b);
    XorLowParts(g, c);
    assert Power2(8) == 256 by {
      assert Power2(4) == 16;
    }
    XorCancels(g as int % 256, h as int % 256, b, 8);
    XorCancels(b, c, g as int % 256, 8);
  }

  /** One step forgets neither the hash so far nor the byte. */
  lemma MixInjective(g: Hash64, h: Hash64, b: nat, c: nat)
    requires b < 256 && c < 256
    ensures Mix(g, b) == Mix(h, b) ==> g == h
    ensures Mix(g, b) == Mix(g, c) ==> b == c
  {
    hide XorLow;
    XorLowInjective(g, h, b, c);
    if Mix(g, b) == Mix(h, b) {
      TimesPrimeInjective(XorLow(g, b), XorLow(h, b));
    }
    if Mix(g, b) == Mix(g, c) {
      TimesPrimeInjective(XorLow(g, b), XorLow(g, c));
    }
  }

  /** Changing one byte of a text always changes its hash. */
  lemma {:induction false} OneByteEditChangesHash(s: string, i: nat, c: char)
    requires i < |s| && ByteOf(s[i]) != ByteOf(c)
    ensures Hash(s[i := c]) != Hash(s)
  {
    hide Mix, ByteOf;
    var n := |s| - 1;
    var t := s[i := c];
    if i == n {
      assert t[..n] == s[..n];
      MixInjective(Hash(s[..n]), Hash(s[..n]), ByteOf(s[n]), ByteOf(c));
    } else {
      assert t[..n] == s[..n][i := c];
      OneByteEditChangesHash(s[..n], i, c);
      MixInjective(Hash(s[..n]), Hash(t[..n]), ByteOf(s[n]), ByteOf(s[n]));
    }
  }

  /** Different texts with one hash. */
  predicate Collision(s: string, t: string) { s != t && Hash(s) == Hash(t) }

  lemma XorOfA()
    ensures Xor(0x25, 0x61, 8) == 0x44
  {
    assert Xor(0x25 / 16, 0x61 / 16, 4) == 4;
  }

  /** The published FNV-1a values of the empty text and of "a". */
  lemma PublishedValues()
    ensures Hash("") == 0xcbf29ce484222325 && Hash("a") == 0xaf63dc4c8601ec8c
  {
    hide Xor;
    XorOfA();
    assert "a"[..0] == [];
    assert OFFSET as int % 256 == 0x25;
    assert XorLow(OFFSET, 0x61) as int == 0xcbf29ce484222344;
  }

  lemma XorOfFo()
    ensures Xor(0x25, 0x66, 8) == 0x43 && Xor(0xd9, 0x6f, 8) == 0xb6
  {
    assert Xor(0x25 / 16, 0x66 / 16, 4) == 4;
    assert Xor(0xd9 / 16, 0x6f / 16, 4) == 0xb;
  }

  /** The published value of "fo", which depends on the order of the bytes. */
  lemma PublishedValueInOrder()
    ensures Hash("fo") == 0x08985907b541d342
  {
    hide Xor, Mix;
    assert "fo"[..1] == "f" && "f"[..0] == [];
    assert Hash("fo") == Mix(Mix(OFFSET, 0x66), 0x6f);
    MixOf(OFFSET, 0x66, 0xcbf29ce484222343, 0xaf63db4c8601ead9);
    MixOf(0xaf63db4c8601ead9, 0x6f, 0xaf63db4c8601eab6, 0x08985907b541d342);
  }

  lemma MixOf(h: Hash64, b: nat, x: Hash64, r: Hash64)
    requires (h == OFFSET && b == 0x66 && x == 0xcbf29ce484222343)
             || (h == 0xaf63db4c8601ead9 && b == 0x6f && x == 0xaf63db4c8601eab6)
    requires r as int == x as int * PRIME % MODULUS
    ensures Mix(h, b) == r
  {
    hide Xor;
    XorOfFo();
    assert XorLow(h, b) == x;
  }
}
