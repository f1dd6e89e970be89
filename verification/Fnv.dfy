/** FNV-1a, 64 bits: the integrity checksum of archives and code images. */
module Fnv {
  import opened Wrappers

  const MOD: int := 0x1_0000_0000_0000_0000
  const OFFSET: int := 0xcbf2_9ce4_8422_2325
  const PRIME: int := 0x0000_0100_0000_01b3

  type Word = w: int | 0 <= w < MOD

  function Pow2(n: nat): (r: nat)
    ensures r > 0
  {
    if n == 0 then 1 else 2 * Pow2(n - 1)
  }

  type Bit = b: int | 0 <= b < 2

  function XorBit(a: Bit, b: Bit): Bit {
    if a == b then 0 else 1
  }

  /** Exclusive or of the low `n` bits. */
  function Xor(x: nat, y: nat, n: nat): (r: nat)
    ensures r < Pow2(n)
  {
    if n == 0 then 0 else XorBit(x % 2, y % 2) + 2 * Xor(x / 2, y / 2, n - 1)
  }

  lemma {:induction false} XorCancels(x: nat, y: nat, n: nat)
    requires x < Pow2(n)
    ensures Xor(Xor(x, y, n), y, n) == x
  {
    if n > 0 {
      XorCancels(x / 2, y / 2, n - 1);
      Halves(XorBit(x % 2, y % 2), Xor(x / 2, y / 2, n - 1));
    }
  }

  lemma Halves(low: Bit, high: nat)
    ensures (low + 2 * high) % 2 == low && (low + 2 * high) / 2 == high
  {
  }

  lemma {:induction false} XorCommutes(x: nat, y: nat, n: nat)
    ensures Xor(x, y, n) == Xor(y, x, n)
  {
    if n > 0 {
      XorCommutes(x / 2, y / 2, n - 1);
    }
  }

  lemma {:induction false} Pow2Splits(m: nat, n: nat)
    ensures Pow2(m + n) == Pow2(m) * Pow2(n)
  {
    if m > 0 {
      Pow2Splits(m - 1, n);
      Associates(Pow2(m - 1), Pow2(n));
    }
  }

  lemma Associates(a: nat, b: nat)
    ensures 2 * a * b == 2 * (a * b)
  {
  }

  lemma Doubled(n: nat, v: nat)
    requires Pow2(n) == v
    ensures Pow2(2 * n) == v * v
  {
    Pow2Splits(n, n);
  }

  lemma WordBits()
    ensures Pow2(64) == MOD
  {
    Doubled(8, 0x100);
    Doubled(16, 0x1_0000);
    Doubled(32, 0x1_0000_0000);
  }

  /** One round: mix the byte in, then multiply. */
  function Round(h: Word, b: Byte): Word {
    Xor(h, b, 64) * PRIME % MOD
  }

  function HashFrom(h: Word, bytes: Bytes): Word
    decreases |bytes|
  {
    if bytes == [] then h else HashFrom(Round(h, bytes[0]), bytes[1..])
  }

  function Fnv1a(bytes: Bytes): Word {
    HashFrom(OFFSET, bytes)
  }

  method Compute(bytes: Bytes) returns (hash: Word)
    ensures hash == Fnv1a(bytes)
  {
    hash := OFFSET;
    for i := 0 to |bytes|
      invariant HashFrom(hash, bytes[i..]) == Fnv1a(bytes)
    {
      assert bytes[i..][1..] == bytes[i + 1..];
      hash := Round(hash, bytes[i]);
    }
  }

  // ---------------------------------------------------------------------
  // Rounds lose nothing
  // ---------------------------------------------------------------------

  /** The inverse of the prime modulo the word size. */
  const INVERSE: int := 0xce965057aff6957b

  /** Multiplying by the (odd) prime is one-to-one on words. */
  lemma MultiplyInjective(a: Word, b: Word)
    requires a * PRIME % MOD == b * PRIME % MOD
    ensures a == b
  {
    var d := a - b;
    var m := a * PRIME / MOD - b * PRIME / MOD;
    assert d * PRIME == MOD * m;
    assert PRIME * INVERSE == 1 + MOD * 887285111055;
    assert d == MOD * (m * INVERSE - d * 887285111055);
  }

  lemma RoundInjectiveInState(g: Word, h: Word, b: Byte)
    requires Round(g, b) == Round(h, b)
    ensures g == h
  {
    WordBits();
    MultiplyInjective(Xor(g, b, 64), Xor(h, b, 64));
    XorCancels(g, b, 64);
    XorCancels(h, b, 64);
  }

  lemma RoundInjectiveInByte(h: Word, b: Byte, c: Byte)
    requires Round(h, b) == Round(h, c)
    ensures b == c
  {
    WordBits();
    MultiplyInjective(Xor(h, b, 64), Xor(h, c, 64));
    XorCommutes(h, b, 64);
    XorCommutes(h, c, 64);
    XorCancels(b, h, 64);
    XorCancels(c, h, 64);
  }

  lemma {:induction false} SuffixInjective(g: Word, h: Word, s: Bytes)
    requires HashFrom(g, s) == HashFrom(h, s)
    ensures g == h
    decreases |s|
  {
    if s != [] {
      SuffixInjective(Round(g, s[0]), Round(h, s[0]), s[1..]);
      RoundInjectiveInState(g, h, s[0]);
    }
  }

  lemma {:induction false} HashFromAppend(h: Word, p: Bytes, s: Bytes)
    ensures HashFrom(h, p + s) == HashFrom(HashFrom(h, p), s)
    decreases |p|
  {
    if p == [] {
      assert p + s == s;
    } else {
      assert (p + s)[1..] == p[1..] + s;
      HashFromAppend(Round(h, p[0]), p[1..], s);
    }
  }

  /** Changing one byte always changes the hash. */
  lemma OneByteChanges(p: Bytes, b: Byte, c: Byte, s: Bytes)
    requires b != c
    ensures Fnv1a(p + [b] + s) != Fnv1a(p + [c] + s)
  {
    var h := HashFrom(OFFSET, p);
    forall x: Byte ensures Fnv1a(p + [x] + s) == HashFrom(Round(h, x), s) {
      HashFromAppend(OFFSET, p + [x], s);
      HashFromAppend(OFFSET, p, [x]);
      assert [x][1..] == [];
    }
    if Fnv1a(p + [b] + s) == Fnv1a(p + [c] + s) {
      SuffixInjective(Round(h, b), Round(h, c), s);
      RoundInjectiveInByte(h, b, c);
    }
  }

  /** Two byte strings of equal length that differ in exactly one place hash differently. */
  lemma SingleDifferenceDetected(a: Bytes, b: Bytes, i: nat)
    requires |a| == |b| && i < |a| && a[i] != b[i]
    requires forall j | 0 <= j < |a| && j != i :: a[j] == b[j]
    ensures Fnv1a(a) != Fnv1a(b)
  {
    var p, s := a[..i], a[i + 1..];
    assert a == p + [a[i]] + s;
    assert b == p + [b[i]] + s;
    OneByteChanges(p, a[i], b[i], s);
  }

  lemma {:induction false} XorNothing(x: nat, n: nat)
    requires x < Pow2(n)
    ensures Xor(x, 0, n) == x
  {
    if n > 0 {
      XorNothing(x / 2, n - 1);
    }
  }

  /** One bit of an exclusive or. */
  lemma XorStep(x: nat, y: nat, n: nat, a: nat, b: nat, s: Bit, t: Bit)
    requires x == 2 * a + s && y == 2 * b + t
    ensures Xor(x, y, n + 1) == XorBit(s, t) + 2 * Xor(a, b, n)
  {
    assert x % 2 == s && y % 2 == t && x / 2 == a && y / 2 == b;
  }

  lemma Pow56()
    ensures Pow2(56) == 0x100_0000_0000_0000
  {
    Doubled(8, 0x100);
    Doubled(16, 0x1_0000);
    Pow2Splits(32, 16);
    Pow2Splits(48, 8);
  }

  lemma MixLow(x: nat, y: nat, high: nat, n: nat)
    requires x == 16 * high + 5 && y == 97
    ensures Xor(x, y, n + 4) == 4 + 16 * Xor(high, 6, n)
  {
    XorStep(x, y, n + 3, 8 * high + 2, 48, 1, 1);
    XorStep(8 * high + 2, 48, n + 2, 4 * high + 1, 24, 0, 0);
    XorStep(4 * high + 1, 24, n + 1, 2 * high, 12, 1, 0);
    XorStep(2 * high, 12, n, high, 6, 0, 0);
  }

  lemma MixHigh(x: nat, y: nat, high: nat, n: nat)
    requires x == 16 * high + 2 && y == 6
    ensures Xor(x, y, n + 4) == 4 + 16 * Xor(high, 0, n)
  {
    XorStep(x, y, n + 3, 8 * high + 1, 3, 0, 0);
    XorStep(8 * high + 1, 3, n + 2, 4 * high, 1, 1, 1);
    XorStep(4 * high, 1, n + 1, 2 * high, 0, 0, 1);
    XorStep(2 * high, 0, n, high, 0, 0, 0);
  }

  /** The low byte 0x25 with the letter a gives 0x44. */
  lemma MixLetter(x: nat, y: nat, high: nat, n: nat)
    requires x == 256 * high + 0x25 && y == 97
    ensures Xor(x, y, n + 8) == 0x44 + 256 * Xor(high, 0, n)
  {
    MixLow(x, y, 16 * high + 2, n + 4);
    MixHigh(16 * high + 2, 6, high, n);
  }

  lemma FirstRound(h: Word, b: Byte, n: nat)
    requires h == 0xcbf2_9ce4_8422_2325 && 96 < b < 98 && n == 56
    ensures Xor(h, b, n + 8) == 0xcbf2_9ce4_8422_2344
  {
    Pow56();
    MixLetter(h, b, 0xcb_f29c_e484_2223, n);
    XorNothing(0xcb_f29c_e484_2223, n);
  }

  lemma HashOfLetter(h: Word, a: Bytes)
    requires h == 0xcbf2_9ce4_8422_2325 && |a| == 1 && 96 < a[0] < 98
    ensures HashFrom(h, a) == 0xaf63_dc4c_8601_ec8c
  {
    FirstRound(h, a[0], 56);
    assert a[1..] == [];
  }

  /** The published hashes of the empty string and of "a". */
  lemma PublishedHashes(a: Bytes)
    requires a == [97]
    ensures Fnv1a([]) == 0xcbf2_9ce4_8422_2325 && Fnv1a(a) == 0xaf63_dc4c_8601_ec8c
  {
    HashOfLetter(OFFSET, a);
  }
}
