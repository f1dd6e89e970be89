/** Octal number fields, as a ustar header stores them. */
module Octal {
  import opened Wrappers

  const NUL: Byte := 0
  const SPACE: Byte := 32
  const ZERO: Byte := 48

  function Pow8(n: nat): (r: nat)
    ensures r > 0
  {
    if n == 0 then 1 else 8 * Pow8(n - 1)
  }

  function Repeat(b: Byte, n: nat): (r: Bytes)
    ensures |r| == n && forall i | 0 <= i < n :: r[i] == b
  {
    seq(n, _ => b)
  }

  predicate IsDigit(b: Byte) {
    ZERO <= b < ZERO + 8
  }

  predicate AllDigits(s: Bytes) {
    forall i | 0 <= i < |s| :: IsDigit(s[i])
  }

  /** The octal digits of `v`, without leading zeros. */
  function Digits(v: nat): (r: Bytes)
    ensures r != [] && AllDigits(r)
  {
    if v < 8 then [ZERO + v] else Digits(v / 8) + [ZERO + v % 8]
  }

  function Value(s: Bytes): nat
    requires AllDigits(s)
  {
    if s == [] then 0 else 8 * Value(s[..|s| - 1]) + (s[|s| - 1] - ZERO)
  }

  lemma {:induction false} ValueOfDigits(v: nat)
    ensures Value(Digits(v)) == v
  {
    if v >= 8 {
      ValueOfDigits(v / 8);
      assert Digits(v)[..|Digits(v)| - 1] == Digits(v / 8);
    } else {
      assert Digits(v)[..0] == [];
    }
  }

  lemma {:induction false} ValueBound(s: Bytes)
    requires AllDigits(s)
    ensures Value(s) < Pow8(|s|)
    decreases |s|
  {
    if s != [] {
      ValueBound(s[..|s| - 1]);
    }
  }

  /** How many digits a number has. */
  lemma {:induction false} DigitCount(v: nat, k: nat)
    requires k > 0
    ensures |Digits(v)| <= k <==> v < Pow8(k)
    decreases k
  {
    if v >= 8 {
      if k == 1 {
        assert Pow8(1) == 8;
      } else {
        DigitCount(v / 8, k - 1);
        assert v / 8 < Pow8(k - 1) <==> v < 8 * Pow8(k - 1);
      }
    } else if k > 1 {
      assert Pow8(k) >= 8;
    } else {
      assert Pow8(1) == 8;
    }
  }

  lemma {:induction false} ValueOfZeros(n: nat, s: Bytes)
    requires AllDigits(s)
    ensures AllDigits(Repeat(ZERO, n) + s) && Value(Repeat(ZERO, n) + s) == Value(s)
    decreases |s|, n
  {
    var padded := Repeat(ZERO, n) + s;
    if s != [] {
      assert padded[..|padded| - 1] == Repeat(ZERO, n) + s[..|s| - 1];
      ValueOfZeros(n, s[..|s| - 1]);
    } else if n > 0 {
      assert padded[..|padded| - 1] == Repeat(ZERO, n - 1) + s;
      ValueOfZeros(n - 1, s);
    }
  }

  // ---------------------------------------------------------------------
  // Reading a field
  // ---------------------------------------------------------------------

  /** Digits up to a NUL, a space or the end of the field. */
  function ReadFrom(f: Bytes, acc: nat): Option<nat>
    decreases |f|
  {
    if f == [] || f[0] == NUL || f[0] == SPACE then Some(acc)
    else if IsDigit(f[0]) then ReadFrom(f[1..], 8 * acc + (f[0] - ZERO))
    else None
  }

  function ReadOctal(f: Bytes): Option<nat> {
    ReadFrom(f, 0)
  }

  lemma {:induction false} ReadFromDigits(done: Bytes, f: Bytes, rest: Bytes)
    requires AllDigits(done) && AllDigits(f) && rest != [] && rest[0] in {NUL, SPACE}
    ensures AllDigits(done + f) && ReadFrom(f + rest, Value(done)) == Some(Value(done + f))
    decreases |f|
  {
    if f == [] {
      assert f + rest == rest && done + f == done;
    } else {
      assert (f + rest)[1..] == f[1..] + rest;
      assert (done + [f[0]])[..|done|] == done;
      ReadFromDigits(done + [f[0]], f[1..], rest);
      assert done + [f[0]] + f[1..] == done + f;
    }
  }

  lemma ReadDigits(f: Bytes, rest: Bytes)
    requires AllDigits(f) && rest != [] && rest[0] in {NUL, SPACE}
    ensures ReadOctal(f + rest) == Some(Value(f))
  {
    ReadFromDigits([], f, rest);
    assert [] + f == f;
  }

  // ---------------------------------------------------------------------
  // Writing a field
  // ---------------------------------------------------------------------

  function Min(a: nat, b: nat): nat {
    if a < b then a else b
  }

  function PadTo(v: nat, width: nat): (r: Bytes)
    ensures AllDigits(r)
  {
    var ds := Digits(v);
    Repeat(ZERO, if |ds| < width then width - |ds| else 0) + ds
  }

  /** What a field of `width` bytes holds for `v`: zero-padded digits and a NUL; digits that do not fit
      are dropped at the end. */
  function Field(v: nat, width: nat): (r: Bytes)
    requires width > 0
    ensures |r| == width
  {
    PadTo(v, width - 1)[..width - 1] + [NUL]
  }

  lemma ValueOfPadded(v: nat, width: nat)
    ensures Value(PadTo(v, width)) == v
  {
    var ds := Digits(v);
    ValueOfDigits(v);
    ValueOfZeros(if |ds| < width then width - |ds| else 0, ds);
  }

  /** A field reads back exactly when the value fits. */
  lemma FieldReadsBack(v: nat, width: nat)
    requires width > 1
    ensures ReadOctal(Field(v, width)).Some?
    ensures ReadOctal(Field(v, width)) == Some(v) <==> v < Pow8(width - 1)
  {
    var kept := PadTo(v, width - 1)[..width - 1];
    ReadDigits(kept, [NUL]);
    DigitCount(v, width - 1);
    if v < Pow8(width - 1) {
      assert kept == PadTo(v, width - 1);
      ValueOfPadded(v, width - 1);
    } else {
      ValueBound(kept);
    }
  }

  /** Overwrite part of a block. */
  function Put(h: Bytes, at: nat, f: Bytes): (r: Bytes)
    requires at + |f| <= |h|
    ensures |r| == |h|
    ensures forall i | 0 <= i < |h| :: r[i] == if at <= i < at + |f| then f[i - at] else h[i]
  {
    h[..at] + f + h[at + |f|..]
  }

  /** `copy_from_slice`. */
  method CopyInto(header: array<Byte>, at: nat, f: Bytes)
    requires at + |f| <= header.Length
    modifies header
    ensures header[..] == Put(old(header[..]), at, f)
  {
    forall i | 0 <= i < |f| {
      header[at + i] := f[i];
    }
  }

  /** The digits of `value`, filled into a scratch buffer from its end. */
  method DigitsOf(value: nat) returns (buf: array<Byte>, idx: nat)
    requires value <= U64_MAX
    ensures fresh(buf) && idx <= buf.Length == 24 && buf[idx..] == Digits(value)
  {
    buf := new Byte[24](_ => 0);
    idx := 24;
    var v: nat := value;
    if v == 0 {
      idx := idx - 1;
      buf[idx] := ZERO;
      assert buf[idx..] == Digits(0);
      return;
    }
    U64Digits(v);
    while v > 0 && idx > 0
      invariant idx <= 24 && (v > 0 ==> |Digits(v)| <= idx)
      invariant Digits(value) == (if v == 0 then [] else Digits(v)) + buf[idx..]
      decreases v
    {
      ghost var after := buf[idx..];
      idx := idx - 1;
      buf[idx] := ZERO + v % 8;
      assert buf[idx..] == [ZERO + v % 8] + after;
      v := v / 8;
    }
    assert Digits(value) == buf[idx..];
  }

  lemma U64Digits(v: nat)
    requires v <= U64_MAX
    ensures |Digits(v)| <= 24
  {
    Pow8Of24();
    DigitCount(v, 24);
  }

  lemma Pow8Of24()
    ensures Pow8(24) > U64_MAX
  {
    assert Pow8(8) == 0x100_0000;
    assert Pow8(16) == 0x100_0000 * 0x100_0000;
  }

  lemma PutJoin(h: Bytes, at: nat, f: Bytes, g: Bytes)
    requires at + |f| + |g| <= |h|
    ensures Put(Put(h, at, f), at + |f|, g) == Put(h, at, f + g)
  {
  }

  /** As many leading digits as the field has room for. */
  method LeadingDigits(value: nat, room: nat) returns (kept: Bytes)
    requires value <= U64_MAX
    ensures kept == Digits(value)[..Min(|Digits(value)|, room)]
  {
    var buf, idx := DigitsOf(value);
    var used := buf.Length - idx;
    kept := buf[idx..idx + Min(used, room)];
    assert kept == buf[idx..][..Min(used, room)];
  }

  /** `write_octal` on the slice `header[lo..hi]`. */
  method WriteOctal(header: array<Byte>, lo: nat, hi: nat, value: nat)
    requires lo < hi <= header.Length && value <= U64_MAX
    modifies header
    ensures header[..] == Put(old(header[..]), lo, Field(value, hi - lo))
  {
    var digits := hi - lo - 1;
    var kept := LeadingDigits(value, digits);
    var pad := digits - |kept|;
    FieldInPieces(header[..], lo, value, pad, kept);
    FillZeros(header, lo, pad);
    CopyInto(header, lo + pad, kept);
    CopyInto(header, lo + digits, [NUL]);
  }

  lemma FieldInPieces(h: Bytes, lo: nat, v: nat, pad: nat, kept: Bytes)
    requires lo + pad + |kept| < |h|
    requires kept == Digits(v)[..Min(|Digits(v)|, pad + |kept|)]
    ensures Put(Put(Put(h, lo, Repeat(ZERO, pad)), lo + pad, kept), lo + pad + |kept|, [NUL])
         == Put(h, lo, Field(v, pad + |kept| + 1))
  {
    PutJoin(h, lo, Repeat(ZERO, pad), kept);
    PutJoin(h, lo, Repeat(ZERO, pad) + kept, [NUL]);
    assert Field(v, pad + |kept| + 1) == Repeat(ZERO, pad) + kept + [NUL];
  }

  method FillZeros(header: array<Byte>, lo: nat, n: nat)
    requires lo + n <= header.Length
    modifies header
    ensures header[..] == Put(old(header[..]), lo, Repeat(ZERO, n))
  {
    for i := 0 to n
      invariant forall j | 0 <= j < header.Length :: header[j] == if lo <= j < lo + i then ZERO else old(header[j])
    {
      header[lo + i] := ZERO;
    }
  }
}
