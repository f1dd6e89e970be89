/** The x86-64 emitter: one instruction at a time to bytes, with a decoder that inverts it. Field
    layouts follow the Intel SDM, Vol. 2A, sections 2.1.3 (ModR/M) and 2.2.1 (REX). */
module X64Encoder {
  import opened Wrappers

  type Code = seq<bv8>

  type I32 = x: int | -0x8000_0000 <= x < 0x8000_0000
  type I64 = x: int | -0x8000_0000_0000_0000 <= x < 0x8000_0000_0000_0000

  datatype Reg =
    Rax | Rcx | Rdx | Rbx | Rsp | Rbp | Rsi | Rdi | R8 | R9 | R10 | R11 | R12 | R13 | R14 | R15
  {
    function Index(): bv8 {
      match this
      case Rax => 0 case Rcx => 1 case Rdx => 2 case Rbx => 3
      case Rsp => 4 case Rbp => 5 case Rsi => 6 case Rdi => 7
      case R8 => 8 case R9 => 9 case R10 => 10 case R11 => 11
      case R12 => 12 case R13 => 13 case R14 => 14 case R15 => 15
    }

    function Low3(): bv8 {
      Index() & 7
    }

    predicate IsExtended() {
      Index() >= 8
    }

    function ExtBit(): bv8 {
      if IsExtended() then 1 else 0
    }
  }

  datatype X64Instr =
    | MovRegImm64(reg: Reg, imm: I64)
    | MovRegReg(dst: Reg, src: Reg)
    | AddRegReg(dst: Reg, src: Reg)
    | SubRegReg(dst: Reg, src: Reg)
    | ImulRegReg(dst: Reg, src: Reg)
    | PushReg(reg: Reg)
    | PopReg(reg: Reg)
    | Ret
    | Syscall
    | JmpRel32(rel: I32)
    | CmpRegReg(lhs: Reg, rhs: Reg)
    | Je(rel: I32)
    | Jne(rel: I32)
    | Jl(rel: I32)
    | Jg(rel: I32)
    | Nop

  // ---------------------------------------------------------------------
  // Little-endian integers
  // ---------------------------------------------------------------------

  function Nibble(d: int): bv8
    requires 0 <= d < 16
  {
    if d < 8 then
      if d < 4 then (if d < 2 then (if d == 0 then 0 else 1) else (if d == 2 then 2 else 3))
      else (if d < 6 then (if d == 4 then 4 else 5) else (if d == 6 then 6 else 7))
    else
      if d < 12 then (if d < 10 then (if d == 8 then 8 else 9) else (if d == 10 then 10 else 11))
      else (if d < 14 then (if d == 12 then 12 else 13) else (if d == 14 then 14 else 15))
  }

  /** The byte whose value is `v`. */
  function ToByte(v: int): bv8
    requires 0 <= v < 256
  {
    (Nibble(v / 16) << 4) | Nibble(v % 16)
  }

  function LeBytes(v: nat, n: nat): (r: Code)
    ensures |r| == n
  {
    if n == 0 then [] else [ToByte(v % 256)] + LeBytes(v / 256, n - 1)
  }

  function LeNat(bs: Code): nat {
    if bs == [] then 0 else bs[0] as int + 256 * LeNat(bs[1..])
  }

  function Pow256(n: nat): (r: nat)
    ensures r > 0
  {
    if n == 0 then 1 else 256 * Pow256(n - 1)
  }

  lemma ByteBack(v: int)
    requires 0 <= v < 256
    ensures ToByte(v) as int == v
  {
    var hi, lo := Nibble(v / 16), Nibble(v % 16);
    assert hi as int == v / 16 && lo as int == v % 16;
    NibblesJoin(hi, lo);
  }

  lemma NibblesJoin(hi: bv8, lo: bv8)
    requires hi < 16 && lo < 16
    ensures ((hi << 4) | lo) as int == 16 * (hi as int) + lo as int
  {
  }

  lemma ByteForth(b: bv8)
    ensures ToByte(b as int) == b
  {
    var hi, lo := b >> 4, b & 15;
    NibblesSplit(b);
    NibblesJoin(hi, lo);
    NibbleForth(hi);
    NibbleForth(lo);
  }

  lemma NibblesSplit(b: bv8)
    ensures b >> 4 < 16 && b & 15 < 16 && b == ((b >> 4) << 4) | (b & 15)
  {
  }

  lemma NibbleForth(d: bv8)
    requires d < 16
    ensures d as int < 16 && Nibble(d as int) == d
  {
  }

  lemma {:induction false} LeNatBack(v: nat, n: nat)
    requires v < Pow256(n)
    ensures LeNat(LeBytes(v, n)) == v
  {
    if n > 0 {
      assert v / 256 < Pow256(n - 1);
      LeNatBack(v / 256, n - 1);
      ByteBack(v % 256);
      assert LeBytes(v, n)[1..] == LeBytes(v / 256, n - 1);
    }
  }

  lemma {:induction false} LeBytesBack(bs: Code)
    ensures LeNat(bs) < Pow256(|bs|) && LeBytes(LeNat(bs), |bs|) == bs
  {
    if bs != [] {
      LeBytesBack(bs[1..]);
      var b := bs[0] as int;
      assert LeNat(bs) % 256 == b && LeNat(bs) / 256 == LeNat(bs[1..]);
      ByteForth(bs[0]);
      assert bs == [bs[0]] + bs[1..];
    }
  }

  /** Two's complement on `n` bytes. */
  function Wrap(x: int, n: nat): nat {
    x % Pow256(n)
  }

  function Signed(v: nat, n: nat): int {
    if 2 * v < Pow256(n) then v else v - Pow256(n)
  }

  lemma Pow256Values()
    ensures Pow256(4) == 0x1_0000_0000 && Pow256(8) == 0x1_0000_0000_0000_0000
  {
    assert Pow256(1) == 256 && Pow256(2) == 0x1_0000 && Pow256(3) == 0x100_0000;
    assert Pow256(5) == 0x100_0000_0000 && Pow256(6) == 0x1_0000_0000_0000 && Pow256(7) == 0x100_0000_0000_0000;
  }

  lemma ModShift(x: int, m: nat)
    requires m > 0 && 0 - m <= x < m
    ensures x % m == if x < 0 then x + m else x
  {
  }

  lemma WrapBack(x: int, n: nat)
    requires 0 - Pow256(n) <= 2 * x < Pow256(n)
    ensures Signed(Wrap(x, n), n) == x
  {
    ModShift(x, Pow256(n));
  }

  lemma SignedBack(v: nat, n: nat)
    requires v < Pow256(n)
    ensures Wrap(Signed(v, n), n) == v && 0 - Pow256(n) <= 2 * Signed(v, n) < Pow256(n)
  {
    ModShift(Signed(v, n), Pow256(n));
  }

  function I32Bytes(x: I32): (r: Code)
    ensures |r| == 4
  {
    LeBytes(Wrap(x, 4), 4)
  }

  function I64Bytes(x: I64): (r: Code)
    ensures |r| == 8
  {
    LeBytes(Wrap(x, 8), 8)
  }

  function ReadI32(bs: Code): I32
    requires |bs| == 4
  {
    Pow256Values();
    LeBytesBack(bs);
    SignedBack(LeNat(bs), 4);
    Signed(LeNat(bs), 4)
  }

  function ReadI64(bs: Code): I64
    requires |bs| == 8
  {
    Pow256Values();
    LeBytesBack(bs);
    SignedBack(LeNat(bs), 8);
    Signed(LeNat(bs), 8)
  }

  lemma I32Back(x: I32)
    ensures ReadI32(I32Bytes(x)) == x
  {
    Pow256Values();
    LeNatBack(Wrap(x, 4), 4);
    WrapBack(x, 4);
  }

  lemma I64Back(x: I64)
    ensures ReadI64(I64Bytes(x)) == x
  {
    Pow256Values();
    LeNatBack(Wrap(x, 8), 8);
    WrapBack(x, 8);
  }

  lemma I32Forth(bs: Code)
    requires |bs| == 4
    ensures I32Bytes(ReadI32(bs)) == bs
  {
    LeBytesBack(bs);
    SignedBack(LeNat(bs), 4);
  }

  lemma I64Forth(bs: Code)
    requires |bs| == 8
    ensures I64Bytes(ReadI64(bs)) == bs
  {
    LeBytesBack(bs);
    SignedBack(LeNat(bs), 8);
  }

  // ---------------------------------------------------------------------
  // Encoding
  // ---------------------------------------------------------------------

  function Rex(w: bv8, r: bv8, x: bv8, b: bv8): bv8 {
    0x40 | ((w & 1) << 3) | ((r & 1) << 2) | ((x & 1) << 1) | (b & 1)
  }

  function ModRm(mode: bv8, reg: bv8, rm: bv8): bv8 {
    ((mode & 3) << 6) | ((reg & 7) << 3) | (rm & 7)
  }

  /** `<opcode> r/m64, r64`: the source sits in ModR/M.reg, the destination in ModR/M.rm. */
  function RmRW(opcode: bv8, rm: Reg, reg: Reg): Code {
    [Rex(1, reg.ExtBit(), 0, rm.ExtBit()), opcode, ModRm(3, reg.Low3(), rm.Low3())]
  }

  function PushPop(base: bv8, reg: Reg): Code {
    (if reg.IsExtended() then [Rex(0, 0, 0, 1)] else []) + [base + reg.Low3()]
  }

  function Jcc(op: bv8, rel: I32): Code {
    [0x0F, op] + I32Bytes(rel)
  }

  function Encoding(i: X64Instr): (r: Code)
    ensures |r| > 0
  {
    match i
    case MovRegImm64(reg, imm) => [Rex(1, 0, 0, reg.ExtBit()), 0xB8 + reg.Low3()] + I64Bytes(imm)
    case MovRegReg(dst, src) => RmRW(0x89, dst, src)
    case AddRegReg(dst, src) => RmRW(0x01, dst, src)
    case SubRegReg(dst, src) => RmRW(0x29, dst, src)
    case CmpRegReg(lhs, rhs) => RmRW(0x39, lhs, rhs)
    case ImulRegReg(dst, src) =>
      [Rex(1, dst.ExtBit(), 0, src.ExtBit()), 0x0F, 0xAF, ModRm(3, dst.Low3(), src.Low3())]
    case PushReg(reg) => PushPop(0x50, reg)
    case PopReg(reg) => PushPop(0x58, reg)
    case Ret => [0xC3]
    case Syscall => [0x0F, 0x05]
    case Nop => [0x90]
    case JmpRel32(rel) => [0xE9] + I32Bytes(rel)
    case Je(rel) => Jcc(0x84, rel)
    case Jne(rel) => Jcc(0x85, rel)
    case Jl(rel) => Jcc(0x8C, rel)
    case Jg(rel) => Jcc(0x8F, rel)
  }

  // ---------------------------------------------------------------------
  // Decoding
  // ---------------------------------------------------------------------

  function RegOf(ext: bv8, low3: bv8): Reg {
    var k := low3 & 7;
    if ext & 1 == 0 then
      if k == 0 then Rax else if k == 1 then Rcx else if k == 2 then Rdx else if k == 3 then Rbx
      else if k == 4 then Rsp else if k == 5 then Rbp else if k == 6 then Rsi else Rdi
    else
      if k == 0 then R8 else if k == 1 then R9 else if k == 2 then R10 else if k == 3 then R11
      else if k == 4 then R12 else if k == 5 then R13 else if k == 6 then R14 else R15
  }

  /** An instruction and the number of bytes it took. */
  type Decoded = Option<(X64Instr, nat)>

  function DecodeStack(ext: bv8, op: bv8, used: nat): Decoded {
    if op & 0xF8 == 0x50 then Some((PushReg(RegOf(ext, op)), used))
    else if op & 0xF8 == 0x58 then Some((PopReg(RegOf(ext, op)), used))
    else None
  }

  function DecodeJcc(op: bv8, rel: I32): Decoded {
    if op == 0x84 then Some((Je(rel), 6))
    else if op == 0x85 then Some((Jne(rel), 6))
    else if op == 0x8C then Some((Jl(rel), 6))
    else if op == 0x8F then Some((Jg(rel), 6))
    else None
  }

  function DecodeRmRW(op: bv8, rm: Reg, reg: Reg): Decoded {
    if op == 0x89 then Some((MovRegReg(rm, reg), 3))
    else if op == 0x01 then Some((AddRegReg(rm, reg), 3))
    else if op == 0x29 then Some((SubRegReg(rm, reg), 3))
    else if op == 0x39 then Some((CmpRegReg(rm, reg), 3))
    else None
  }

  /** Behind a REX.W prefix with REX.X clear. */
  function DecodeWide(c: Code): Decoded
    requires |c| >= 2
  {
    var r, b := (c[0] >> 2) & 1, c[0] & 1;
    if c[1] & 0xF8 == 0xB8 then
      if r == 0 && |c| >= 10 then Some((MovRegImm64(RegOf(b, c[1]), ReadI64(c[2..10])), 10)) else None
    else if c[1] == 0x0F then
      if |c| >= 4 && c[2] == 0xAF && c[3] >> 6 == 3
      then Some((ImulRegReg(RegOf(r, c[3] >> 3), RegOf(b, c[3])), 4)) else None
    else if |c| >= 3 && c[2] >> 6 == 3
    then DecodeRmRW(c[1], RegOf(b, c[2]), RegOf(r, c[2] >> 3))
    else None
  }

  /** The instruction at the front of `c`. */
  function DecodeInstr(c: Code): Decoded {
    if |c| == 0 then None
    else if c[0] == 0xC3 then Some((Ret, 1))
    else if c[0] == 0x90 then Some((Nop, 1))
    else if c[0] == 0xE9 then
      if |c| >= 5 then Some((JmpRel32(ReadI32(c[1..5])), 5)) else None
    else if c[0] == 0x0F then
      if |c| >= 2 && c[1] == 0x05 then Some((Syscall, 2))
      else if |c| >= 6 then DecodeJcc(c[1], ReadI32(c[2..6]))
      else None
    else if c[0] == 0x41 then
      if |c| >= 2 then DecodeStack(1, c[1], 2) else None
    else if c[0] & 0xFA == 0x48 then
      if |c| >= 2 then DecodeWide(c) else None
    else DecodeStack(0, c[0], 1)
  }

  // ---------------------------------------------------------------------
  // Bit fields
  // ---------------------------------------------------------------------

  lemma RegBack(r: Reg)
    ensures RegOf(r.ExtBit(), r.Low3()) == r
  {
  }

  lemma RegForth(ext: bv8, low3: bv8)
    ensures RegOf(ext, low3).ExtBit() == ext & 1 && RegOf(ext, low3).Low3() == low3 & 7
  {
  }

  lemma RegMasked(ext: bv8, low3: bv8)
    ensures RegOf(ext, low3) == RegOf(ext & 1, low3 & 7)
  {
  }

  lemma RexFields(r: bv8, b: bv8)
    requires r <= 1 && b <= 1
    ensures var x := Rex(1, r, 0, b);
            x & 0xFA == 0x48 && (x >> 2) & 1 == r && x & 1 == b
            && x != 0xC3 && x != 0x90 && x != 0xE9 && x != 0x0F && x != 0x41
    ensures Rex(0, 0, 0, 1) == 0x41
  {
  }

  lemma RexForth(x: bv8)
    requires x & 0xFA == 0x48
    ensures Rex(1, (x >> 2) & 1, 0, x & 1) == x
  {
  }

  lemma ModRmFields(reg: bv8, rm: bv8)
    requires reg <= 7 && rm <= 7
    ensures var m := ModRm(3, reg, rm); m >> 6 == 3 && (m >> 3) & 7 == reg && m & 7 == rm
  {
  }

  lemma ModRmForth(m: bv8)
    requires m >> 6 == 3
    ensures ModRm(3, (m >> 3) & 7, m & 7) == m
  {
  }

  lemma OpcodeFields(low3: bv8)
    requires low3 <= 7
    ensures (0xB8 + low3) & 0xF8 == 0xB8 && (0xB8 + low3) & 7 == low3
    ensures var push := 0x50 + low3;
            push & 0xF8 == 0x50 && push & 7 == low3 && push & 0xFA != 0x48
            && push != 0xC3 && push != 0x90 && push != 0xE9 && push != 0x0F && push != 0x41
    ensures var pop := 0x58 + low3;
            pop & 0xF8 == 0x58 && pop & 7 == low3 && pop & 0xFA != 0x48
            && pop != 0xC3 && pop != 0x90 && pop != 0xE9 && pop != 0x0F && pop != 0x41
  {
  }

  lemma OpcodeForth(op: bv8)
    ensures op & 0xF8 == 0xB8 ==> 0xB8 + (op & 7) == op
    ensures op & 0xF8 == 0x50 ==> 0x50 + (op & 7) == op
    ensures op & 0xF8 == 0x58 ==> 0x58 + (op & 7) == op
  {
  }

  lemma Low3Bound(r: Reg)
    ensures r.Low3() <= 7 && r.ExtBit() <= 1
  {
  }
}
