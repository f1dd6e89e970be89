/** Decoding inverts encoding both ways, instruction by instruction, so no encoding is a prefix of
    another. */
module X64Codec {
  import opened Wrappers
  import opened X64Encoder

  /** Both registers come back from the prefix and the ModR/M byte. */
  lemma RegistersBack(reg: Reg, rm: Reg)
    ensures var x, m := Rex(1, reg.ExtBit(), 0, rm.ExtBit()), ModRm(3, reg.Low3(), rm.Low3());
            && RegOf((x >> 2) & 1, m >> 3) == reg && RegOf(x & 1, m) == rm && m >> 6 == 3
            && x & 0xFA == 0x48 && x != 0xC3 && x != 0x90 && x != 0xE9 && x != 0x0F && x != 0x41
  {
    var m := ModRm(3, reg.Low3(), rm.Low3());
    Low3Bound(rm);
    Low3Bound(reg);
    RexFields(reg.ExtBit(), rm.ExtBit());
    ModRmFields(reg.Low3(), rm.Low3());
    FieldBack(reg, m >> 3);
    FieldBack(rm, m);
  }

  lemma FieldBack(r: Reg, bits: bv8)
    requires bits & 7 == r.Low3()
    ensures RegOf(r.ExtBit(), bits) == r
  {
    Low3Bound(r);
    RegMasked(r.ExtBit(), bits);
    RegMasked(r.ExtBit(), r.Low3());
    RegBack(r);
  }

  lemma RmRWBack(op: bv8, rm: Reg, reg: Reg, rest: Code)
    requires op == 0x89 || op == 0x01 || op == 0x29 || op == 0x39
    ensures DecodeInstr(RmRW(op, rm, reg) + rest) == DecodeRmRW(op, rm, reg)
  {
    var x, m := Rex(1, reg.ExtBit(), 0, rm.ExtBit()), ModRm(3, reg.Low3(), rm.Low3());
    RegistersBack(reg, rm);
    OpcodeIsPlain(op);
    assert RmRW(op, rm, reg) + rest == [x, op, m] + rest;
    WideThree(x, op, m, rest);
  }

  lemma OpcodeIsPlain(op: bv8)
    requires op == 0x89 || op == 0x01 || op == 0x29 || op == 0x39
    ensures op & 0xF8 != 0xB8 && op != 0x0F
  {
  }

  /** A prefix, an opcode and a ModR/M byte. */
  lemma WideThree(x: bv8, op: bv8, m: bv8, rest: Code)
    requires x & 0xFA == 0x48 && x != 0xC3 && x != 0x90 && x != 0xE9 && x != 0x0F && x != 0x41
    requires op & 0xF8 != 0xB8 && op != 0x0F && m >> 6 == 3
    ensures DecodeInstr([x, op, m] + rest) == DecodeRmRW(op, RegOf(x & 1, m), RegOf((x >> 2) & 1, m >> 3))
  {
  }

  lemma ImulBack(dst: Reg, src: Reg, rest: Code)
    ensures DecodeInstr(Encoding(ImulRegReg(dst, src)) + rest) == Some((ImulRegReg(dst, src), 4))
  {
    RegistersBack(dst, src);
    var x, m := Rex(1, dst.ExtBit(), 0, src.ExtBit()), ModRm(3, dst.Low3(), src.Low3());
    assert Encoding(ImulRegReg(dst, src)) + rest == [x, 0x0F, 0xAF, m] + rest;
  }

  lemma MovImmBack(reg: Reg, imm: I64, rest: Code)
    ensures DecodeInstr(Encoding(MovRegImm64(reg, imm)) + rest) == Some((MovRegImm64(reg, imm), 10))
  {
    var c := Encoding(MovRegImm64(reg, imm)) + rest;
    Low3Bound(reg);
    RexFields(0, reg.ExtBit());
    OpcodeFields(reg.Low3());
    RegMasked(reg.ExtBit(), c[1]);
    RegMasked(reg.ExtBit(), reg.Low3());
    RegBack(reg);
    assert c[2..10] == I64Bytes(imm);
    I64Back(imm);
  }

  lemma PushPopBack(reg: Reg, rest: Code)
    ensures DecodeInstr(Encoding(PushReg(reg)) + rest) == Some((PushReg(reg), |Encoding(PushReg(reg))|))
    ensures DecodeInstr(Encoding(PopReg(reg)) + rest) == Some((PopReg(reg), |Encoding(PopReg(reg))|))
  {
    Low3Bound(reg);
    RexFields(0, 1);
    OpcodeFields(reg.Low3());
    RegMasked(reg.ExtBit(), 0x50 + reg.Low3());
    RegMasked(reg.ExtBit(), 0x58 + reg.Low3());
    RegMasked(reg.ExtBit(), reg.Low3());
    RegBack(reg);
  }

  lemma JumpBack(rel: I32, rest: Code)
    ensures DecodeInstr(Encoding(JmpRel32(rel)) + rest) == Some((JmpRel32(rel), 5))
  {
    assert (Encoding(JmpRel32(rel)) + rest)[1..5] == I32Bytes(rel);
    I32Back(rel);
  }

  lemma JccBack(op: bv8, rel: I32, rest: Code)
    requires DecodeJcc(op, rel).Some?
    ensures DecodeInstr(Jcc(op, rel) + rest) == DecodeJcc(op, rel)
  {
    assert (Jcc(op, rel) + rest)[2..6] == I32Bytes(rel);
    I32Back(rel);
  }

  lemma BranchBack(i: X64Instr, rest: Code)
    requires i.Je? || i.Jne? || i.Jl? || i.Jg?
    ensures DecodeInstr(Encoding(i) + rest) == Some((i, |Encoding(i)|))
  {
    match i
    case Je(rel) => JccBack(0x84, rel, rest);
    case Jne(rel) => JccBack(0x85, rel, rest);
    case Jl(rel) => JccBack(0x8C, rel, rest);
    case Jg(rel) => JccBack(0x8F, rel, rest);
  }

  /** Whatever follows it, an encoded instruction decodes to itself and to its own length. */
  lemma DecodeUndoesEncoding(i: X64Instr, rest: Code)
    ensures DecodeInstr(Encoding(i) + rest) == Some((i, |Encoding(i)|))
  {
    match i
    case MovRegImm64(reg, imm) => MovImmBack(reg, imm, rest);
    case MovRegReg(dst, src) => RmRWBack(0x89, dst, src, rest);
    case AddRegReg(dst, src) => RmRWBack(0x01, dst, src, rest);
    case SubRegReg(dst, src) => RmRWBack(0x29, dst, src, rest);
    case CmpRegReg(lhs, rhs) => RmRWBack(0x39, lhs, rhs, rest);
    case ImulRegReg(dst, src) => ImulBack(dst, src, rest);
    case PushReg(reg) => PushPopBack(reg, rest);
    case PopReg(reg) => PushPopBack(reg, rest);
    case JmpRel32(rel) => JumpBack(rel, rest);
    case Je(_) => BranchBack(i, rest);
    case Jne(_) => BranchBack(i, rest);
    case Jl(_) => BranchBack(i, rest);
    case Jg(_) => BranchBack(i, rest);
    case Ret =>
    case Syscall =>
    case Nop =>
  }

  lemma WideForth(c: Code)
    requires |c| >= 2 && c[0] & 0xFA == 0x48 && DecodeWide(c).Some?
    ensures var (i, n) := DecodeWide(c).value; n <= |c| && c[..n] == Encoding(i)
  {
    var r, b := (c[0] >> 2) & 1, c[0] & 1;
    RexForth(c[0]);
    if c[1] & 0xF8 == 0xB8 {
      OpcodeForth(c[1]);
      RegForth(b, c[1]);
      I64Forth(c[2..10]);
    } else if c[1] == 0x0F {
      ModRmForth(c[3]);
      RegForth(r, c[3] >> 3);
      RegForth(b, c[3]);
    } else {
      ModRmForth(c[2]);
      RegForth(b, c[2]);
      RegForth(r, c[2] >> 3);
    }
  }

  lemma StackForth(ext: bv8, op: bv8)
    requires ext <= 1 && DecodeStack(ext, op, 1).Some?
    ensures Encoding(DecodeStack(ext, op, 1).value.0) == (if ext == 1 then [0x41] else []) + [op]
  {
    OpcodeForth(op);
    RegForth(ext, op);
    RexFields(0, 0);
    var reg := RegOf(ext, op);
    assert ext & 1 == ext;
    assert reg.IsExtended() <==> ext == 1;
  }

  lemma BranchForth(c: Code)
    requires c != [] && c[0] == 0x0F && DecodeInstr(c).Some?
    ensures var (i, n) := DecodeInstr(c).value; n <= |c| && c[..n] == Encoding(i)
  {
    if c[1] != 0x05 {
      I32Forth(c[2..6]);
    }
  }

  /** The decoder accepts nothing but encodings: what it reads is what the encoder would write. */
  lemma EncodingUndoesDecode(c: Code)
    requires DecodeInstr(c).Some?
    ensures var (i, n) := DecodeInstr(c).value; n <= |c| && c[..n] == Encoding(i)
  {
    if c[0] == 0xE9 {
      I32Forth(c[1..5]);
    } else if c[0] == 0x0F {
      BranchForth(c);
    } else if c[0] == 0x41 {
      StackForth(1, c[1]);
    } else if c[0] & 0xFA == 0x48 {
      WideForth(c);
    } else if c[0] != 0xC3 && c[0] != 0x90 {
      StackForth(0, c[0]);
    }
  }

  /** No encoding is a prefix of a different one. */
  lemma PrefixFree(i: X64Instr, j: X64Instr)
    requires Encoding(i) <= Encoding(j)
    ensures i == j
  {
    var rest := Encoding(j)[|Encoding(i)|..];
    assert Encoding(j) == Encoding(i) + rest;
    DecodeUndoesEncoding(i, rest);
    assert Encoding(j) + [] == Encoding(j);
    DecodeUndoesEncoding(j, []);
  }

  // ---------------------------------------------------------------------
  // Published encodings
  // ---------------------------------------------------------------------

  /** The bytes that the Intel SDM gives for moves and arithmetic between registers. */
  lemma MoveEncodings()
    ensures Encoding(MovRegReg(Rax, Rcx)) == [0x48, 0x89, 0xC8] && Encoding(MovRegReg(R9, R8)) == [0x4D, 0x89, 0xC1]
  {
  }

  lemma ArithmeticEncodings()
    ensures Encoding(AddRegReg(Rdx, Rsi)) == [0x48, 0x01, 0xF2] && Encoding(SubRegReg(Rbx, Rdx)) == [0x48, 0x29, 0xD3]
    ensures Encoding(CmpRegReg(Rax, Rcx)) == [0x48, 0x39, 0xC8]
  {
  }

  lemma MultiplyEncodings()
    ensures Encoding(ImulRegReg(Rax, Rcx)) == [0x48, 0x0F, 0xAF, 0xC1]
    ensures Encoding(ImulRegReg(R8, Rax)) == [0x4C, 0x0F, 0xAF, 0xC0]
  {
  }

  lemma PushEncodings()
    ensures Encoding(PushReg(Rbp)) == [0x55] && Encoding(PushReg(R12)) == [0x41, 0x54]
  {
    var none: Code := [];
    assert none + [0x55] == [0x55];
  }

  lemma PopEncodings()
    ensures Encoding(PopReg(Rbp)) == [0x5D] && Encoding(PopReg(R15)) == [0x41, 0x5F]
  {
    var none: Code := [];
    assert none + [0x5D] == [0x5D];
  }

  lemma PlainEncodings()
    ensures Encoding(Ret) == [0xC3] && Encoding(Nop) == [0x90] && Encoding(Syscall) == [0x0F, 0x05]
  {
  }

  /** Jumps: the opcode, then the displacement. */
  lemma JumpEncodings(rel: I32)
    ensures Encoding(JmpRel32(rel)) == [0xE9] + I32Bytes(rel)
    ensures Encoding(Je(rel)) == [0x0F, 0x84] + I32Bytes(rel) && Encoding(Jne(rel)) == [0x0F, 0x85] + I32Bytes(rel)
    ensures Encoding(Jl(rel)) == [0x0F, 0x8C] + I32Bytes(rel) && Encoding(Jg(rel)) == [0x0F, 0x8F] + I32Bytes(rel)
  {
  }

  /** A displacement lies in the code with its low byte first, in two's complement. */
  lemma DisplacementLayout(rel: I32, bs: Code)
    requires bs == I32Bytes(rel)
    ensures LowFirst(bs) == if rel < 0 then rel + 0x1_0000_0000 else rel
  {
    Displacement(rel, 4);
    FourBytes(bs);
  }

  lemma Displacement(rel: I32, n: nat)
    requires n == 4
    ensures LeNat(LeBytes(Wrap(rel, n), n)) == if rel < 0 then rel + 0x1_0000_0000 else rel
  {
    Pow256Values();
    LeNatBack(Wrap(rel, n), n);
    ModShift(rel, 0x1_0000_0000);
  }

  lemma FourBytes(bs: Code)
    requires |bs| == 4
    ensures LeNat(bs) == LowFirst(bs)
  {
    LeNatStep(bs, 0);
    LeNatStep(bs, 1);
    LeNatStep(bs, 2);
    LeNatStep(bs, 3);
    assert bs[0..] == bs && LeNat(bs[4..]) == 0;
  }

  lemma LeNatStep(bs: Code, i: nat)
    requires i < |bs|
    ensures LeNat(bs[i..]) == bs[i] as int + 256 * LeNat(bs[i + 1..])
  {
    assert bs[i..][1..] == bs[i + 1..];
  }

  /** An immediate lies there likewise, behind the opcode that names its register. */
  lemma ImmediateLayout(reg: Reg, imm: I64)
    ensures var c := Encoding(MovRegImm64(reg, imm));
            && |c| == 10 && c[0] == (if reg.IsExtended() then 0x49 else 0x48) && c[1] == 0xB8 + reg.Low3()
            && LowFirst(c[2..6]) + 0x1_0000_0000 * LowFirst(c[6..10])
               == if imm < 0 then imm + 0x1_0000_0000_0000_0000 else imm
  {
    var c, bs := Encoding(MovRegImm64(reg, imm)), I64Bytes(imm);
    assert c[2..] == bs && c[2..6] == bs[..4] && c[6..10] == bs[4..];
    Pow256Values();
    LeNatBack(Wrap(imm, 8), 8);
    ModShift(imm, 0x1_0000_0000_0000_0000);
    LeNatHalves(bs);
  }

  /** Four bytes, the low one first. */
  function LowFirst(bs: Code): nat
    requires |bs| == 4
  {
    bs[0] as int + 256 * bs[1] as int + 0x1_0000 * bs[2] as int + 0x100_0000 * bs[3] as int
  }

  lemma LeNatHalves(bs: Code)
    requires |bs| == 8
    ensures LeNat(bs) == LowFirst(bs[..4]) + 0x1_0000_0000 * LowFirst(bs[4..])
  {
    FourBytes(bs[4..]);
    LeNatStep(bs, 0);
    LeNatStep(bs, 1);
    LeNatStep(bs, 2);
    LeNatStep(bs, 3);
    assert bs[0..] == bs;
  }
}
