/** Programs and their bytes: assembling is invertible, and a fetch-decode-execute machine on the
    bytes mirrors the instruction list step by step. */
module X64Programs {
  import opened Wrappers
  import opened X64Encoder
  import opened X64Codec

  /** An encoder and a decoder for single instructions. Everything about programs follows from their
      being faithful to each other. */
  datatype Codec = Codec(enc: X64Instr -> Code, dec: Code -> Decoded)

  ghost predicate Faithful(x: Codec) {
    && (forall i :: x.enc(i) != [])
    && (forall i, rest :: x.dec(x.enc(i) + rest) == Some((i, |x.enc(i)|)))
    && (forall c | x.dec(c).Some? :: Recoded(x, c, x.dec(c).value.0, x.dec(c).value.1))
  }

  ghost predicate Recoded(x: Codec, c: Code, i: X64Instr, n: nat) {
    n <= |c| && c[..n] == x.enc(i)
  }

  const X64: Codec := Codec(Encoding, DecodeInstr)

  lemma X64Faithful()
    ensures Faithful(X64)
  {
    forall i, rest ensures DecodeInstr(Encoding(i) + rest) == Some((i, |Encoding(i)|)) {
      DecodeUndoesEncoding(i, rest);
    }
    forall c | DecodeInstr(c).Some?
      ensures Recoded(X64, c, DecodeInstr(c).value.0, DecodeInstr(c).value.1)
    {
      EncodingUndoesDecode(c);
    }
  }

  lemma NothingDecodes(x: Codec)
    requires Faithful(x)
    ensures x.dec([]) == None
  {
  }

  // ---------------------------------------------------------------------
  // Assembling
  // ---------------------------------------------------------------------

  function Assembled(x: Codec, p: seq<X64Instr>): Code {
    if p == [] then [] else x.enc(p[0]) + Assembled(x, p[1..])
  }

  lemma {:induction false} AssembledAppend(x: Codec, p: seq<X64Instr>, q: seq<X64Instr>)
    ensures Assembled(x, p + q) == Assembled(x, p) + Assembled(x, q)
  {
    if p == [] {
      assert p + q == q;
    } else {
      AssembledAppend(x, p[1..], q);
      assert (p + q)[1..] == p[1..] + q;
    }
  }

  lemma AssembledSnoc(x: Codec, p: seq<X64Instr>, k: nat)
    requires k < |p|
    ensures Assembled(x, p[..k + 1]) == Assembled(x, p[..k]) + x.enc(p[k])
  {
    var one := [p[k]];
    AssembledAppend(x, p[..k], one);
    assert p[..k] + one == p[..k + 1];
    assert Assembled(x, one) == x.enc(p[k]) + Assembled(x, one[1..]);
  }

  function Disassemble(x: Codec, c: Code): Option<seq<X64Instr>>
    decreases |c|
  {
    if c == [] then Some([])
    else match x.dec(c)
      case None => None
      case Some((i, n)) =>
        if n == 0 || n > |c| then None
        else match Disassemble(x, c[n..])
          case None => None
          case Some(tail) => Some([i] + tail)
  }

  lemma {:induction false} DisassembleUndoesAssemble(x: Codec, p: seq<X64Instr>)
    requires Faithful(x)
    ensures Disassemble(x, Assembled(x, p)) == Some(p)
  {
    if p != [] {
      DisassembleUndoesAssemble(x, p[1..]);
      var c, tail := Assembled(x, p), Assembled(x, p[1..]);
      assert x.enc(p[0]) != [] && x.dec(x.enc(p[0]) + tail) == Some((p[0], |x.enc(p[0])|));
      assert c[|x.enc(p[0])|..] == tail;
      assert [p[0]] + p[1..] == p;
    }
  }

  lemma {:induction false} AssembleUndoesDisassemble(x: Codec, c: Code)
    requires Faithful(x) && Disassemble(x, c).Some?
    ensures Assembled(x, Disassemble(x, c).value) == c
    decreases |c|
  {
    if c != [] {
      var (i, n) := x.dec(c).value;
      var tail := Disassemble(x, c[n..]).value;
      assert Recoded(x, c, i, n);
      AssembleUndoesDisassemble(x, c[n..]);
      assert ([i] + tail)[1..] == tail;
      assert c == c[..n] + c[n..];
    }
  }

  /** `encode`: append each instruction to one buffer. The bytes determine the program. */
  method Encode(prog: seq<X64Instr>) returns (out: Code)
    ensures out == Assembled(X64, prog)
    ensures Disassemble(X64, out) == Some(prog)
  {
    out := [];
    for k := 0 to |prog|
      invariant out == Assembled(X64, prog[..k])
    {
      out := out + X64.enc(prog[k]);
      AssembledSnoc(X64, prog, k);
    }
    assert prog[..|prog|] == prog;
    X64Faithful();
    DisassembleUndoesAssemble(X64, prog);
  }

  /** Programs and the byte strings the decoder accepts are in one-to-one correspondence. */
  lemma ProgramsAreTheirBytes(p: seq<X64Instr>, c: Code)
    ensures Assembled(X64, p) == c <==> Disassemble(X64, c) == Some(p)
  {
    X64Faithful();
    DisassembleUndoesAssemble(X64, p);
    if Disassemble(X64, c) == Some(p) {
      AssembleUndoesDisassemble(X64, c);
    }
  }

  // ---------------------------------------------------------------------
  // Two machines
  // ---------------------------------------------------------------------

  /** What instructions do to data, and when conditional jumps are taken. The simulation holds for
      every choice. */
  datatype Semantics<!D> = Semantics(effect: (X64Instr, D) -> D, taken: (X64Instr, D) -> bool)

  datatype Config<D> = At(pos: nat, data: D) | Returned(data: D) | Fault

  predicate IsJump(i: X64Instr) {
    i.JmpRel32? || i.Je? || i.Jne? || i.Jl? || i.Jg?
  }

  predicate Jumps<D>(sem: Semantics<D>, i: X64Instr, d: D) {
    i.JmpRel32? || (IsJump(i) && sem.taken(i, d))
  }

  /** Execute `i`, the bytes after it starting at `next`; displacements count from there. */
  function Execute<D>(sem: Semantics<D>, i: X64Instr, d: D, next: nat): Config<D> {
    if i.Ret? then Returned(sem.effect(i, d))
    else if !Jumps(sem, i, d) then At(next, sem.effect(i, d))
    else if next + i.rel < 0 then Fault
    else At(next + i.rel, sem.effect(i, d))
  }

  /** Fetch, decode, execute. */
  function ByteStep<D>(x: Codec, code: Code, sem: Semantics<D>, c: Config<D>): Config<D> {
    if !c.At? then c
    else if c.pos > |code| then Fault
    else match x.dec(code[c.pos..])
      case None => Fault
      case Some((i, n)) => Execute(sem, i, c.data, c.pos + n)
  }

  function Offset(x: Codec, p: seq<X64Instr>, k: nat): nat
    requires k <= |p|
  {
    |Assembled(x, p[..k])|
  }

  ghost predicate LandsAt(x: Codec, p: seq<X64Instr>, k: nat, t: nat) {
    k < |p| && IsJump(p[k]) && t <= |p| && Offset(x, p, t) == Offset(x, p, k + 1) + p[k].rel
  }

  /** Every jump lands on an instruction boundary (the end of the program included). */
  ghost predicate JumpsLand(x: Codec, p: seq<X64Instr>) {
    forall k | 0 <= k < |p| && IsJump(p[k]) :: exists t :: LandsAt(x, p, k, t)
  }

  /** The same step on the instruction list, with jumps resolved to instruction indices. */
  ghost function ListStep<D>(x: Codec, p: seq<X64Instr>, sem: Semantics<D>, c: Config<D>): Config<D>
    requires JumpsLand(x, p)
  {
    if !c.At? then c
    else if c.pos >= |p| then Fault
    else
      var i := p[c.pos];
      var d := sem.effect(i, c.data);
      if i.Ret? then Returned(d)
      else if Jumps(sem, i, c.data) then
        var t: nat :| LandsAt(x, p, c.pos, t);
        At(t, d)
      else At(c.pos + 1, d)
  }

  /** The byte-level picture of a list-level configuration. */
  ghost function Image<D>(x: Codec, p: seq<X64Instr>, c: Config<D>): Config<D>
    requires c.At? ==> c.pos <= |p|
  {
    if c.At? then At(Offset(x, p, c.pos), c.data) else c
  }

  lemma Slice(a: Code, b: Code, c: Code)
    ensures (a + b + c)[|a|..] == b + c
  {
  }

  lemma CutAt(x: Codec, p: seq<X64Instr>, k: nat)
    requires k < |p|
    ensures Assembled(x, p) == Assembled(x, p[..k]) + x.enc(p[k]) + Assembled(x, p[k + 1..])
  {
    AssembledSnoc(x, p, k);
    AssembledAppend(x, p[..k + 1], p[k + 1..]);
    assert p[..k + 1] + p[k + 1..] == p;
  }

  /** Fetching at an instruction's offset finds that instruction. */
  lemma Fetch(x: Codec, p: seq<X64Instr>, k: nat)
    requires Faithful(x) && k < |p|
    ensures Offset(x, p, k) < Offset(x, p, k + 1) <= |Assembled(x, p)|
    ensures x.dec(Assembled(x, p)[Offset(x, p, k)..]) == Some((p[k], Offset(x, p, k + 1) - Offset(x, p, k)))
  {
    CutAt(x, p, k);
    AssembledSnoc(x, p, k);
    FetchCut(x, Assembled(x, p), Assembled(x, p[..k]), p[k], Assembled(x, p[k + 1..]));
  }

  /** What is fetched between the bytes before an instruction and those after it. */
  lemma FetchCut(x: Codec, image: Code, before: Code, i: X64Instr, after: Code)
    requires Faithful(x) && image == before + x.enc(i) + after
    ensures 0 < |x.enc(i)| && |before| + |x.enc(i)| <= |image|
    ensures x.dec(image[|before|..]) == Some((i, |x.enc(i)|))
  {
    Slice(before, x.enc(i), after);
    assert x.enc(i) != [] && x.dec(x.enc(i) + after) == Some((i, |x.enc(i)|));
  }

  lemma ByteStepAt<D>(x: Codec, p: seq<X64Instr>, sem: Semantics<D>, k: nat, d: D)
    requires Faithful(x) && k < |p|
    ensures ByteStep(x, Assembled(x, p), sem, At(Offset(x, p, k), d)) == Execute(sem, p[k], d, Offset(x, p, k + 1))
  {
    Fetch(x, p, k);
  }

  lemma ByteStepAtEnd<D>(x: Codec, p: seq<X64Instr>, sem: Semantics<D>, d: D)
    requires Faithful(x)
    ensures ByteStep(x, Assembled(x, p), sem, At(Offset(x, p, |p|), d)) == Fault
  {
    assert p[..|p|] == p;
    assert Assembled(x, p)[Offset(x, p, |p|)..] == [];
    NothingDecodes(x);
  }

  /** Distinct instructions start at distinct offsets, so a jump lands on at most one index. */
  lemma {:induction false} OffsetsIncrease(x: Codec, p: seq<X64Instr>, j: nat, k: nat)
    requires Faithful(x) && j < k <= |p|
    ensures Offset(x, p, j) < Offset(x, p, k)
    decreases k - j
  {
    Fetch(x, p, j);
    if j + 1 < k {
      OffsetsIncrease(x, p, j + 1, k);
    }
  }

  lemma LandingUnique(x: Codec, p: seq<X64Instr>, k: nat, t: nat, u: nat)
    requires Faithful(x) && LandsAt(x, p, k, t) && LandsAt(x, p, k, u)
    ensures t == u
  {
    if t < u {
      OffsetsIncrease(x, p, t, u);
    } else if u < t {
      OffsetsIncrease(x, p, u, t);
    }
  }

  /** Executing an instruction with byte offsets is executing it with indices. */
  lemma ExecuteLands<D>(x: Codec, p: seq<X64Instr>, sem: Semantics<D>, k: nat, d: D)
    requires JumpsLand(x, p) && k < |p|
    ensures var c' := ListStep(x, p, sem, At(k, d));
            && (c'.At? ==> c'.pos <= |p|)
            && Execute(sem, p[k], d, Offset(x, p, k + 1)) == Image(x, p, c')
  {
    if !p[k].Ret? && Jumps(sem, p[k], d) {
      var t: nat :| LandsAt(x, p, k, t);
    }
  }

  /** One step of the bytes is one step of the list. */
  lemma StepSimulates<D>(x: Codec, p: seq<X64Instr>, sem: Semantics<D>, c: Config<D>)
    requires Faithful(x) && JumpsLand(x, p) && (c.At? ==> c.pos <= |p|)
    ensures var c' := ListStep(x, p, sem, c);
            && (c'.At? ==> c'.pos <= |p|)
            && ByteStep(x, Assembled(x, p), sem, Image(x, p, c)) == Image(x, p, c')
  {
    if c.At? && c.pos == |p| {
      ByteStepAtEnd(x, p, sem, c.data);
    } else if c.At? {
      ByteStepAt(x, p, sem, c.pos, c.data);
      ExecuteLands(x, p, sem, c.pos, c.data);
    }
  }

  ghost function ListRun<D>(x: Codec, p: seq<X64Instr>, sem: Semantics<D>, c: Config<D>, n: nat): Config<D>
    requires JumpsLand(x, p)
    decreases n
  {
    if n == 0 then c else ListRun(x, p, sem, ListStep(x, p, sem, c), n - 1)
  }

  function ByteRun<D>(x: Codec, code: Code, sem: Semantics<D>, c: Config<D>, n: nat): Config<D>
    decreases n
  {
    if n == 0 then c else ByteRun(x, code, sem, ByteStep(x, code, sem, c), n - 1)
  }

  lemma {:induction false} RunSimulates<D>(x: Codec, p: seq<X64Instr>, sem: Semantics<D>, c: Config<D>, n: nat)
    requires Faithful(x) && JumpsLand(x, p) && (c.At? ==> c.pos <= |p|)
    ensures var c' := ListRun(x, p, sem, c, n);
            && (c'.At? ==> c'.pos <= |p|)
            && ByteRun(x, Assembled(x, p), sem, Image(x, p, c), n) == Image(x, p, c')
    decreases n
  {
    if n > 0 {
      StepSimulates(x, p, sem, c);
      RunSimulates(x, p, sem, ListStep(x, p, sem, c), n - 1);
    }
  }

  /** Executing the encoded bytes mirrors executing the instruction list, for any number of steps, any
      starting instruction, and any data semantics. */
  lemma BytesSimulateList<D>(p: seq<X64Instr>, sem: Semantics<D>, c: Config<D>, n: nat)
    requires JumpsLand(X64, p) && (c.At? ==> c.pos <= |p|)
    ensures var c' := ListRun(X64, p, sem, c, n);
            && (c'.At? ==> c'.pos <= |p|)
            && ByteRun(X64, Assembled(X64, p), sem, Image(X64, p, c), n) == Image(X64, p, c')
  {
    X64Faithful();
    RunSimulates(X64, p, sem, c, n);
  }
}
