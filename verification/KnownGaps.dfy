// Inputs on which the assembler, the disassembler and the editor do not do what one would expect: one
// for each clause by which an accepted request can be unfaithful, and for the other known exceptions.

module KnownGaps {
  import opened T32Encoding
  import opened EncodingLaws
  import opened ThumbAsm
  import opened Disassembly
  import opened ReadBack
  import opened LoadSelection
  import opened AsmRoundTrip
  import opened WordRoundTrip
  import opened ThumbMemory
  import opened InstructionStream
  import opened Editor

  /** Accepted, and then read back with another meaning (or not at all), whatever was there. */
  predicate Lost(before: bv32, s: Spec) {
    Assemble(s).Success() && !Means(Disassemble(Stored(before, Assemble(s))), s)
  }

  lemma LostIfUnfaithful(before: bv32, s: Spec)
    requires Assemble(s).Success() && !Faithful(s)
    ensures Lost(before, s)
  {
    AssembleThenDisassemble(before, s);
  }

  lemma ReadsStored(before: bv32, s: Spec, d: DisResult)
    requires Reads(Assemble(s), d)
    ensures Disassemble(Stored(before, Assemble(s))) == d
  {
    if Assemble(s).NarrowSuccess? {
      HalfKept(before, Assemble(s).half);
    }
  }

  // ---- Branches out of reach

  /** BEQ 304 bytes ahead is put into a field that reaches 254, although the wide encoding that
      AUTO also allows would hold it. */
  lemma ShortBranchTooFar(before: bv32)
    ensures Lost(before, Spec(B, 1, AUTO, NONE, [SignedImm(304)]))
    ensures Faithful(Spec(B, 1, WIDE, NONE, [SignedImm(304)]))
  {
    var s := Spec(B, 1, AUTO, NONE, [SignedImm(304)]);
    BCondT1Fits(BCondT1(0, 300));
    assert EncodeBCondT1(BCondT1(0, 300)).Some16?;
    assert Assemble(s).NarrowSuccess?;
    LostIfUnfaithful(before, s);
  }

  /** The same for B without a condition, 2052 bytes ahead. */
  lemma NarrowBranchTooFar(before: bv32)
    ensures Lost(before, Spec(B, 0, AUTO, NONE, [SignedImm(2052)]))
    ensures Faithful(Spec(B, 0, WIDE, NONE, [SignedImm(2052)]))
  {
    var s := Spec(B, 0, AUTO, NONE, [SignedImm(2052)]);
    assert EncodeBT2(BT2(2048)).Some16?;
    assert Assemble(s).NarrowSuccess?;
    LostIfUnfaithful(before, s);
  }

  /** The wide branches are accepted at twice their reach, too. */
  lemma WideBranchTooFar(before: bv32)
    ensures Lost(before, Spec(B, 0, WIDE, NONE, [SignedImm(0x100_0004)]))
  {
    var s := Spec(B, 0, WIDE, NONE, [SignedImm(0x100_0004)]);
    assert EncodeBT4(BT4(0x100_0000)).Some32?;
    LostIfUnfaithful(before, s);
  }

  lemma CallTooFar(before: bv32)
    ensures Lost(before, Spec(BL, 0, WIDE, NONE, [SignedImm(0x100_0004)]))
  {
    var s := Spec(BL, 0, WIDE, NONE, [SignedImm(0x100_0004)]);
    assert EncodeBlT1(BlT1(0x100_0000)).Some32?;
    LostIfUnfaithful(before, s);
  }

  lemma WideConditionalTooFar(before: bv32)
    ensures Lost(before, Spec(B, 1, WIDE, NONE, [SignedImm(0x10_0004)]))
  {
    var s := Spec(B, 1, WIDE, NONE, [SignedImm(0x10_0004)]);
    assert EncodeBCondT3(BCondT3(0, 0x10_0000)).Some32?;
    LostIfUnfaithful(before, s);
  }

  // ---- Conditions with no conditional encoding

  /** A conditional branch goes to one of the encodings that share its words. */
  lemma NarrowCollision(before: bv32, s: Spec, p: BCondT1, q: BCondT3)
    requires s.width == NARROW && s.mnemonic == B && s.condition != 0
    requires s.operands == [SignedImm(FromPc(p.simm8))] && p.cond == s.condition - 1 && q == BCondT3(p.cond, p.simm8)
    requires EncodeBCondT1(p).Some16?
    ensures p.cond == 14 ==> IsA(Disassemble(Stored(before, Assemble(s))), UDF)
    ensures p.cond == 15 ==> IsA(Disassemble(Stored(before, Assemble(s))), SVC)
  {
    PcInverse(p.simm8);
    var r := AssembleConditional(s, p, q);
    assert Assemble(s) == r;
    ReadsConditionalNarrow(s, p, q, r);
    if p.cond == 14 {
      var imm :| Reads(r, Plain(UDF, NARROW, [Imm(imm)]));
      ReadsStored(before, s, Plain(UDF, NARROW, [Imm(imm)]));
    } else if p.cond == 15 {
      var imm :| Reads(r, Plain(SVC, NARROW, [Imm(imm)]));
      ReadsStored(before, s, Plain(SVC, NARROW, [Imm(imm)]));
    }
  }

  predicate IsA(d: DisResult, m: Mnemonic) {
    d.Decoded? && d.spec.mnemonic == m
  }

  /** B AL in its narrow conditional form is an undefined instruction. */
  lemma AlwaysIsUndefined(before: bv32)
    ensures IsA(Disassemble(Stored(before, Assemble(Spec(B, 15, NARROW, NONE, [SignedImm(8)])))), UDF)
  {
    assert EncodeBCondT1(BCondT1(14, 4)).Some16?;
    NarrowCollision(before, Spec(B, 15, NARROW, NONE, [SignedImm(8)]), BCondT1(14, 4), BCondT3(14, 4));
  }

  /** The value past AL, narrow, is a supervisor call. */
  lemma PastAlwaysIsCall(before: bv32)
    ensures IsA(Disassemble(Stored(before, Assemble(Spec(B, 16, NARROW, NONE, [SignedImm(8)])))), SVC)
  {
    assert EncodeBCondT1(BCondT1(15, 4)).Some16?;
    NarrowCollision(before, Spec(B, 16, NARROW, NONE, [SignedImm(8)]), BCondT1(15, 4), BCondT3(15, 4));
  }

  predicate Branch(s: Spec) {
    s.mnemonic == B && s.condition != 0 && |s.operands| == 1 && s.operands[0].SignedImm?
  }

  lemma BranchAssembles(s: Spec)
    requires Branch(s)
    ensures Assemble(s) == AssembleB(s)
  {
  }

  lemma WideConditional(s: Spec)
    requires Branch(s)
    ensures
      AssembleB(s) == AssembleConditional(
        s,
        BCondT1(s.condition - 1, ToPc(s.operands[0].simm)),
        BCondT3(s.condition - 1, ToPc(s.operands[0].simm)))
  {
  }

  lemma WideNop(before: bv32, s: Spec, p: BCondT1, q: BCondT3)
    requires s.width == WIDE && Assemble(s) == AssembleConditional(s, p, q) && EncodeBCondT3(q).Some32?
    requires q.cond == 14 && Wrap21(q.simm21) == 0x2f000
    ensures IsA(Disassemble(Stored(before, Assemble(s))), NOP)
  {
    ReadsConditionalWide(s, p, q, Assemble(s));
    ReadsStored(before, s, Plain(NOP, WIDE, []));
  }

  lemma WideUndefined(before: bv32, s: Spec, p: BCondT1, q: BCondT3)
    requires s.width == WIDE && Assemble(s) == AssembleConditional(s, p, q) && EncodeBCondT3(q).Some32?
    requires q.cond == 15 && q.simm21 & 0x17_0000 == 0x17_0000
    ensures IsA(Disassemble(Stored(before, Assemble(s))), UDF)
  {
    ReadsConditionalWide(s, p, q, Assemble(s));
    var imm :| Reads(Assemble(s), Plain(UDF, WIDE, [Imm(imm)]));
    ReadsStored(before, s, Plain(UDF, WIDE, [Imm(imm)]));
  }

  /** B.W AL 0x2f004 bytes ahead is a NOP. */
  lemma AlwaysIsNop(before: bv32)
    ensures IsA(Disassemble(Stored(before, Assemble(Spec(B, 15, WIDE, NONE, [SignedImm(0x2f004)])))), NOP)
  {
    var s := Spec(B, 15, WIDE, NONE, [SignedImm(0x2f004)]);
    BranchAssembles(s);
    WideConditional(s);
    WideNop(before, s, BCondT1(14, 0x2f000), BCondT3(14, 0x2f000));
  }

  /** The value past AL, wide and 0x8fffc bytes back, is an undefined instruction. */
  lemma PastAlwaysIsUndefined(before: bv32)
    ensures IsA(Disassemble(Stored(before, Assemble(Spec(B, 16, WIDE, NONE, [SignedImm(0xfff7_0004)])))), UDF)
  {
    var s := Spec(B, 16, WIDE, NONE, [SignedImm(0xfff7_0004)]);
    BranchAssembles(s);
    WideConditional(s);
    WideUndefined(before, s, BCondT1(15, 0xfff7_0000), BCondT3(15, 0xfff7_0000));
  }

  // ---- Loads

  function Load(rn: bv32, width: Width, offset: Operand): Spec {
    Spec(LDR, 0, width, OFFSET, [Reg(0), Reg(rn), offset])
  }

  /** LDR R0, [R1, #128] loads from R1 itself. */
  lemma ScaledOffsetTooFar(before: bv32)
    ensures Lost(before, Load(1, AUTO, SignedImm(128)))
  {
    var s := Load(1, AUTO, SignedImm(128));
    assert EncodeLdrIT1(LdrIT1(0, 1, 128)).Some16?;
    assert Assemble(s).NarrowSuccess?;
    LostIfUnfaithful(before, s);
  }

  /** LDR R0, [SP, #1024] loads from SP itself. */
  lemma StackOffsetTooFar(before: bv32)
    ensures Lost(before, Load(13, AUTO, SignedImm(1024)))
  {
    var s := Load(13, AUTO, SignedImm(1024));
    assert EncodeLdrIT2Sp(LdrIT2Sp(0, 1024)).Some16?;
    assert Assemble(s).NarrowSuccess?;
    LostIfUnfaithful(before, s);
  }

  /** LDR R0, [PC, #1024] loads from PC itself. */
  lemma LiteralOffsetTooFar(before: bv32)
    ensures Lost(before, Load(15, AUTO, SignedImm(1024)))
  {
    var s := Load(15, AUTO, SignedImm(1024));
    assert EncodeLdrLitT1(LdrLitT1(0, 1024)).Some16?;
    assert Assemble(s).NarrowSuccess?;
    LostIfUnfaithful(before, s);
  }

  /** LDR R0, [PC, R2] is a literal load. */
  lemma RegisterLoadFromPc(before: bv32)
    ensures Lost(before, Load(15, WIDE, Reg(2)))
  {
    var s := Load(15, WIDE, Reg(2));
    assert EncodeLdrRT2Lsl(LdrRT2Lsl(0, 0, 2, 15)).Some32?;
    assert Assemble(s).WideSuccess?;
    LostIfUnfaithful(before, s);
  }

  /** LDR R0, [PC, #-2048] assembles to a word on which the disassembler's assertion fails. */
  lemma LiteralAsserts(before: bv32)
    ensures
      var s := Load(15, WIDE, SignedImm(0xffff_f800));
      Assemble(s) == WideSuccess(0x0800_f85f) && Disassemble(Stored(before, Assemble(s))) == AssertFailed
  {
    var s := Load(15, WIDE, SignedImm(0xffff_f800));
    assert EncodeLdrLitT2(LdrLitT2(0, 2048, 0)) == Some32(0x0800_f85f);
    assert Assemble(s) == WideSuccess(0x0800_f85f);
    MakesAssertionFail(before, s);
  }

  /** LDR R0, [PC, #-3584] assembles to a word with the pattern of LDRT. */
  lemma LiteralIsLdrt()
    ensures
      var s := Load(15, WIDE, SignedImm(0xffff_f200));
      && Assemble(s) == WideSuccess(0x0e00_f85f)
      && MatchLdrIT4(0x0e00_f85f) && Unprivileged(DecodeLdrIT4(0x0e00_f85f))
  {
    var s := Load(15, WIDE, SignedImm(0xffff_f200));
    assert EncodeLdrLitT2(LdrLitT2(0, 3584, 0)) == Some32(0x0e00_f85f);
    assert Assemble(s) == WideSuccess(0x0e00_f85f);
    EmitsLdrt(s);
  }

  // ---- Registers and lists

  /** Register 256 becomes register 0. */
  lemma RegisterTruncated(before: bv32)
    ensures Lost(before, Spec(CMP, 0, AUTO, NONE, [Reg(256), Imm(1)]))
  {
    var s := Spec(CMP, 0, AUTO, NONE, [Reg(256), Imm(1)]);
    assert EncodeCmpIT1(CmpIT1(0, 1)).Some16?;
    assert Assemble(s).NarrowSuccess?;
    LostIfUnfaithful(before, s);
  }

  /** POP.W {R0} of encoding T2 disassembles to a POP that assembles to encoding T3, which reads as
      LDR R0, [SP], #4. */
  lemma PopOneIsLoad()
    ensures Disassemble(0x0001_e8bd) == Lists(POP, WIDE, 1)
    ensures Again(Lists(POP, WIDE, 1)) == WideSuccess(0x0b04_f85d)
    ensures Disassemble(0x0b04_f85d) == Loads(WIDE, POSTINDEX, [Reg(0), Reg(13), SignedImm(4)])
  {
    assert MatchPopT2(0x0001_e8bd) && DecodePopT2(0x0001_e8bd) == PopT2(0, 0, 1);
    ChainPopT2(0x0001_e8bd);
    assert EncodePopT3(PopT3(0)) == Some32(0x0b04_f85d);
    PopOneAgain(Spec(POP, 0, WIDE, NONE, [RegList(1)]));
    PopT3Reads(PopT3(0), 0x0b04_f85d);
  }

  lemma PopOneAgain(s: Spec)
    requires s == Spec(POP, 0, WIDE, NONE, [RegList(1)])
    ensures AssemblePop(s) == Try32(EncodePopT3(PopT3(0)), InvalidWidth)
  {
    assert CountRegisters(1) == 1;
    PopByParts(s, 1, 1);
    assert PopPartsOf(1) == PopT2(0, 0, 1) && TopBit(1 & 0x3fff) == 0;
  }

  // ---- The editor

  /** A wide instruction typed over a narrow one and half of a wide one. */
  lemma OverwriteBreaks(v: State)
    requires v.mem == [0xbf00, 0xf000, 0xf800, 0, 0, 0, 0] && v.width == WIDE && v.section.NoSection?
    requires v.start == 0 && v.cursor == 0 && v.end == 3
    ensures Good(v) && Room(v, Assembles(Spec(NOP, 0, AUTO, NONE, [])))
    ensures
      var w := Step(v, Assembles(Spec(NOP, 0, AUTO, NONE, []))).state;
      RoomFor(w, 2) && Run(w, [ToEnd, Up]).Hangs?
  {
    var cmd := Assembles(Spec(NOP, 0, AUTO, NONE, []));
    assert !IsWide(0xbf00) && IsWide(0xf000) && IsWide(0xf800);
    assert Next(v.mem, 0) == 1 && Next(v.mem, 1) == 3 && Next(v.mem, 2) == 4;
    assert Boundary(v.mem, 3, 3) && Boundary(v.mem, 1, 3);
    assert Result(v, cmd) == Result32(EncodeNopT2());
    assert Result(v, cmd).WideSuccess?;
    assert !Boundary(v.mem, 4, 3) && !Boundary(v.mem, 2, 3);
    StepKeepsGood(v, cmd);
    StepFits(v, cmd, 0);
    var w := Step(v, cmd).state;
    HonestResult(v, cmd);
    AssemblyMoves(v, Result(v, cmd));
    assert w.end == 3 && w.cursor == 2 && w.start == 0;
    LooksBackForever(w);
  }
}
