// Disassembling and assembling again: exactly which words come back as the same instruction.

module WordRoundTrip {
  import opened T32Encoding
  import opened EncodingLaws
  import opened ThumbAsm
  import opened Disassembly
  import opened ReadBack

  /** Assembling what was disassembled. */
  function Again(d: DisResult): AsmResult {
    if d.Decoded? then Assemble(d.spec) else BadMnemonic
  }

  /** Assembling succeeds, at the same width, and disassembling once more gives the same. */
  predicate Returns(d: DisResult) {
    Again(d).Success() && Reads(Again(d), d)
  }

  /** The instructions that the disassembler reads and the assembler writes alike. */
  predicate Returnable(s: Spec) {
    match s.mnemonic
    case UNKNOWN => false
    case ADDW => TwoRegisters(s) && s.operands[1].reg != 13 && s.operands[1].reg != 15
    case SUBW => TwoRegisters(s) && s.operands[1].reg != 13 && s.operands[1].reg != 15
    case MOVW => |s.operands| == 2 && s.operands[0].Reg? && s.operands[0].reg != 13 && s.operands[0].reg != 15
    case PUSH => |s.operands| == 1 && s.operands[0].RegList? && s.operands[0].reglist != 0
    case POP =>
      && |s.operands| == 1 && s.operands[0].RegList? && s.operands[0].reglist != 0
      && (s.width == WIDE ==> !Single(s.operands[0].reglist))
    case LDR =>
      && |s.operands| >= 3
      && (s.operands[2].Reg? || (s.operands[2].SignedImm? && (s.mode != OFFSET || Negative(s.operands[2].simm))))
    case _ => true
  }

  // ---- The specification of an encodable instruction assembles to that instruction

  lemma AgainUdfT1(p: UdfT1, w: bv16)
    requires EncodeUdfT1(p) == Some16(w)
    ensures Again(Plain(UDF, NARROW, [Imm(p.imm8)])) == NarrowSuccess(w)
  {
  }

  lemma AgainSvcT1(p: SvcT1, w: bv16)
    requires EncodeSvcT1(p) == Some16(w)
    ensures Again(Plain(SVC, NARROW, [Imm(p.imm8)])) == NarrowSuccess(w)
  {
  }

  lemma AgainBkptT1(p: BkptT1, w: bv16)
    requires EncodeBkptT1(p) == Some16(w)
    ensures Again(Plain(BKPT, NARROW, [Imm(p.imm8)])) == NarrowSuccess(w)
  {
  }

  lemma AgainBxT1(p: BxT1, w: bv16)
    requires EncodeBxT1(p) == Some16(w)
    ensures Again(Plain(BX, NARROW, [Reg(p.rm)])) == NarrowSuccess(w)
  {
  }

  lemma AgainBlxT1(p: BlxT1, w: bv16)
    requires EncodeBlxT1(p) == Some16(w)
    ensures Again(Plain(BLX, NARROW, [Reg(p.rm)])) == NarrowSuccess(w)
  {
  }

  lemma AgainMovsIT1(p: MovsIT1, w: bv16)
    requires EncodeMovsIT1(p) == Some16(w)
    ensures Again(Plain(MOVS, NARROW, [Reg(p.rd), Imm(p.imm8)])) == NarrowSuccess(w)
  {
    MovsIT1Fits(p);
    SmallIsByte(p.rd);
  }

  lemma AgainMovRT1(p: MovRT1, w: bv16)
    requires EncodeMovRT1(p) == Some16(w)
    ensures Again(Plain(MOV, NARROW, [Reg(p.rd), Reg(p.rm)])) == NarrowSuccess(w)
  {
    MovRT1Fits(p);
    SmallIsByte(p.rd);
    SmallIsByte(p.rm);
  }

  lemma AgainMovsRT2(p: MovsRT2, w: bv16)
    requires EncodeMovsRT2(p) == Some16(w)
    ensures Again(Plain(MOVS, NARROW, [Reg(p.rd), Reg(p.rm)])) == NarrowSuccess(w)
  {
    MovsRT2Fits(p);
    SmallIsByte(p.rd);
    SmallIsByte(p.rm);
  }

  lemma AgainCmpIT1(p: CmpIT1, w: bv16)
    requires EncodeCmpIT1(p) == Some16(w)
    ensures Again(Plain(CMP, NARROW, [Reg(p.rn), Imm(p.imm8)])) == NarrowSuccess(w)
  {
    CmpIT1Fits(p);
    SmallIsByte(p.rn);
  }

  lemma AgainCmpRT1(p: CmpRT1, w: bv16)
    requires EncodeCmpRT1(p) == Some16(w)
    ensures Again(Plain(CMP, NARROW, [Reg(p.rn), Reg(p.rm)])) == NarrowSuccess(w)
  {
    CmpRT1Fits(p);
    SmallIsByte(p.rn);
    SmallIsByte(p.rm);
  }

  lemma AgainAddsIT1(p: AddsIT1, w: bv16)
    requires EncodeAddsIT1(p) == Some16(w)
    ensures Again(Plain(ADDS, NARROW, [Reg(p.rd), Reg(p.rn), Imm(p.imm3)])) == NarrowSuccess(w)
  {
    AddsIT1Fits(p);
    SmallIsByte(p.rd);
    SmallIsByte(p.rn);
  }

  lemma AgainAddsRT1(p: AddsRT1, w: bv16)
    requires EncodeAddsRT1(p) == Some16(w)
    ensures Again(Plain(ADDS, NARROW, [Reg(p.rd), Reg(p.rn), Reg(p.rm)])) == NarrowSuccess(w)
  {
    AddsRT1Fits(p);
    SmallIsByte(p.rd);
    SmallIsByte(p.rn);
    SmallIsByte(p.rm);
  }

  lemma AgainAddRT2(p: AddRT2, w: bv16)
    requires EncodeAddRT2(p) == Some16(w)
    ensures Again(Plain(ADD, NARROW, [Reg(p.rdn), Reg(p.rdn), Reg(p.rm)])) == NarrowSuccess(w)
  {
    AddRT2Fits(p);
    SmallIsByte(p.rdn);
    SmallIsByte(p.rm);
  }

  lemma AgainSubsIT1(p: SubsIT1, w: bv16)
    requires EncodeSubsIT1(p) == Some16(w)
    ensures Again(Plain(SUBS, NARROW, [Reg(p.rd), Reg(p.rn), Imm(p.imm3)])) == NarrowSuccess(w)
  {
    SubsIT1Fits(p);
    SmallIsByte(p.rd);
    SmallIsByte(p.rn);
  }

  lemma AgainSubsRT1(p: SubsRT1, w: bv16)
    requires EncodeSubsRT1(p) == Some16(w)
    ensures Again(Plain(SUBS, NARROW, [Reg(p.rd), Reg(p.rn), Reg(p.rm)])) == NarrowSuccess(w)
  {
    SubsRT1Fits(p);
    SmallIsByte(p.rd);
    SmallIsByte(p.rn);
    SmallIsByte(p.rm);
  }

  lemma AgainLdrRT1(p: LdrRT1, w: bv16)
    requires EncodeLdrRT1(p) == Some16(w)
    ensures Again(Loads(NARROW, OFFSET, [Reg(p.rt), Reg(p.rn), Reg(p.rm)])) == NarrowSuccess(w)
  {
    LdrRT1Fits(p);
    SmallIsByte(p.rt);
    SmallIsByte(p.rn);
    SmallIsByte(p.rm);
  }

  lemma AgainUdfT2(p: UdfT2, w: bv32)
    requires EncodeUdfT2(p) == Some32(w)
    ensures Again(Plain(UDF, WIDE, [Imm(p.imm16)])) == WideSuccess(w)
  {
  }

  lemma AgainMovRT3(p: MovRT3, w: bv32)
    requires EncodeMovRT3(p) == Some32(w)
    ensures Again(Plain(if p.setflags != 0 then MOVS else MOV, WIDE, [Reg(p.rd), Reg(p.rm)])) == WideSuccess(w)
  {
    MovRT3Fits(p);
    SmallIsByte(p.rd);
    SmallIsByte(p.rm);
  }

  lemma AgainLdrRT2Lsl(p: LdrRT2Lsl, w: bv32)
    requires EncodeLdrRT2Lsl(p) == Some32(w)
    ensures Again(Loads(WIDE, OFFSET, [Reg(p.rt), Reg(p.rn), Reg(p.rm), LslShift(p.lslShiftImm2)])) == WideSuccess(w)
  {
    LdrRT2LslFits(p);
    SmallIsByte(p.rt);
    SmallIsByte(p.rn);
    SmallIsByte(p.rm);
  }

  lemma AgainBT2(p: BT2, w: bv16)
    requires EncodeBT2(p) == Some16(w)
    ensures Again(Branches(B, NARROW, p.simm11)) == NarrowSuccess(w)
  {
    PcInverse(p.simm11);
  }

  lemma AgainBT4(p: BT4, w: bv32)
    requires EncodeBT4(p) == Some32(w)
    ensures Again(Branches(B, WIDE, p.simm25)) == WideSuccess(w)
  {
    PcInverse(p.simm25);
  }

  lemma AgainBlT1(p: BlT1, w: bv32)
    requires EncodeBlT1(p) == Some32(w)
    ensures Again(Branches(BL, WIDE, p.simm25)) == WideSuccess(w)
  {
    PcInverse(p.simm25);
  }

  lemma CondInverse(cond: bv32)
    requires cond < 16
    ensures cond + 1 != 0 && (cond + 1) - 1 == cond
  {
  }

  lemma AgainBCondT1(p: BCondT1, w: bv16)
    requires EncodeBCondT1(p) == Some16(w)
    ensures Again(Conditional(p.cond, NARROW, p.simm8)) == NarrowSuccess(w)
  {
    BCondT1Fits(p);
    CondInverse(p.cond);
    PcInverse(p.simm8);
  }

  lemma AgainBCondT3(p: BCondT3, w: bv32)
    requires EncodeBCondT3(p) == Some32(w)
    ensures Again(Conditional(p.cond, WIDE, p.simm21)) == WideSuccess(w)
  {
    BCondT3Fits(p);
    CondInverse(p.cond);
    PcInverse(p.simm21);
  }

  lemma AgainAddwIT4(p: AddwIT4, w: bv32)
    requires EncodeAddwIT4(p) == Some32(w)
    ensures Again(Plain(ADDW, WIDE, [Reg(p.rd), Reg(p.rn), Imm(p.imm12)])) ==
      if p.rn == 13 || p.rn == 15 then InvalidOperand else WideSuccess(w)
  {
    AddwIT4Fits(p);
    SmallIsByte(p.rd);
    SmallIsByte(p.rn);
  }

  lemma AgainSubwIT4(p: SubwIT4, w: bv32)
    requires EncodeSubwIT4(p) == Some32(w)
    ensures Again(Plain(SUBW, WIDE, [Reg(p.rd), Reg(p.rn), Imm(p.imm12)])) ==
      if p.rn == 13 || p.rn == 15 then InvalidOperand else WideSuccess(w)
  {
    SubwIT4Fits(p);
    SmallIsByte(p.rd);
    SmallIsByte(p.rn);
  }

  lemma AgainMovwIT3(p: MovwIT3, w: bv32)
    requires EncodeMovwIT3(p) == Some32(w)
    ensures Again(Plain(MOVW, WIDE, [Reg(p.rd), Imm(p.imm16)])) ==
      if p.rd == 13 || p.rd == 15 then InvalidOperand else WideSuccess(w)
  {
  }

  // ---- Encodings that another encoding may replace

  lemma AddsIT2Succeeds(p: AddsIT2, s: Spec)
    requires EncodeAddsIT2(p).Some16? && s == Spec(ADDS, 0, NARROW, NONE, [Reg(p.rdn), Reg(p.rdn), Imm(p.imm8)])
    ensures AssembleAdds(s).Success()
  {
    AddsIT2Fits(p);
    SmallIsByte(p.rdn);
  }

  lemma AgainAddsIT2(p: AddsIT2, w: bv16)
    requires EncodeAddsIT2(p) == Some16(w)
    ensures Returns(Plain(ADDS, NARROW, [Reg(p.rdn), Reg(p.rdn), Imm(p.imm8)]))
  {
    var s := Spec(ADDS, 0, NARROW, NONE, [Reg(p.rdn), Reg(p.rdn), Imm(p.imm8)]);
    AddsIT2Succeeds(p, s);
    ReadsAdds(s, AssembleAdds(s));
  }

  lemma SubsIT2Succeeds(p: SubsIT2, s: Spec)
    requires EncodeSubsIT2(p).Some16? && s == Spec(SUBS, 0, NARROW, NONE, [Reg(p.rdn), Reg(p.rdn), Imm(p.imm8)])
    ensures AssembleSubs(s).Success()
  {
    SubsIT2Fits(p);
    SmallIsByte(p.rdn);
  }

  lemma AgainSubsIT2(p: SubsIT2, w: bv16)
    requires EncodeSubsIT2(p) == Some16(w)
    ensures Returns(Plain(SUBS, NARROW, [Reg(p.rdn), Reg(p.rdn), Imm(p.imm8)]))
  {
    var s := Spec(SUBS, 0, NARROW, NONE, [Reg(p.rdn), Reg(p.rdn), Imm(p.imm8)]);
    SubsIT2Succeeds(p, s);
    ReadsSubs(s, AssembleSubs(s));
  }

  lemma AgainCmpRT2(p: CmpRT2, w: bv16)
    requires EncodeCmpRT2(p) == Some16(w)
    ensures Returns(Plain(CMP, NARROW, [Reg(p.rn), Reg(p.rm)]))
  {
    CmpRT2Fits(p);
    SmallIsByte(p.rn);
    SmallIsByte(p.rm);
    var s := Spec(CMP, 0, NARROW, NONE, [Reg(p.rn), Reg(p.rm)]);
    assert AssembleCmp(s).Success();
    ReadsCmp(s, AssembleCmp(s));
  }

  // ---- Register lists

  lemma AgainPopT1(p: PopT1, list: bv16, w: bv16)
    requires EncodePopT1(p) == Some16(w) && list == Low16(p.regs | (p.pc << 15))
    ensures Again(Lists(POP, NARROW, list)) == if list == 0 then InvalidOperand else NarrowSuccess(w)
  {
    PopT1Fits(p);
    PopT1Parts(p, list);
    CountOne(list);
  }

  lemma PopT1Parts(p: PopT1, list: bv16)
    requires p.regs < 0x100 && p.pc < 2 && list == Low16(p.regs | (p.pc << 15))
    ensures Wide(list >> 15) == p.pc && Wide(list & 0x3fff) == p.regs && Wide((list >> 14) & 1) == 0
  {
  }

  lemma AgainPushT1(p: PushT1, list: bv16, w: bv16)
    requires EncodePushT1(p) == Some16(w) && list == Low16(p.regs | (p.lr << 14))
    ensures Again(Lists(PUSH, NARROW, list)) == if list == 0 then InvalidOperand else NarrowSuccess(w)
  {
    PushT1Fits(p);
    PushParts(p.regs, p.lr, list);
    CountOne(list);
  }

  lemma PushParts(regs: bv32, lr: bv32, list: bv16)
    requires regs < 0x2000 && lr < 2 && list == Low16(regs | (lr << 14))
    ensures PushPartsOf(list) == PushT2(lr, regs)
  {
  }

  lemma PopT2Parts(p: PopT2, list: bv16)
    requires p.regs < 0x2000 && p.lr < 2 && p.pc < 2
    requires list == Low16(p.regs | (p.lr << 14) | (p.pc << 15))
    ensures PopPartsOf(list) == p
  {
  }

  lemma PopManyParts(s: Spec, count: nat, p: PopT2, rest: bv16, w: bv32)
    requires s.width == WIDE && count != 1 && EncodePopT2(p) == Some32(w)
    ensures AssemblePopParts(s, count, p, rest) == WideSuccess(w)
  {
  }

  lemma AgainPopT2(p: PopT2, list: bv16, w: bv32)
    requires EncodePopT2(p) == Some32(w) && list == Low16(p.regs | (p.lr << 14) | (p.pc << 15))
    ensures list == 0 ==> Again(Lists(POP, WIDE, list)) == InvalidOperand
    ensures list != 0 && !Single(list) ==> Again(Lists(POP, WIDE, list)) == WideSuccess(w)
  {
    var s := Spec(POP, 0, WIDE, NONE, [RegList(list)]);
    var count := CountRegisters(list);
    CountOne(list);
    if list == 0 {
      ListRefused(s);
    } else if !Single(list) {
      PopT2Fits(p);
      PopT2Parts(p, list);
      PopByParts(s, list, count);
      PopManyParts(s, count, p, list & 0x3fff, w);
    }
  }

  lemma NotTheList(s: Spec, list: bv16, r: AsmResult)
    requires s.operands == [RegList(list)] && Single(list) && r == AssemblePop(s)
    ensures !Reads(r, Lists(POP, WIDE, list))
  {
    if r.WideSuccess? {
      ReadsPopOne(s, r);
    } else if r.NarrowSuccess? {
      ReadsPopNarrow(s, r);
    }
  }

  /** One register popped wide comes back as the load that it is. */
  lemma AgainPopOne(list: bv16)
    requires Single(list)
    ensures !Returns(Lists(POP, WIDE, list))
  {
    var s := Spec(POP, 0, WIDE, NONE, [RegList(list)]);
    NotTheList(s, list, AssemblePop(s));
    assert Again(Lists(POP, WIDE, list)) == AssemblePop(s);
  }

  lemma PushManyParts(s: Spec, count: nat, p: PushT2, rest: bv16, w: bv32)
    requires s.width == WIDE && count != 1 && EncodePushT2(p) == Some32(w)
    ensures AssemblePushParts(s, count, p, rest) == WideSuccess(w)
  {
  }

  lemma AgainPushT2(p: PushT2, list: bv16, w: bv32)
    requires EncodePushT2(p) == Some32(w) && list == Low16(p.regs | (p.lr << 14))
    ensures list == 0 ==> Again(Lists(PUSH, WIDE, list)) == InvalidOperand
    ensures list != 0 && !Single(list) ==> Again(Lists(PUSH, WIDE, list)) == WideSuccess(w)
  {
    var s := Spec(PUSH, 0, WIDE, NONE, [RegList(list)]);
    var count := CountRegisters(list);
    CountOne(list);
    if list == 0 {
      ListRefused(s);
    } else if !Single(list) {
      PushT2Fits(p);
      PushParts(p.regs, p.lr, list);
      PushByParts(s, list, count);
      PushManyParts(s, count, p, list & 0xbfff, w);
    }
  }

  lemma PushOneSucceeds(s: Spec, list: bv16)
    requires s == Spec(PUSH, 0, WIDE, NONE, [RegList(list)]) && Single(list)
    ensures AssemblePush(s).WideSuccess?
  {
    CountOne(list);
    SingleTop(list);
    PushT3Fits(PushT3(TopBit(list)));
  }

  /** One register pushed wide takes T3, whichever encoding it was read from. */
  lemma AgainPushOne(list: bv16)
    requires Single(list)
    ensures Returns(Lists(PUSH, WIDE, list))
  {
    var s := Spec(PUSH, 0, WIDE, NONE, [RegList(list)]);
    PushOneSucceeds(s, list);
    ReadsPushOne(s, AssemblePush(s));
    AgainIsPush(s);
    SameBits32(AssemblePush(s).word, Lists(PUSH, WIDE, list));
  }

  lemma AgainIsPush(s: Spec)
    requires s.mnemonic == PUSH
    ensures Again(Decoded(s)) == AssemblePush(s)
  {
  }

  lemma OneHotSingle(rt: bv32)
    requires rt < 16
    ensures Single(OneHot(rt))
  {
  }

  // ---- Loads

  /** The assembler takes no unsigned offset. */
  lemma AgainLdrUnsigned(width: Width, rt: bv32, rn: bv32, offset: bv32)
    ensures Again(Loads(width, OFFSET, [Reg(rt), Reg(rn), Imm(offset)])) == InvalidOperand
  {
  }

  function LdrSpec(mode: AddressingMode, rt: bv32, rn: bv32, offset: bv32): Spec {
    Spec(LDR, 0, WIDE, mode, [Reg(rt), Reg(rn), SignedImm(offset)])
  }

  lemma LdrSpecSigned(mode: AddressingMode, rt: bv32, rn: bv32, offset: bv32)
    requires mode != NONE && rt < 16 && rn < 16 && (mode != OFFSET || Negative(offset))
    ensures
      var s := LdrSpec(mode, rt, rn, offset);
      Assemble(s) == AssembleLdrSigned(s, rt, rn, offset)
  {
    SmallIsByte(rt);
    SmallIsByte(rn);
  }

  /** How far the signed offset reaches. */
  predicate Reaches(mode: AddressingMode, rn: bv32, offset: bv32) {
    Magnitude(offset) < if mode == OFFSET && rn == 15 then 2048 else 256
  }

  lemma IndexedAgain(mode: AddressingMode, rt: bv32, rn: bv32, offset: bv32, q: LdrIT4, w: bv32)
    requires mode != NONE && rt < 16 && rn < 16 && (mode != OFFSET || Negative(offset))
    requires !(mode == OFFSET && rn == 15)
    requires q == LdrSignedParts(mode, rt, rn, offset) && EncodeLdrIT4(q) == Some32(w)
    ensures Again(Loads(WIDE, mode, [Reg(rt), Reg(rn), SignedImm(offset)])) == WideSuccess(w)
  {
    LdrSpecSigned(mode, rt, rn, offset);
    SignedIsIndexed(LdrSpec(mode, rt, rn, offset), rt, rn, offset);
  }

  lemma AgainLdrParts(mode: AddressingMode, rt: bv32, rn: bv32, offset: bv32, q: LdrIT4)
    requires mode != NONE && rt < 16 && rn < 16 && (mode != OFFSET || Negative(offset))
    requires !(mode == OFFSET && rn == 15) && Reaches(mode, rn, offset)
    requires q == LdrSignedParts(mode, rt, rn, offset)
    ensures Returns(Loads(WIDE, mode, [Reg(rt), Reg(rn), SignedImm(offset)]))
  {
    SignedPartsFit(mode, rt, rn, offset);
    var w := EncodeLdrIT4(q).word;
    IndexedAgain(mode, rt, rn, offset, q, w);
    LdrIT4Reads(q, w);
    SignedPartsBack(mode, rt, rn, offset);
    SameBits32(w, Loads(WIDE, mode, [Reg(rt), Reg(rn), SignedImm(offset)]));
  }

  lemma LiteralAgain(rt: bv32, offset: bv32, p: LdrLitT2, w: bv32)
    requires rt < 16 && Negative(offset)
    requires p == LdrLitT2(rt, Negated(offset), 0) && EncodeLdrLitT2(p) == Some32(w)
    ensures Again(Loads(WIDE, OFFSET, [Reg(rt), Reg(15), SignedImm(offset)])) == WideSuccess(w)
  {
    LdrSpecSigned(OFFSET, rt, 15, offset);
    LiteralOnly(LdrSpec(OFFSET, rt, 15, offset), rt, offset);
  }

  lemma AgainLdrLiteral(rt: bv32, offset: bv32, p: LdrLitT2)
    requires rt < 16 && Negative(offset) && Reaches(OFFSET, 15, offset)
    requires p == LdrLitT2(rt, Negated(offset), 0)
    ensures Returns(Loads(WIDE, OFFSET, [Reg(rt), Reg(15), SignedImm(offset)]))
  {
    LdrLitT2Fits(p);
    var w := EncodeLdrLitT2(p).word;
    LiteralAgain(rt, offset, p, w);
    LdrLitT2Reads(p, w);
    SignedBack(offset);
    SameBits32(w, Loads(WIDE, OFFSET, [Reg(rt), Reg(15), SignedImm(offset)]));
  }

  lemma PlainOffset(offset: bv32)
    requires offset < 0x1000
    ensures !Negative(offset)
  {
  }

  lemma LdrSpecPlain(rt: bv32, rn: bv32, offset: bv32)
    requires rt < 16 && rn < 16
    ensures
      var s := LdrSpec(OFFSET, rt, rn, offset);
      Assemble(s) == AssembleLdrImmediate(s, rt, rn, offset)
  {
    SmallIsByte(rt);
    SmallIsByte(rn);
  }

  lemma PlainPicksT3(s: Spec, p: LdrIT3, w: bv32)
    requires s.width == WIDE && s.mode == OFFSET && !Negative(p.imm12) && EncodeLdrIT3(p) == Some32(w)
    ensures AssembleLdrImmediate(s, p.rt, p.rn, p.imm12) == WideSuccess(w)
  {
  }

  /** A plain non-negative offset comes back unsigned. */
  lemma AgainLdrPlain(rt: bv32, rn: bv32, offset: bv32)
    requires rt < 16 && rn < 16 && offset < 0x1000
    ensures !Returns(Loads(WIDE, OFFSET, [Reg(rt), Reg(rn), SignedImm(offset)]))
  {
    var p := LdrIT3(rt, offset, rn);
    LdrIT3Fits(p);
    var w := EncodeLdrIT3(p).word;
    LdrIT3Reads(p, w);
    PlainOffset(offset);
    LdrSpecPlain(rt, rn, offset);
    PlainPicksT3(LdrSpec(OFFSET, rt, rn, offset), p, w);
  }

  // ---- Word by word

  predicate Sound(d: DisResult) {
    Returns(d) <==> d.Decoded? && Returnable(d.spec)
  }

  predicate Verdict16(w: bv16) {
    Reading16(w).ReadAs? ==> Sound(Reading16(w).d)
  }

  predicate Verdict32(w: bv32) {
    Reading32(w).ReadAs? ==> Sound(Reading32(w).d)
  }

  lemma SameBits16(w: bv16, d: DisResult)
    requires Reads16(w, d) && Again(d) == NarrowSuccess(w)
    ensures Returns(d)
  {
  }

  lemma SameBits32(w: bv32, d: DisResult)
    requires Reads32(w, d) && Again(d) == WideSuccess(w)
    ensures Returns(d)
  {
  }

  lemma VerdictTraps16(w: bv16)
    requires MatchUdfT1(w) || MatchSvcT1(w) || MatchBkptT1(w) || MatchBxT1(w) || MatchBlxT1(w)
    ensures Verdict16(w)
  {
    ChainBranches16(w);
    if MatchUdfT1(w) {
      UdfT1Word(w);
      var p := DecodeUdfT1(w);
      AgainUdfT1(p, w);
      SameBits16(w, Plain(UDF, NARROW, [Imm(p.imm8)]));
    } else if MatchSvcT1(w) {
      SvcT1Word(w);
      var p := DecodeSvcT1(w);
      AgainSvcT1(p, w);
      SameBits16(w, Plain(SVC, NARROW, [Imm(p.imm8)]));
    } else if MatchBkptT1(w) {
      BkptT1Word(w);
      var p := DecodeBkptT1(w);
      AgainBkptT1(p, w);
      SameBits16(w, Plain(BKPT, NARROW, [Imm(p.imm8)]));
    } else if MatchBxT1(w) {
      BxT1Word(w);
      var p := DecodeBxT1(w);
      AgainBxT1(p, w);
      SameBits16(w, Plain(BX, NARROW, [Reg(p.rm)]));
    } else {
      BlxT1Word(w);
      var p := DecodeBlxT1(w);
      AgainBlxT1(p, w);
      SameBits16(w, Plain(BLX, NARROW, [Reg(p.rm)]));
    }
  }

  lemma VerdictMoves16(w: bv16)
    requires MatchMovsIT1(w) || MatchMovRT1(w) || MatchMovsRT2(w)
    ensures Verdict16(w)
  {
    ChainMoves16(w);
    if MatchMovsIT1(w) {
      MovsIT1Word(w);
      var p := DecodeMovsIT1(w);
      AgainMovsIT1(p, w);
      SameBits16(w, Plain(MOVS, NARROW, [Reg(p.rd), Imm(p.imm8)]));
    } else if MatchMovRT1(w) {
      MovRT1Word(w);
      var p := DecodeMovRT1(w);
      AgainMovRT1(p, w);
      SameBits16(w, Plain(MOV, NARROW, [Reg(p.rd), Reg(p.rm)]));
    } else {
      MovsRT2Word(w);
      var p := DecodeMovsRT2(w);
      AgainMovsRT2(p, w);
      SameBits16(w, Plain(MOVS, NARROW, [Reg(p.rd), Reg(p.rm)]));
    }
  }

  lemma VerdictCompares16(w: bv16)
    requires MatchCmpIT1(w) || MatchCmpRT1(w) || MatchCmpRT2(w)
    ensures Verdict16(w)
  {
    ChainMoves16(w);
    if MatchCmpIT1(w) {
      CmpIT1Word(w);
      var p := DecodeCmpIT1(w);
      AgainCmpIT1(p, w);
      SameBits16(w, Plain(CMP, NARROW, [Reg(p.rn), Imm(p.imm8)]));
    } else if MatchCmpRT1(w) {
      CmpRT1Word(w);
      var p := DecodeCmpRT1(w);
      AgainCmpRT1(p, w);
      SameBits16(w, Plain(CMP, NARROW, [Reg(p.rn), Reg(p.rm)]));
    } else {
      CmpRT2Word(w);
      var p := DecodeCmpRT2(w);
      AgainCmpRT2(p, w);
    }
  }

  lemma VerdictAdds16(w: bv16)
    requires MatchAddsIT1(w) || MatchAddsIT2(w) || MatchAddsRT1(w) || MatchAddRT2(w)
    ensures Verdict16(w)
  {
    ChainAdds16(w);
    if MatchAddsIT1(w) {
      AddsIT1Word(w);
      var p := DecodeAddsIT1(w);
      AgainAddsIT1(p, w);
      SameBits16(w, Plain(ADDS, NARROW, [Reg(p.rd), Reg(p.rn), Imm(p.imm3)]));
    } else if MatchAddsIT2(w) {
      AddsIT2Word(w);
      var p := DecodeAddsIT2(w);
      AgainAddsIT2(p, w);
    } else if MatchAddsRT1(w) {
      AddsRT1Word(w);
      var p := DecodeAddsRT1(w);
      AgainAddsRT1(p, w);
      SameBits16(w, Plain(ADDS, NARROW, [Reg(p.rd), Reg(p.rn), Reg(p.rm)]));
    } else {
      AddRT2Word(w);
      var p := DecodeAddRT2(w);
      AgainAddRT2(p, w);
      SameBits16(w, Plain(ADD, NARROW, [Reg(p.rdn), Reg(p.rdn), Reg(p.rm)]));
    }
  }

  lemma VerdictSubs16(w: bv16)
    requires MatchSubsIT1(w) || MatchSubsRT1(w)
    ensures Verdict16(w)
  {
    ChainSubs16(w);
    if MatchSubsIT1(w) {
      SubsIT1Word(w);
      var p := DecodeSubsIT1(w);
      AgainSubsIT1(p, w);
      SameBits16(w, Plain(SUBS, NARROW, [Reg(p.rd), Reg(p.rn), Imm(p.imm3)]));
    } else {
      SubsRT1Word(w);
      var p := DecodeSubsRT1(w);
      AgainSubsRT1(p, w);
      SameBits16(w, Plain(SUBS, NARROW, [Reg(p.rd), Reg(p.rn), Reg(p.rm)]));
    }
  }

  lemma VerdictSubsIT2(w: bv16)
    requires MatchSubsIT2(w)
    ensures Verdict16(w)
  {
    ChainSubs16(w);
    SubsIT2Word(w);
    AgainSubsIT2(DecodeSubsIT2(w), w);
  }

  lemma VerdictBT2(w: bv16)
    requires MatchBT2(w)
    ensures Verdict16(w)
  {
    ChainBT2(w);
    BT2Word(w);
    var p := DecodeBT2(w);
    AgainBT2(p, w);
    SameBits16(w, Branches(B, NARROW, p.simm11));
  }

  lemma VerdictBCondT1(w: bv16)
    requires MatchBCondT1(w) && DecodeBCondT1(w).cond < 14
    ensures Verdict16(w)
  {
    ChainBCondT1(w);
    BCondT1Word(w);
    var p := DecodeBCondT1(w);
    AgainBCondT1(p, w);
    SameBits16(w, Conditional(p.cond, NARROW, p.simm8));
  }

  lemma VerdictNopT1(w: bv16)
    requires MatchNopT1(w)
    ensures Verdict16(w)
  {
    ChainMoves16(w);
    assert Again(Plain(NOP, NARROW, [])) == NarrowSuccess(w);
    SameBits16(w, Plain(NOP, NARROW, []));
  }

  lemma VerdictLoads16(w: bv16)
    requires MatchLdrIT1(w) || MatchLdrIT2Sp(w) || MatchLdrLitT1(w)
    ensures Verdict16(w)
  {
    ChainLoads16(w);
    if MatchLdrIT1(w) {
      var p := DecodeLdrIT1(w);
      AgainLdrUnsigned(NARROW, p.rt, p.rn, p.imm7);
    } else if MatchLdrIT2Sp(w) {
      var p := DecodeLdrIT2Sp(w);
      AgainLdrUnsigned(NARROW, p.rt, 13, p.imm10);
    } else {
      var p := DecodeLdrLitT1(w);
      AgainLdrUnsigned(NARROW, p.rt, 15, p.imm10);
    }
  }

  lemma VerdictLdrRT1(w: bv16)
    requires MatchLdrRT1(w)
    ensures Verdict16(w)
  {
    ChainLoads16(w);
    LdrRT1Word(w);
    var p := DecodeLdrRT1(w);
    AgainLdrRT1(p, w);
    SameBits16(w, Loads(NARROW, OFFSET, [Reg(p.rt), Reg(p.rn), Reg(p.rm)]));
  }

  lemma SoundPopT1(p: PopT1, list: bv16, w: bv16)
    requires EncodePopT1(p) == Some16(w) && list == Low16(p.regs | (p.pc << 15))
    requires Reads16(w, Lists(POP, NARROW, list))
    ensures Sound(Lists(POP, NARROW, list))
  {
    AgainPopT1(p, list, w);
    if list != 0 {
      SameBits16(w, Lists(POP, NARROW, list));
    }
  }

  lemma VerdictPopT1(w: bv16)
    requires MatchPopT1(w)
    ensures Verdict16(w)
  {
    ChainLoads16(w);
    PopT1Word(w);
    var p := DecodePopT1(w);
    SoundPopT1(p, Low16(p.regs | (p.pc << 15)), w);
  }

  lemma SoundPushT1(p: PushT1, list: bv16, w: bv16)
    requires EncodePushT1(p) == Some16(w) && list == Low16(p.regs | (p.lr << 14))
    requires Reads16(w, Lists(PUSH, NARROW, list))
    ensures Sound(Lists(PUSH, NARROW, list))
  {
    AgainPushT1(p, list, w);
    if list != 0 {
      SameBits16(w, Lists(PUSH, NARROW, list));
    }
  }

  lemma VerdictPushT1(w: bv16)
    requires MatchPushT1(w)
    ensures Verdict16(w)
  {
    ChainLoads16(w);
    PushT1Word(w);
    var p := DecodePushT1(w);
    SoundPushT1(p, Low16(p.regs | (p.lr << 14)), w);
  }

  lemma VerdictUdfT2(w: bv32)
    requires MatchUdfT2(w) || MatchNopT2(w) || MatchMovRT3(w)
    ensures Verdict32(w)
  {
    ChainArith32(w);
    if MatchUdfT2(w) {
      UdfT2Word(w);
      var p := DecodeUdfT2(w);
      AgainUdfT2(p, w);
      SameBits32(w, Plain(UDF, WIDE, [Imm(p.imm16)]));
    } else if MatchNopT2(w) {
      assert Again(Plain(NOP, WIDE, [])) == WideSuccess(w);
      SameBits32(w, Plain(NOP, WIDE, []));
    } else {
      MovRT3Word(w);
      var p := DecodeMovRT3(w);
      AgainMovRT3(p, w);
      SameBits32(w, Plain(if p.setflags != 0 then MOVS else MOV, WIDE, [Reg(p.rd), Reg(p.rm)]));
    }
  }

  lemma VerdictMovwIT3(w: bv32)
    requires MatchMovwIT3(w)
    ensures Verdict32(w)
  {
    ChainArith32(w);
    MovwIT3Word(w);
    var p := DecodeMovwIT3(w);
    AgainMovwIT3(p, w);
    if p.rd != 13 && p.rd != 15 {
      SameBits32(w, Plain(MOVW, WIDE, [Reg(p.rd), Imm(p.imm16)]));
    }
  }

  lemma VerdictAddwIT4(w: bv32)
    requires MatchAddwIT4(w)
    ensures Verdict32(w)
  {
    ChainArith32(w);
    AddwIT4Word(w);
    var p := DecodeAddwIT4(w);
    AgainAddwIT4(p, w);
    if p.rn != 13 && p.rn != 15 {
      SameBits32(w, Plain(ADDW, WIDE, [Reg(p.rd), Reg(p.rn), Imm(p.imm12)]));
    }
  }

  lemma VerdictSubwIT4(w: bv32)
    requires MatchSubwIT4(w)
    ensures Verdict32(w)
  {
    ChainArith32(w);
    SubwIT4Word(w);
    var p := DecodeSubwIT4(w);
    AgainSubwIT4(p, w);
    if p.rn != 13 && p.rn != 15 {
      SameBits32(w, Plain(SUBW, WIDE, [Reg(p.rd), Reg(p.rn), Imm(p.imm12)]));
    }
  }

  lemma VerdictBT4(w: bv32)
    requires MatchBT4(w)
    ensures Verdict32(w)
  {
    ChainBT4(w);
    BT4Word(w);
    var p := DecodeBT4(w);
    AgainBT4(p, w);
    SameBits32(w, Branches(B, WIDE, p.simm25));
  }

  lemma VerdictBlT1(w: bv32)
    requires MatchBlT1(w)
    ensures Verdict32(w)
  {
    ChainBlT1(w);
    BlT1Word(w);
    var p := DecodeBlT1(w);
    AgainBlT1(p, w);
    SameBits32(w, Branches(BL, WIDE, p.simm25));
  }

  lemma VerdictBCondT3(w: bv32)
    requires MatchBCondT3(w) && !MatchUdfT2(w) && !MatchNopT2(w)
    ensures Verdict32(w)
  {
    ChainBCondT3(w);
    BCondT3Word(w);
    var p := DecodeBCondT3(w);
    AgainBCondT3(p, w);
    SameBits32(w, Conditional(p.cond, WIDE, p.simm21));
  }

  lemma SoundPopT2(p: PopT2, list: bv16, w: bv32)
    requires EncodePopT2(p) == Some32(w) && list == Low16(p.regs | (p.lr << 14) | (p.pc << 15))
    requires Reads32(w, Lists(POP, WIDE, list))
    ensures Sound(Lists(POP, WIDE, list))
  {
    AgainPopT2(p, list, w);
    if Single(list) {
      AgainPopOne(list);
    } else if list != 0 {
      SameBits32(w, Lists(POP, WIDE, list));
    }
  }

  lemma VerdictPopT2(w: bv32)
    requires MatchPopT2(w)
    ensures Verdict32(w)
  {
    ChainPopT2(w);
    PopT2Word(w);
    var p := DecodePopT2(w);
    SoundPopT2(p, Low16(p.regs | (p.lr << 14) | (p.pc << 15)), w);
  }

  lemma SoundPushT2(p: PushT2, list: bv16, w: bv32)
    requires EncodePushT2(p) == Some32(w) && list == Low16(p.regs | (p.lr << 14))
    requires Reads32(w, Lists(PUSH, WIDE, list))
    ensures Sound(Lists(PUSH, WIDE, list))
  {
    AgainPushT2(p, list, w);
    if Single(list) {
      AgainPushOne(list);
    } else if list != 0 {
      SameBits32(w, Lists(PUSH, WIDE, list));
    }
    SoundPush(list);
  }

  lemma SoundPush(list: bv16)
    requires if list == 0 then !Returns(Lists(PUSH, WIDE, list)) else Returns(Lists(PUSH, WIDE, list))
    ensures Sound(Lists(PUSH, WIDE, list))
  {
  }

  lemma VerdictPushT2(w: bv32)
    requires MatchPushT2(w)
    ensures Verdict32(w)
  {
    ChainPushT2(w);
    PushT2Word(w);
    var p := DecodePushT2(w);
    SoundPushT2(p, Low16(p.regs | (p.lr << 14)), w);
  }

  lemma VerdictPushT3(w: bv32)
    requires MatchPushT3(w)
    ensures Verdict32(w)
  {
    ChainPushT3(w);
    PushT3Word(w);
    var p := DecodePushT3(w);
    PushT3Fits(p);
    OneHotSingle(p.rt);
    AgainPushOne(OneHot(p.rt));
  }

  lemma VerdictLdrIT3(w: bv32)
    requires MatchLdrIT3(w)
    ensures Verdict32(w)
  {
    ChainLoads32(w);
    var p := DecodeLdrIT3(w);
    AgainLdrUnsigned(WIDE, p.rt, p.rn, p.imm12);
  }

  lemma VerdictLdrLitT2(w: bv32)
    requires MatchLdrLitT2(w) && !MatchLdrIT3(w) && !MatchLdrIT4(w)
    ensures Verdict32(w)
  {
    ChainLoads32(w);
    LdrLitT2Word(w);
    var p := DecodeLdrLitT2(w);
    LdrLitT2Fits(p);
    var offset := Signed(p.imm12, 0).simm;
    SignedFacts(p.imm12, 0);
    if p.imm12 == 0 {
      AgainLdrPlain(p.rt, 15, offset);
    } else {
      AgainLdrLiteral(p.rt, offset, LdrLitT2(p.rt, Negated(offset), 0));
    }
  }

  lemma SignedFacts(magnitude: bv32, add: bv32)
    requires magnitude < 0x1000
    ensures
      var offset := Signed(magnitude, add).simm;
      && (Negative(offset) <==> add == 0 && magnitude != 0)
      && (if Negative(offset) then Negated(offset) else offset) == magnitude
  {
  }

  lemma VerdictLdrRT2Lsl(w: bv32)
    requires MatchLdrRT2Lsl(w) && !MatchLdrLitT2(w)
    ensures Verdict32(w)
  {
    ChainLoads32(w);
    LdrRT2LslWord(w);
    var p := DecodeLdrRT2Lsl(w);
    AgainLdrRT2Lsl(p, w);
    SameBits32(w, Loads(WIDE, OFFSET, [Reg(p.rt), Reg(p.rn), Reg(p.rm), LslShift(p.lslShiftImm2)]));
  }

  lemma AgainLdrIT4(p: LdrIT4)
    requires p.rt < 16 && p.rn < 16 && p.imm8 < 0x100
    ensures Sound(DisassembleLdrIT4(p))
  {
    var offset := Signed(p.imm8, p.add).simm;
    SignedFacts(p.imm8, p.add);
    if p.index == 0 && p.writeback == 0 {
    } else {
      var mode := if p.writeback == 0 then OFFSET else if p.index != 0 then PREINDEX else POSTINDEX;
      assert DisassembleLdrIT4(p) == Loads(WIDE, mode, [Reg(p.rt), Reg(p.rn), SignedImm(offset)]);
      if mode == OFFSET && !Negative(offset) {
        AgainLdrPlain(p.rt, p.rn, offset);
      } else if mode == OFFSET && p.rn == 15 {
        AgainLdrLiteral(p.rt, offset, LdrLitT2(p.rt, Negated(offset), 0));
      } else {
        AgainLdrParts(mode, p.rt, p.rn, offset, LdrSignedParts(mode, p.rt, p.rn, offset));
      }
    }
  }

  lemma VerdictLdrIT4(w: bv32)
    requires MatchLdrIT4(w)
    ensures Verdict32(w)
  {
    ChainLoads32(w);
    LdrIT4Word(w);
    var p := DecodeLdrIT4(w);
    LdrIT4Fits(p);
    AgainLdrIT4(p);
  }

  // ---- The theorem

  lemma NothingNarrow(w: bv16)
    requires DisassembleNarrow(w) == Plain(UNKNOWN, NARROW, [])
    ensures Sound(DisassembleNarrow(w))
  {
  }

  lemma NothingWide(w: bv32)
    requires DisassembleWide(w) == Plain(UNKNOWN, WIDE, [])
    ensures Sound(DisassembleWide(w))
  {
  }

  lemma VerdictOtherNarrow(w: bv16)
    requires !(MatchUdfT1(w) || MatchBkptT1(w) || MatchNopT1(w) || MatchMovsIT1(w) || MatchMovRT1(w) || MatchMovsRT2(w))
    requires !(MatchBxT1(w) || MatchSvcT1(w) || MatchBT2(w) || MatchBCondT1(w))
    ensures Verdict16(w)
  {
    if MatchLdrIT1(w) || MatchLdrIT2Sp(w) || MatchLdrLitT1(w) {
      VerdictLoads16(w);
    } else if MatchLdrRT1(w) {
      VerdictLdrRT1(w);
    } else if MatchBlxT1(w) {
      VerdictTraps16(w);
    } else if MatchPopT1(w) {
      VerdictPopT1(w);
    } else if MatchPushT1(w) {
      VerdictPushT1(w);
    } else if MatchCmpIT1(w) || MatchCmpRT1(w) || MatchCmpRT2(w) {
      VerdictCompares16(w);
    } else if MatchAddsIT1(w) || MatchAddsIT2(w) || MatchAddsRT1(w) || MatchAddRT2(w) {
      VerdictAdds16(w);
    } else if MatchSubsIT1(w) || MatchSubsRT1(w) {
      VerdictSubs16(w);
    } else if MatchSubsIT2(w) {
      VerdictSubsIT2(w);
    } else {
      NothingNarrow(w);
    }
  }

  lemma VerdictNarrow(w: bv16)
    ensures Verdict16(w)
  {
    if MatchUdfT1(w) || MatchSvcT1(w) || MatchBkptT1(w) || MatchBxT1(w) {
      VerdictTraps16(w);
    } else if MatchNopT1(w) {
      VerdictNopT1(w);
    } else if MatchMovsIT1(w) || MatchMovRT1(w) || MatchMovsRT2(w) {
      VerdictMoves16(w);
    } else if MatchBT2(w) {
      VerdictBT2(w);
    } else if MatchBCondT1(w) {
      ChainBCondT1(w);
      CondField(w);
      VerdictBCondT1(w);
    } else {
      VerdictOtherNarrow(w);
    }
  }

  lemma CondField(w: bv16)
    ensures DecodeBCondT1(w).cond < 16
    ensures DecodeBCondT1(w).cond != 14 && DecodeBCondT1(w).cond != 15 ==> DecodeBCondT1(w).cond < 14
  {
  }

  lemma VerdictOtherWide(w: bv32)
    requires !(MatchUdfT2(w) || MatchNopT2(w) || MatchMovwIT3(w) || MatchMovRT3(w) || MatchBT4(w) || MatchBCondT3(w))
    requires !(MatchLdrIT3(w) || MatchLdrIT4(w) || MatchLdrLitT2(w) || MatchLdrRT2Lsl(w))
    ensures Verdict32(w)
  {
    if MatchBlT1(w) {
      VerdictBlT1(w);
    } else if MatchPopT2(w) {
      VerdictPopT2(w);
    } else if MatchPopT3(w) {
      ChainLoads32(w);
      assert false;
    } else if MatchPushT2(w) {
      VerdictPushT2(w);
    } else if MatchPushT3(w) {
      VerdictPushT3(w);
    } else if MatchAddwIT4(w) {
      VerdictAddwIT4(w);
    } else if MatchSubwIT4(w) {
      VerdictSubwIT4(w);
    } else {
      NothingWide(w);
    }
  }

  lemma VerdictWide(w: bv32)
    ensures Verdict32(w)
  {
    if MatchUdfT2(w) || MatchNopT2(w) || MatchMovRT3(w) {
      VerdictUdfT2(w);
    } else if MatchMovwIT3(w) {
      VerdictMovwIT3(w);
    } else if MatchBT4(w) {
      VerdictBT4(w);
    } else if MatchBCondT3(w) {
      VerdictBCondT3(w);
    } else if MatchLdrIT3(w) {
      VerdictLdrIT3(w);
    } else if MatchLdrIT4(w) {
      VerdictLdrIT4(w);
    } else if MatchLdrLitT2(w) {
      VerdictLdrLitT2(w);
    } else if MatchLdrRT2Lsl(w) {
      VerdictLdrRT2Lsl(w);
    } else {
      VerdictOtherWide(w);
    }
  }

  /** Of all 32-bit words, exactly the returnable ones assemble again, at the same width, to an
      instruction that is read as the same specification. */
  lemma DisassembleThenAssemble(ins: bv32)
    ensures Returns(Disassemble(ins)) <==> Disassemble(ins).Decoded? && Returnable(Disassemble(ins).spec)
  {
    if IsWide(Low16(ins)) {
      VerdictWide(ins);
    } else {
      VerdictNarrow(Low16(ins));
    }
  }

  lemma AssertionHoldsElsewhere(ins: bv32)
    requires !MatchLdrIT4(ins)
    ensures Disassemble(ins) != AssertFailed
  {
    NarrowDecodes(Low16(ins));
    OnlyT4Fails(ins);
  }

  /** The disassembler's assertion fails on exactly the words of LDR T4 that neither index nor
      write back. */
  lemma AssertionFails(ins: bv32)
    ensures Disassemble(ins) == AssertFailed <==>
            MatchLdrIT4(ins) && DecodeLdrIT4(ins).index == 0 && DecodeLdrIT4(ins).writeback == 0
  {
    if MatchLdrIT4(ins) {
      var p := DecodeLdrIT4(ins);
      ChainLoads32(ins);
      assert Disassemble(ins) == DisassembleLdrIT4(p);
    } else {
      AssertionHoldsElsewhere(ins);
    }
  }
}
