// Which of its three failures the assembler reports.

module Refusals {
  import opened T32Encoding
  import opened ThumbAsm
  import opened ReadBack

  /** SP or PC, as the uint8_t holds it. */
  predicate Special(o: Operand) {
    o.Reg? && (Byte(o.reg) == 13 || Byte(o.reg) == 15)
  }

  predicate SameByte(o: Operand, p: Operand) {
    o.Reg? && p.Reg? && Byte(o.reg) == Byte(p.reg)
  }

  predicate Pair(s: Spec) {
    |s.operands| == 2 && s.operands[0].Reg?
  }

  predicate LoadShape(s: Spec) {
    && 3 <= |s.operands| <= 4 && s.mode != NONE && s.operands[0].Reg? && s.operands[1].Reg?
    && if s.operands[2].Reg? then s.mode == OFFSET && (|s.operands| == 4 ==> s.operands[3].LslShift?)
       else s.operands[2].SignedImm? && |s.operands| == 3
  }

  /** A refused request could assemble in another width, or in one that the assembler does not have. A
      load, a branch or a move that fits no encoding of a width that it may have has a wrong operand. */
  predicate WidthAtFault(s: Spec) {
    match s.mnemonic
    case ADD =>
      TwoRegisters(s) &&
      if s.operands[2].Reg? then s.width == WIDE || !SameByte(s.operands[0], s.operands[1])
      else s.operands[2].Imm? && s.width == NARROW && !Special(s.operands[1])
    case SUB =>
      TwoRegisters(s) &&
      (s.operands[2].Reg? || (s.operands[2].Imm? && s.width == NARROW && !Special(s.operands[1])))
    case ADDS => SumAtFault(s)
    case SUBS => SumAtFault(s)
    case ADDW => s.width == NARROW
    case SUBW => s.width == NARROW
    case BL => s.width == NARROW
    case MOVW => s.width == NARROW
    case BKPT => s.width == WIDE
    case BLX => s.width == WIDE
    case BX => s.width == WIDE
    case CMP => s.width == WIDE
    case SVC => s.width == WIDE
    case B => s.width == NARROW && |s.operands| == 1 && s.operands[0].SignedImm?
    case UDF => s.width == NARROW && |s.operands| == 1 && s.operands[0].Imm?
    case LDR => s.width == NARROW && LoadShape(s)
    case MOV =>
      s.width == NARROW && Pair(s) && (s.operands[1].Reg? || (s.operands[1].Imm? && !Special(s.operands[0])))
    case MOVS =>
      Pair(s) && if s.operands[1].Reg? then s.width == NARROW else s.operands[1].Imm? && !Special(s.operands[0])
    case POP => ListAsked(s) && s.operands[0].reglist != 0
    case PUSH => ListAsked(s) && s.operands[0].reglist != 0
    case _ => false
  }

  predicate SumAtFault(s: Spec) {
    TwoRegisters(s) &&
    if s.operands[2].Reg? then s.width == WIDE
    else s.operands[2].Imm? && (s.width == WIDE || !SameByte(s.operands[0], s.operands[1]))
  }

  predicate Blames(s: Spec, r: AsmResult) {
    !r.Success() ==> r == if WidthAtFault(s) then InvalidWidth else InvalidOperand
  }

  lemma BlameOfAdd(s: Spec)
    requires s.mnemonic == ADD
    ensures Blames(s, AssembleAdd(s))
  {
  }

  lemma BlameOfAdds(s: Spec)
    requires s.mnemonic == ADDS
    ensures Blames(s, AssembleAdds(s))
  {
  }

  lemma BlameOfAddw(s: Spec)
    requires s.mnemonic == ADDW
    ensures Blames(s, AssembleAddw(s))
  {
  }

  lemma BlameOfB(s: Spec)
    requires s.mnemonic == B
    ensures Blames(s, AssembleB(s))
  {
  }

  lemma BlameOfBkpt(s: Spec)
    requires s.mnemonic == BKPT
    ensures Blames(s, AssembleBkpt(s))
  {
  }

  lemma BlameOfBl(s: Spec)
    requires s.mnemonic == BL
    ensures Blames(s, AssembleBl(s))
  {
  }

  lemma BlameOfBlx(s: Spec)
    requires s.mnemonic == BLX
    ensures Blames(s, AssembleBlx(s))
  {
  }

  lemma BlameOfBx(s: Spec)
    requires s.mnemonic == BX
    ensures Blames(s, AssembleBx(s))
  {
  }

  lemma BlameOfCmp(s: Spec)
    requires s.mnemonic == CMP
    ensures Blames(s, AssembleCmp(s))
  {
  }

  lemma BlameOfNop(s: Spec)
    requires s.mnemonic == NOP
    ensures Blames(s, AssembleNop(s))
  {
  }

  lemma BlameOfMov(s: Spec)
    requires s.mnemonic == MOV
    ensures Blames(s, AssembleMov(s))
  {
  }

  lemma BlameOfMovs(s: Spec)
    requires s.mnemonic == MOVS
    ensures Blames(s, AssembleMovs(s))
  {
  }

  lemma BlameOfMovw(s: Spec)
    requires s.mnemonic == MOVW
    ensures Blames(s, AssembleMovw(s))
  {
  }

  lemma BlameOfSub(s: Spec)
    requires s.mnemonic == SUB
    ensures Blames(s, AssembleSub(s))
  {
  }

  lemma BlameOfSubs(s: Spec)
    requires s.mnemonic == SUBS
    ensures Blames(s, AssembleSubs(s))
  {
  }

  lemma BlameOfSubw(s: Spec)
    requires s.mnemonic == SUBW
    ensures Blames(s, AssembleSubw(s))
  {
  }

  lemma BlameOfSvc(s: Spec)
    requires s.mnemonic == SVC
    ensures Blames(s, AssembleSvc(s))
  {
  }

  lemma BlameOfUdf(s: Spec)
    requires s.mnemonic == UDF
    ensures Blames(s, AssembleUdf(s))
  {
  }

  lemma BlameOfSplit(s: Spec, narrow: Encoded16, wide: AsmResult, r: AsmResult)
    requires wide.Success() || wide == InvalidOperand
    requires r == Prefer(s, narrow, IfWide(s, wide)) || r == IfWide(s, wide)
    ensures !r.Success() ==> r == if s.width == NARROW then InvalidWidth else InvalidOperand
  {
  }

  lemma BlameOfTries(first: Encoded32, second: AsmResult)
    requires second.Success() || second == InvalidOperand
    ensures Try32(first, second).Success() || Try32(first, second) == InvalidOperand
  {
  }

  lemma BlameOfLdrRegister(s: Spec, rt: bv32, rn: bv32, rm: bv32, lsl: bv32)
    ensures
      var r := AssembleLdrRegister(s, rt, rn, rm, lsl);
      !r.Success() ==> r == if s.width == NARROW then InvalidWidth else InvalidOperand
  {
    BlameOfSplit(
      s, EncodeLdrRT1(LdrRT1(rm, rn, rt)), Result32(EncodeLdrRT2Lsl(LdrRT2Lsl(rt, lsl, rm, rn))),
      AssembleLdrRegister(s, rt, rn, rm, lsl));
  }

  lemma BlameOfLdrSigned(s: Spec, rt: bv32, rn: bv32, offset: bv32)
    ensures AssembleLdrSigned(s, rt, rn, offset).Success() || AssembleLdrSigned(s, rt, rn, offset) == InvalidOperand
  {
    var indexed := Result32(EncodeLdrIT4(LdrSignedParts(s.mode, rt, rn, offset)));
    BlameOfTries(EncodeLdrLitT2(LdrLitT2(rt, Negated(offset), 0)), indexed);
    BlameOfTries(EncodeLdrLitT2(LdrLitT2(rt, offset, 1)), indexed);
  }

  lemma BlameOfLdrImmediate(s: Spec, rt: bv32, rn: bv32, offset: bv32, r: AsmResult)
    requires r == AssembleLdrImmediate(s, rt, rn, offset)
    ensures !r.Success() ==> r == if s.width == NARROW then InvalidWidth else InvalidOperand
  {
    var signed := AssembleLdrSigned(s, rt, rn, offset);
    BlameOfLdrSigned(s, rt, rn, offset);
    if s.mode == OFFSET && !Negative(offset) {
      BlameOfTries(EncodeLdrIT3(LdrIT3(rt, offset, rn)), signed);
      BlameOfSplit(
        s, EncodeLdrNarrow(rt, rn, offset), Try32(EncodeLdrIT3(LdrIT3(rt, offset, rn)), signed), r);
    } else {
      BlameOfSplit(s, None16, signed, r);
    }
  }

  lemma BlameOfLdr(s: Spec)
    requires s.mnemonic == LDR
    ensures Blames(s, AssembleLdr(s))
  {
    if LoadShape(s) {
      var rt, rn := Byte(s.operands[0].reg), Byte(s.operands[1].reg);
      if s.operands[2].Reg? {
        BlameOfLdrRegister(
          s, rt, rn, Byte(s.operands[2].reg), if |s.operands| == 4 then s.operands[3].shift else 0);
      } else {
        BlameOfLdrImmediate(s, rt, rn, s.operands[2].simm, AssembleLdr(s));
      }
    }
  }

  lemma BlameOfPopParts(s: Spec, count: nat, p: PopT2, rest: bv16)
    ensures AssemblePopParts(s, count, p, rest).Success() || AssemblePopParts(s, count, p, rest) == InvalidWidth
  {
  }

  lemma BlameOfPushParts(s: Spec, count: nat, p: PushT2, rest: bv16)
    ensures AssemblePushParts(s, count, p, rest).Success() || AssemblePushParts(s, count, p, rest) == InvalidWidth
  {
  }

  lemma EmptyRefused(s: Spec)
    requires ListAsked(s) ==> s.operands[0].reglist == 0
    ensures AssemblePop(s) == InvalidOperand && AssemblePush(s) == InvalidOperand
  {
    if ListAsked(s) {
      CountOne(s.operands[0].reglist);
    }
    ListRefused(s);
  }

  lemma PopWithList(s: Spec, list: bv16, r: AsmResult)
    requires s.operands == [RegList(list)] && list != 0 && r == AssemblePop(s)
    ensures r.Success() || r == InvalidWidth
  {
    var count := CountRegisters(list);
    CountOne(list);
    PopByParts(s, list, count);
    BlameOfPopParts(s, count, PopPartsOf(list), list & 0x3fff);
  }

  lemma PushWithList(s: Spec, list: bv16, r: AsmResult)
    requires s.operands == [RegList(list)] && list != 0 && r == AssemblePush(s)
    ensures r.Success() || r == InvalidWidth
  {
    var count := CountRegisters(list);
    CountOne(list);
    PushByParts(s, list, count);
    BlameOfPushParts(s, count, PushPartsOf(list), list & 0xbfff);
  }

  lemma BlameOfPop(s: Spec, r: AsmResult)
    requires s.mnemonic == POP && r == AssemblePop(s)
    ensures Blames(s, r)
  {
    if ListAsked(s) && s.operands[0].reglist != 0 {
      PopWithList(s, s.operands[0].reglist, r);
    } else {
      EmptyRefused(s);
    }
  }

  lemma BlameOfPush(s: Spec, r: AsmResult)
    requires s.mnemonic == PUSH && r == AssemblePush(s)
    ensures Blames(s, r)
  {
    if ListAsked(s) && s.operands[0].reglist != 0 {
      PushWithList(s, s.operands[0].reglist, r);
    } else {
      EmptyRefused(s);
    }
  }

  /** The failure that is reported. */
  lemma Refuses(s: Spec)
    requires !Assemble(s).Success()
    ensures Assemble(s) ==
      if s.mnemonic == UNKNOWN then BadMnemonic else if WidthAtFault(s) then InvalidWidth else InvalidOperand
  {
    match s.mnemonic
    case UNKNOWN =>
    case ADD => BlameOfAdd(s);
    case ADDS => BlameOfAdds(s);
    case ADDW => BlameOfAddw(s);
    case B => BlameOfB(s);
    case BKPT => BlameOfBkpt(s);
    case BL => BlameOfBl(s);
    case BLX => BlameOfBlx(s);
    case BX => BlameOfBx(s);
    case CMP => BlameOfCmp(s);
    case LDR => BlameOfLdr(s);
    case NOP => BlameOfNop(s);
    case MOV => BlameOfMov(s);
    case MOVS => BlameOfMovs(s);
    case MOVW => BlameOfMovw(s);
    case POP => BlameOfPop(s, AssemblePop(s));
    case PUSH => BlameOfPush(s, AssemblePush(s));
    case SUB => BlameOfSub(s);
    case SUBS => BlameOfSubs(s);
    case SUBW => BlameOfSubw(s);
    case SVC => BlameOfSvc(s);
    case UDF => BlameOfUdf(s);
  }
}
