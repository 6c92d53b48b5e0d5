// Exactly which instructions assemble, and to which width: the narrow encoding where there is one
// and it is allowed, otherwise the wide one where there is one and it is allowed.

module Acceptance {
  import opened T32Encoding
  import opened EncodingLaws
  import opened ThumbAsm
  import opened ReadBack
  import opened AsmRoundTrip

  // A register operand is looked at after it went through a uint8_t.

  predicate Low(o: Operand) {
    o.Reg? && Byte(o.reg) < 8
  }

  predicate Any(o: Operand) {
    o.Reg? && Byte(o.reg) < 16
  }

  predicate IsBase(o: Operand) {
    o.Reg? && Byte(o.reg) != 13 && Byte(o.reg) != 15
  }

  predicate ImmBelow(o: Operand, n: bv32) {
    o.Imm? && o.imm < n
  }

  predicate One(s: Spec) {
    |s.operands| == 1
  }

  predicate Two(s: Spec) {
    |s.operands| == 2
  }

  predicate Three(s: Spec) {
    |s.operands| == 3
  }

  predicate SameRegister(o: Operand, p: Operand) {
    o.Reg? && p.Reg? && Byte(o.reg) == Byte(p.reg)
  }

  /** A branch target of an even distance below n either way. */
  predicate TargetWithin(s: Spec, n: bv32) {
    && One(s) && s.operands[0].SignedImm?
    && ToPc(s.operands[0].simm) & 1 == 0 && Within(ToPc(s.operands[0].simm), n)
  }

  predicate BranchesNear(cond: bv32, target: bv32) {
    target & 1 == 0 && Within(target, 0x200) && cond < 16
  }

  predicate BranchesFar(cond: bv32, target: bv32) {
    target & 1 == 0 && Within(target, 0x20_0000) && cond < 16
  }

  /** Two low registers and an immediate of 3 bits, or one twice and an immediate of 8. */
  predicate SmallSum(rd: bv32, rn: bv32, imm: bv32) {
    rd < 8 && rn < 8 && (imm < 8 || (rd == rn && imm < 0x100))
  }

  predicate NarrowSum(s: Spec) {
    && TwoRegisters(s)
    && match s.operands[2]
       case Imm(imm) => SmallSum(Byte(s.operands[0].reg), Byte(s.operands[1].reg), imm)
       case Reg(_) => Low(s.operands[0]) && Low(s.operands[1]) && Low(s.operands[2])
       case _ => false
  }

  predicate WideSum(s: Spec) {
    Three(s) && Any(s.operands[0]) && Any(s.operands[1]) && IsBase(s.operands[1]) && ImmBelow(s.operands[2], 0x1000)
  }

  predicate WideMove(s: Spec) {
    && Two(s) && s.operands[0].Reg? && s.operands[0].reg < 16
    && s.operands[0].reg != 13 && s.operands[0].reg != 15 && ImmBelow(s.operands[1], 0x1_0000)
  }

  predicate ExactRegister(s: Spec) {
    One(s) && s.operands[0].Reg? && s.operands[0].reg < 16
  }

  predicate IsList(s: Spec) {
    One(s) && s.operands[0].RegList? && s.operands[0].reglist != 0
  }

  predicate LoadsRegister(s: Spec, low: bool) {
    && 3 <= |s.operands| <= 4 && s.mode == OFFSET
    && (if low then Low(s.operands[0]) && Low(s.operands[1]) && Low(s.operands[2])
        else Any(s.operands[0]) && Any(s.operands[1]) && Any(s.operands[2]))
    && (|s.operands| == 4 ==> s.operands[3].LslShift? && s.operands[3].shift < if low then 1 else 4)
  }

  predicate NearLoad(mode: AddressingMode, rt: bv32, rn: bv32, offset: bv32) {
    mode == OFFSET && !Negative(offset) && NarrowReaches(rt, rn, offset)
  }

  /** A plain offset and one from PC have 12 bits, any other 8. */
  predicate FarLoad(mode: AddressingMode, rt: bv32, rn: bv32, offset: bv32) {
    && mode != NONE && rt < 16 && rn < 16
    && if mode == OFFSET && (!Negative(offset) || rn == 15) then Magnitude(offset) < 0x1000
       else Magnitude(offset) < 0x100
  }

  predicate LoadsNear(s: Spec) {
    && Three(s) && s.operands[0].Reg? && s.operands[1].Reg? && s.operands[2].SignedImm?
    && NearLoad(s.mode, Byte(s.operands[0].reg), Byte(s.operands[1].reg), s.operands[2].simm)
  }

  predicate LoadsFar(s: Spec) {
    && Three(s) && s.operands[0].Reg? && s.operands[1].Reg? && s.operands[2].SignedImm?
    && FarLoad(s.mode, Byte(s.operands[0].reg), Byte(s.operands[1].reg), s.operands[2].simm)
  }

  /** The instruction has a narrow encoding. */
  predicate Narrows(s: Spec) {
    match s.mnemonic
    case ADD =>
      Three(s) && Any(s.operands[0]) && SameRegister(s.operands[0], s.operands[1]) && Any(s.operands[2])
    case ADDS => NarrowSum(s)
    case SUBS => NarrowSum(s)
    case B =>
      if s.condition == 0 then TargetWithin(s, 0x1000)
      else One(s) && s.operands[0].SignedImm? && BranchesNear(s.condition - 1, ToPc(s.operands[0].simm))
    case BKPT => One(s) && ImmBelow(s.operands[0], 0x100)
    case SVC => One(s) && ImmBelow(s.operands[0], 0x100)
    case UDF => One(s) && ImmBelow(s.operands[0], 0x100)
    case BX => ExactRegister(s)
    case BLX => ExactRegister(s)
    case CMP =>
      Two(s) && ((Low(s.operands[0]) && ImmBelow(s.operands[1], 0x100)) || (Any(s.operands[0]) && Any(s.operands[1])))
    case LDR => LoadsRegister(s, true) || LoadsNear(s)
    case NOP => |s.operands| == 0
    case MOV => Two(s) && Any(s.operands[0]) && Any(s.operands[1])
    case MOVS => Two(s) && Low(s.operands[0]) && (Low(s.operands[1]) || ImmBelow(s.operands[1], 0x100))
    case POP => IsList(s) && s.operands[0].reglist & 0x7f00 == 0
    case PUSH => IsList(s) && s.operands[0].reglist & 0xbf00 == 0
    case _ => false
  }

  /** The instruction has a wide encoding. */
  predicate Widens(s: Spec) {
    match s.mnemonic
    case ADD => WideSum(s)
    case ADDW => WideSum(s)
    case SUB => WideSum(s)
    case SUBW => WideSum(s)
    case B =>
      if s.condition == 0 then TargetWithin(s, 0x200_0000)
      else One(s) && s.operands[0].SignedImm? && BranchesFar(s.condition - 1, ToPc(s.operands[0].simm))
    case BL => TargetWithin(s, 0x200_0000)
    case LDR => LoadsRegister(s, false) || LoadsFar(s)
    case NOP => |s.operands| == 0
    case MOV => WideMove(s) || (Two(s) && Any(s.operands[0]) && Any(s.operands[1]))
    case MOVW => WideMove(s)
    case MOVS => Two(s) && Any(s.operands[0]) && Any(s.operands[1])
    case POP => IsList(s) && (s.operands[0].reglist & 0x2000 == 0 || Single(s.operands[0].reglist))
    case PUSH => IsList(s) && (s.operands[0].reglist & 0xa000 == 0 || Single(s.operands[0].reglist))
    case UDF => One(s) && ImmBelow(s.operands[0], 0x1_0000)
    case _ => false
  }

  predicate Chooses(s: Spec, r: AsmResult) {
    && (r.NarrowSuccess? <==> s.CanBeNarrow() && Narrows(s))
    && (r.WideSuccess? <==> s.CanBeWide() && Widens(s) && !(s.CanBeNarrow() && Narrows(s)))
  }

  // ---- Mnemonic by mnemonic

  lemma PreferChooses(s: Spec, narrow: Encoded16, wide: Encoded32)
    requires narrow.Some16? <==> Narrows(s)
    requires wide.Some32? <==> Widens(s)
    ensures Chooses(s, Prefer(s, narrow, IfWide(s, Result32(wide))))
  {
  }

  lemma AddOfRegister(s: Spec, p: AddRT2)
    requires s.mnemonic == ADD && TwoRegisters(s) && s.operands[2].Reg?
    requires p == AddRT2(Byte(s.operands[0].reg), Byte(s.operands[2].reg))
    ensures Chooses(s, AssembleAdd(s))
  {
    AddRT2Fits(p);
  }

  lemma AddOfImmediate(s: Spec, p: AddwIT4)
    requires s.mnemonic == ADD && TwoRegisters(s) && s.operands[2].Imm?
    requires p == AddwIT4(Byte(s.operands[0].reg), Byte(s.operands[1].reg), s.operands[2].imm)
    ensures Chooses(s, AssembleAdd(s))
  {
    AddwIT4Fits(p);
  }

  lemma ChoosesAdd(s: Spec)
    requires s.mnemonic == ADD
    ensures Chooses(s, AssembleAdd(s))
  {
    if TwoRegisters(s) {
      var rd, rn := Byte(s.operands[0].reg), Byte(s.operands[1].reg);
      match s.operands[2]
      case Imm(imm) => AddOfImmediate(s, AddwIT4(rd, rn, imm));
      case Reg(reg) => AddOfRegister(s, AddRT2(rd, Byte(reg)));
      case _ =>
    }
  }

  lemma ChoosesAddw(s: Spec)
    requires s.mnemonic == ADDW
    ensures Chooses(s, AssembleAddw(s))
  {
    if TwoRegisters(s) && s.operands[2].Imm? {
      AddwIT4Fits(AddwIT4(Byte(s.operands[0].reg), Byte(s.operands[1].reg), s.operands[2].imm));
    }
  }

  lemma ChoosesSub(s: Spec)
    requires s.mnemonic == SUB || s.mnemonic == SUBW
    ensures Chooses(s, if s.mnemonic == SUB then AssembleSub(s) else AssembleSubw(s))
  {
    if TwoRegisters(s) && s.operands[2].Imm? {
      SubwIT4Fits(SubwIT4(Byte(s.operands[0].reg), Byte(s.operands[1].reg), s.operands[2].imm));
    }
  }

  /** Two narrow attempts, the second only for one register. */
  lemma EitherChooses(s: Spec, first: Encoded16, second: Encoded16, same: bool)
    requires first.Some16? || (same && second.Some16?) <==> Narrows(s)
    requires !Widens(s)
    ensures
      Chooses(s, if s.width == WIDE then InvalidWidth
                 else Try16(first, if same then Result16(second) else InvalidWidth))
  {
  }

  // The fit checks as the encoders write them.

  lemma Below(x: bv32)
    ensures x & 0xfffffff8 == 0 <==> x < 8
    ensures x & 0xffffff00 == 0 <==> x < 0x100
  {
  }

  lemma SumSplits(rd: bv32, rn: bv32, imm: bv32)
    ensures SmallSum(rd, rn, imm) <==>
      || (imm & 0xfffffff8 == 0 && rn & 0xfffffff8 == 0 && rd & 0xfffffff8 == 0)
      || (rd == rn && rd & 0xfffffff8 == 0 && imm & 0xffffff00 == 0)
  {
    Below(rd);
    Below(rn);
    Below(imm);
    if rd == rn {
    } else {
    }
  }

  lemma SumTaken(s: Spec, rd: bv32, rn: bv32, imm: bv32)
    requires s.mnemonic == ADDS || s.mnemonic == SUBS
    requires TwoRegisters(s) && s.operands[2] == Imm(imm)
    requires rd == Byte(s.operands[0].reg) && rn == Byte(s.operands[1].reg)
    ensures Narrows(s) <==> SmallSum(rd, rn, imm)
    ensures !Widens(s)
  {
  }

  lemma SumRegisters(s: Spec, e: Encoded16)
    requires s.mnemonic == ADDS || s.mnemonic == SUBS
    requires TwoRegisters(s) && s.operands[2].Reg?
    requires e.Some16? <==>
      Byte(s.operands[2].reg) < 8 && Byte(s.operands[1].reg) < 8 && Byte(s.operands[0].reg) < 8
    ensures Chooses(s, if s.width == WIDE then InvalidWidth else Result16(e))
  {
  }

  lemma ImmediateSum(s: Spec, rd: bv32, rn: bv32, imm: bv32, first: Encoded16, second: Encoded16)
    requires s.mnemonic == ADDS || s.mnemonic == SUBS
    requires TwoRegisters(s) && s.operands[2] == Imm(imm)
    requires rd == Byte(s.operands[0].reg) && rn == Byte(s.operands[1].reg)
    requires first.Some16? <==> imm & 0xfffffff8 == 0 && rn & 0xfffffff8 == 0 && rd & 0xfffffff8 == 0
    requires second.Some16? <==> rd & 0xfffffff8 == 0 && imm & 0xffffff00 == 0
    ensures Chooses(s, if s.width == WIDE then InvalidWidth
                       else Try16(first, if rd == rn then Result16(second) else InvalidWidth))
  {
    SumSplits(rd, rn, imm);
    SumTaken(s, rd, rn, imm);
    EitherChooses(s, first, second, rd == rn);
  }

  lemma RegisterAdds(s: Spec, p: AddsRT1)
    requires s.mnemonic == ADDS && TwoRegisters(s) && s.operands[2].Reg?
    requires p == AddsRT1(Byte(s.operands[2].reg), Byte(s.operands[1].reg), Byte(s.operands[0].reg))
    ensures Chooses(s, if s.width == WIDE then InvalidWidth else Result16(EncodeAddsRT1(p)))
  {
    AddsRT1Fits(p);
    SumRegisters(s, EncodeAddsRT1(p));
  }

  lemma AddsFirst(rd: bv32, rn: bv32, imm: bv32)
    ensures EncodeAddsIT1(AddsIT1(imm, rn, rd)).Some16? <==>
      imm & 0xfffffff8 == 0 && rn & 0xfffffff8 == 0 && rd & 0xfffffff8 == 0
  {
  }

  lemma AddsSecond(rd: bv32, imm: bv32)
    ensures EncodeAddsIT2(AddsIT2(rd, imm)).Some16? <==> rd & 0xfffffff8 == 0 && imm & 0xffffff00 == 0
  {
  }

  lemma AddsOfImmediate(s: Spec, rd: bv32, rn: bv32, imm: bv32, first: Encoded16, second: Encoded16)
    requires s.mnemonic == ADDS && TwoRegisters(s) && s.operands[2] == Imm(imm)
    requires rd == Byte(s.operands[0].reg) && rn == Byte(s.operands[1].reg)
    requires first == EncodeAddsIT1(AddsIT1(imm, rn, rd)) && second == EncodeAddsIT2(AddsIT2(rd, imm))
    ensures Chooses(s, if s.width == WIDE then InvalidWidth
                       else Try16(first, if rd == rn then Result16(second) else InvalidWidth))
  {
    AddsFirst(rd, rn, imm);
    AddsSecond(rd, imm);
    ImmediateSum(s, rd, rn, imm, first, second);
  }

  lemma ChoosesAdds(s: Spec)
    requires s.mnemonic == ADDS
    ensures Chooses(s, AssembleAdds(s))
  {
    if TwoRegisters(s) {
      var rd, rn := Byte(s.operands[0].reg), Byte(s.operands[1].reg);
      match s.operands[2]
      case Imm(imm) =>
        AddsOfImmediate(s, rd, rn, imm, EncodeAddsIT1(AddsIT1(imm, rn, rd)), EncodeAddsIT2(AddsIT2(rd, imm)));
      case Reg(rm) => RegisterAdds(s, AddsRT1(Byte(rm), rn, rd));
      case _ =>
    }
  }

  lemma RegisterSubs(s: Spec, p: SubsRT1)
    requires s.mnemonic == SUBS && TwoRegisters(s) && s.operands[2].Reg?
    requires p == SubsRT1(Byte(s.operands[2].reg), Byte(s.operands[1].reg), Byte(s.operands[0].reg))
    ensures Chooses(s, if s.width == WIDE then InvalidWidth else Result16(EncodeSubsRT1(p)))
  {
    SubsRT1Fits(p);
    SumRegisters(s, EncodeSubsRT1(p));
  }

  lemma SubsFirst(rd: bv32, rn: bv32, imm: bv32)
    ensures EncodeSubsIT1(SubsIT1(imm, rn, rd)).Some16? <==>
      imm & 0xfffffff8 == 0 && rn & 0xfffffff8 == 0 && rd & 0xfffffff8 == 0
  {
  }

  lemma SubsSecond(rd: bv32, imm: bv32)
    ensures EncodeSubsIT2(SubsIT2(rd, imm)).Some16? <==> rd & 0xfffffff8 == 0 && imm & 0xffffff00 == 0
  {
  }

  lemma SubsOfImmediate(s: Spec, rd: bv32, rn: bv32, imm: bv32, first: Encoded16, second: Encoded16)
    requires s.mnemonic == SUBS && TwoRegisters(s) && s.operands[2] == Imm(imm)
    requires rd == Byte(s.operands[0].reg) && rn == Byte(s.operands[1].reg)
    requires first == EncodeSubsIT1(SubsIT1(imm, rn, rd)) && second == EncodeSubsIT2(SubsIT2(rd, imm))
    ensures Chooses(s, if s.width == WIDE then InvalidWidth
                       else Try16(first, if rd == rn then Result16(second) else InvalidWidth))
  {
    SubsFirst(rd, rn, imm);
    SubsSecond(rd, imm);
    ImmediateSum(s, rd, rn, imm, first, second);
  }

  lemma ChoosesSubs(s: Spec)
    requires s.mnemonic == SUBS
    ensures Chooses(s, AssembleSubs(s))
  {
    if TwoRegisters(s) {
      var rd, rn := Byte(s.operands[0].reg), Byte(s.operands[1].reg);
      match s.operands[2]
      case Imm(imm) =>
        SubsOfImmediate(s, rd, rn, imm, EncodeSubsIT1(SubsIT1(imm, rn, rd)), EncodeSubsIT2(SubsIT2(rd, imm)));
      case Reg(rm) => RegisterSubs(s, SubsRT1(Byte(rm), rn, rd));
      case _ =>
    }
  }

  lemma ChoosesBranch(s: Spec, p: BT2, q: BT4)
    requires s.mnemonic == B && s.condition == 0 && One(s) && s.operands[0].SignedImm?
    requires p.simm11 == ToPc(s.operands[0].simm) && q.simm25 == p.simm11
    ensures Chooses(s, AssembleBranch(s, p, q))
  {
    BT2Fits(p);
    BT4Fits(q);
    PreferChooses(s, EncodeBT2(p), EncodeBT4(q));
  }

  lemma ConditionalNarrows(s: Spec)
    requires s.mnemonic == B && s.condition != 0 && One(s) && s.operands[0].SignedImm?
    ensures Narrows(s) <==> BranchesNear(s.condition - 1, ToPc(s.operands[0].simm))
  {
  }

  lemma ConditionalWidens(s: Spec)
    requires s.mnemonic == B && s.condition != 0 && One(s) && s.operands[0].SignedImm?
    ensures Widens(s) <==> BranchesFar(s.condition - 1, ToPc(s.operands[0].simm))
  {
  }

  lemma ConditionalFits(p: BCondT1, q: BCondT3)
    ensures EncodeBCondT1(p).Some16? <==> BranchesNear(p.cond, p.simm8)
    ensures EncodeBCondT3(q).Some32? <==> BranchesFar(q.cond, q.simm21)
  {
    BCondT1Fits(p);
    BCondT3Fits(q);
  }

  lemma ChoosesConditional(s: Spec)
    requires s.mnemonic == B && s.condition != 0 && One(s) && s.operands[0].SignedImm?
    ensures Chooses(s, AssembleB(s))
  {
    ConditionalNarrows(s);
    ConditionalWidens(s);
    ConditionalFits(
      BCondT1(s.condition - 1, ToPc(s.operands[0].simm)), BCondT3(s.condition - 1, ToPc(s.operands[0].simm)));
    PreferChooses(
      s,
      EncodeBCondT1(BCondT1(s.condition - 1, ToPc(s.operands[0].simm))),
      EncodeBCondT3(BCondT3(s.condition - 1, ToPc(s.operands[0].simm))));
  }

  lemma ChoosesB(s: Spec)
    requires s.mnemonic == B
    ensures Chooses(s, AssembleB(s))
  {
    if One(s) && s.operands[0].SignedImm? {
      if s.condition == 0 {
        ChoosesBranch(s, BT2(ToPc(s.operands[0].simm)), BT4(ToPc(s.operands[0].simm)));
      } else {
        ChoosesConditional(s);
      }
    }
  }

  lemma ChoosesBl(s: Spec)
    requires s.mnemonic == BL
    ensures Chooses(s, AssembleBl(s))
  {
    if One(s) && s.operands[0].SignedImm? {
      BlT1Fits(BlT1(ToPc(s.operands[0].simm)));
    }
  }

  lemma ChoosesBkpt(s: Spec)
    requires s.mnemonic == BKPT
    ensures Chooses(s, AssembleBkpt(s))
  {
    if One(s) && s.operands[0].Imm? {
      BkptT1Fits(BkptT1(s.operands[0].imm));
    }
  }

  lemma ChoosesSvc(s: Spec)
    requires s.mnemonic == SVC
    ensures Chooses(s, AssembleSvc(s))
  {
    if One(s) && s.operands[0].Imm? {
      SvcT1Fits(SvcT1(s.operands[0].imm));
    }
  }

  lemma ChoosesUdf(s: Spec)
    requires s.mnemonic == UDF
    ensures Chooses(s, AssembleUdf(s))
  {
    if One(s) && s.operands[0].Imm? {
      var p, q := UdfT1(s.operands[0].imm), UdfT2(s.operands[0].imm);
      UdfT1Fits(p);
      UdfT2Fits(q);
      PreferChooses(s, EncodeUdfT1(p), EncodeUdfT2(q));
    }
  }

  lemma RegisterChooses(s: Spec, e: Encoded16)
    requires (s.mnemonic == BX || s.mnemonic == BLX) && One(s) && s.operands[0].Reg?
    requires e.Some16? <==> s.operands[0].reg < 16
    ensures Chooses(s, if s.width == WIDE then InvalidWidth else Result16(e))
  {
  }

  lemma ChoosesBx(s: Spec)
    requires s.mnemonic == BX
    ensures Chooses(s, AssembleBx(s))
  {
    if One(s) && s.operands[0].Reg? {
      BxT1Fits(BxT1(s.operands[0].reg));
      RegisterChooses(s, EncodeBxT1(BxT1(s.operands[0].reg)));
    }
  }

  lemma ChoosesBlx(s: Spec)
    requires s.mnemonic == BLX
    ensures Chooses(s, AssembleBlx(s))
  {
    if One(s) && s.operands[0].Reg? {
      BlxT1Fits(BlxT1(s.operands[0].reg));
      RegisterChooses(s, EncodeBlxT1(BlxT1(s.operands[0].reg)));
    }
  }

  lemma CompareImmediate(s: Spec, p: CmpIT1)
    requires s.mnemonic == CMP && Two(s) && s.operands[0].Reg? && s.operands[1].Imm?
    requires p == CmpIT1(Byte(s.operands[0].reg), s.operands[1].imm)
    ensures Chooses(s, AssembleCmp(s))
  {
    CmpIT1Fits(p);
  }

  lemma CompareRegisters(s: Spec, p: CmpRT1, q: CmpRT2)
    requires s.mnemonic == CMP && Two(s) && s.operands[0].Reg? && s.operands[1].Reg?
    requires p == CmpRT1(Byte(s.operands[1].reg), Byte(s.operands[0].reg)) && q == CmpRT2(p.rn, p.rm)
    ensures Chooses(s, AssembleCmp(s))
  {
    CmpRT1Fits(p);
    CmpRT2Fits(q);
  }

  lemma ChoosesCmp(s: Spec)
    requires s.mnemonic == CMP
    ensures Chooses(s, AssembleCmp(s))
  {
    if Two(s) && s.operands[0].Reg? {
      var rn := Byte(s.operands[0].reg);
      match s.operands[1]
      case Imm(imm) => CompareImmediate(s, CmpIT1(rn, imm));
      case Reg(reg) => CompareRegisters(s, CmpRT1(Byte(reg), rn), CmpRT2(rn, Byte(reg)));
      case _ =>
    }
  }

  lemma ChoosesMovw(s: Spec)
    requires s.mnemonic == MOVW
    ensures Chooses(s, AssembleMovw(s))
  {
    MovwTakes(s);
  }

  lemma MovwTakes(s: Spec)
    ensures !AssembleMovw(s).NarrowSuccess?
    ensures AssembleMovw(s).WideSuccess? <==> s.width != NARROW && WideMove(s)
  {
    if Two(s) && s.operands[0].Reg? && s.operands[1].Imm? {
      MovwIT3Fits(MovwIT3(s.operands[0].reg, s.operands[1].imm));
    }
  }

  lemma MoveTaken(s: Spec)
    requires s.mnemonic == MOV && Two(s) && s.operands[0].Reg? && s.operands[1].Imm?
    ensures !Narrows(s) && (Widens(s) <==> WideMove(s))
  {
  }

  lemma WideMoveChooses(s: Spec)
    requires s.mnemonic == MOV && Two(s) && s.operands[0].Reg? && s.operands[1].Imm?
    ensures Chooses(s, AssembleMovw(s))
  {
    MovwTakes(s);
    MoveTaken(s);
  }

  lemma NotWideMove(s: Spec)
    requires s.mnemonic == MOV && Two(s) && s.operands[0].Reg? && s.operands[1].Imm?
    requires Byte(s.operands[0].reg) == 15 || Byte(s.operands[0].reg) == 13
    ensures Chooses(s, InvalidOperand)
  {
    NoWideRegister(s.operands[0].reg);
    MoveTaken(s);
  }

  lemma NoWideRegister(reg: bv32)
    requires Byte(reg) == 15 || Byte(reg) == 13
    ensures !(reg < 16 && reg != 13 && reg != 15)
  {
    if reg < 16 {
      SmallIsByte(reg);
    }
  }

  lemma MoveOfImmediate(s: Spec)
    requires s.mnemonic == MOV && Two(s) && s.operands[0].Reg? && s.operands[1].Imm?
    ensures Chooses(s, AssembleMov(s))
  {
    var rd := Byte(s.operands[0].reg);
    if rd == 15 || rd == 13 {
      NotWideMove(s);
      assert AssembleMov(s) == InvalidOperand;
    } else {
      WideMoveChooses(s);
      assert AssembleMov(s) == AssembleMovw(s);
    }
  }

  lemma MoveOfRegister(s: Spec, rd: bv32, rm: bv32, p: MovRT1, q: MovRT3)
    requires s.mnemonic == MOV && Two(s) && s.operands[0].Reg? && s.operands[1].Reg?
    requires rd == Byte(s.operands[0].reg) && rm == Byte(s.operands[1].reg)
    requires p == MovRT1(rm, rd) && q == MovRT3(rd, rm, 0)
    ensures Chooses(s, Prefer(s, EncodeMovRT1(p), IfWide(s, Result32(EncodeMovRT3(q)))))
  {
    MovRT1Fits(p);
    MovRT3Fits(q);
    PreferChooses(s, EncodeMovRT1(p), EncodeMovRT3(q));
  }

  lemma ChoosesMov(s: Spec)
    requires s.mnemonic == MOV
    ensures Chooses(s, AssembleMov(s))
  {
    if Two(s) && s.operands[0].Reg? {
      if s.operands[1].Imm? {
        MoveOfImmediate(s);
      } else if s.operands[1].Reg? {
        var rd, rm := Byte(s.operands[0].reg), Byte(s.operands[1].reg);
        MoveOfRegister(s, rd, rm, MovRT1(rm, rd), MovRT3(rd, rm, 0));
      }
    }
  }

  lemma FlagMoveImmediate(s: Spec, p: MovsIT1)
    requires s.mnemonic == MOVS && Two(s) && s.operands[0].Reg? && s.operands[1].Imm?
    requires p == MovsIT1(Byte(s.operands[0].reg), s.operands[1].imm)
    ensures Chooses(s, AssembleMovs(s))
  {
    MovsIT1Fits(p);
  }

  lemma FlagMoveRegister(s: Spec, p: MovsRT2, q: MovRT3)
    requires s.mnemonic == MOVS && Two(s) && s.operands[0].Reg? && s.operands[1].Reg?
    requires p == MovsRT2(Byte(s.operands[1].reg), Byte(s.operands[0].reg)) && q == MovRT3(p.rd, p.rm, 1)
    ensures Chooses(s, Prefer(s, EncodeMovsRT2(p), IfWide(s, Result32(EncodeMovRT3(q)))))
  {
    MovsRT2Fits(p);
    MovRT3Fits(q);
    PreferChooses(s, EncodeMovsRT2(p), EncodeMovRT3(q));
  }

  lemma ChoosesMovs(s: Spec)
    requires s.mnemonic == MOVS
    ensures Chooses(s, AssembleMovs(s))
  {
    if Two(s) && s.operands[0].Reg? {
      var rd := Byte(s.operands[0].reg);
      match s.operands[1]
      case Imm(imm) => FlagMoveImmediate(s, MovsIT1(rd, imm));
      case Reg(reg) => FlagMoveRegister(s, MovsRT2(Byte(reg), rd), MovRT3(rd, Byte(reg), 1));
      case _ =>
    }
  }

  // ---- Register lists

  lemma PopFields(list: bv16)
    ensures PopPartsOf(list).lr == 0 && PopPartsOf(list).regs < 0x100 <==> list & 0x7f00 == 0
    ensures PopPartsOf(list).regs < 0x2000 <==> list & 0x2000 == 0
    ensures PopPartsOf(list).lr < 2 && PopPartsOf(list).pc < 2
  {
  }

  lemma PushFields(list: bv16)
    ensures PushPartsOf(list).regs < 0x100 <==> list & 0xbf00 == 0
    ensures PushPartsOf(list).regs < 0x2000 <==> list & 0xa000 == 0
    ensures PushPartsOf(list).lr < 2
  {
  }

  lemma TopIsRegister(list: bv16)
    ensures TopBit(list) < 16
  {
  }

  lemma PopPartsChoose(s: Spec, count: nat, p: PopT2, rest: bv16)
    requires p.lr < 2 && p.pc < 2
    ensures
      var r := AssemblePopParts(s, count, p, rest);
      && (r.NarrowSuccess? <==> s.CanBeNarrow() && p.lr == 0 && p.regs < 0x100)
      && (r.WideSuccess? <==>
            s.CanBeWide() && (count == 1 || p.regs < 0x2000) && !(s.CanBeNarrow() && p.lr == 0 && p.regs < 0x100))
  {
    TopIsRegister(rest);
    PopT1Fits(PopT1(p.pc, p.regs));
    PopT2Fits(p);
    PopT3Fits(PopT3(if p.lr == 1 then 14 else if p.pc == 1 then 15 else TopBit(rest)));
  }

  lemma PushPartsChoose(s: Spec, count: nat, p: PushT2, rest: bv16)
    requires p.lr < 2
    ensures
      var r := AssemblePushParts(s, count, p, rest);
      && (r.NarrowSuccess? <==> s.CanBeNarrow() && p.regs < 0x100)
      && (r.WideSuccess? <==>
            s.CanBeWide() && (count == 1 || p.regs < 0x2000) && !(s.CanBeNarrow() && p.regs < 0x100))
  {
    TopIsRegister(rest);
    PushT1Fits(PushT1(p.lr, p.regs));
    PushT2Fits(p);
    PushT3Fits(PushT3(if p.lr == 1 then 14 else TopBit(rest)));
  }

  lemma PopTaken(s: Spec, list: bv16)
    requires s.mnemonic == POP && s.operands == [RegList(list)] && list != 0
    ensures Narrows(s) <==> list & 0x7f00 == 0
    ensures Widens(s) <==> list & 0x2000 == 0 || Single(list)
  {
  }

  lemma PushTaken(s: Spec, list: bv16)
    requires s.mnemonic == PUSH && s.operands == [RegList(list)] && list != 0
    ensures Narrows(s) <==> list & 0xbf00 == 0
    ensures Widens(s) <==> list & 0xa000 == 0 || Single(list)
  {
  }

  lemma NoListTaken(s: Spec)
    requires s.mnemonic == POP || s.mnemonic == PUSH
    requires ListAsked(s) ==> s.operands[0].reglist == 0
    ensures !Narrows(s) && !Widens(s)
  {
  }

  lemma ListNotAsked(s: Spec)
    requires s.mnemonic == POP || s.mnemonic == PUSH
    requires ListAsked(s) ==> s.operands[0].reglist == 0
    ensures Chooses(s, AssemblePop(s)) && Chooses(s, AssemblePush(s))
  {
    NoListTaken(s);
    if ListAsked(s) {
      CountOne(s.operands[0].reglist);
    }
    ListRefused(s);
  }

  predicate ByRange(s: Spec, r: AsmResult, narrow: bool, wide: bool) {
    && (r.NarrowSuccess? <==> s.CanBeNarrow() && narrow)
    && (r.WideSuccess? <==> s.CanBeWide() && wide && !(s.CanBeNarrow() && narrow))
  }

  lemma PopOfList(s: Spec, list: bv16)
    ensures ByRange(
      s, AssemblePopParts(s, CountRegisters(list), PopPartsOf(list), list & 0x3fff),
      list & 0x7f00 == 0, list & 0x2000 == 0 || Single(list))
  {
    CountOne(list);
    PopFields(list);
    PopPartsChoose(s, CountRegisters(list), PopPartsOf(list), list & 0x3fff);
  }

  lemma PushOfList(s: Spec, list: bv16)
    ensures ByRange(
      s, AssemblePushParts(s, CountRegisters(list), PushPartsOf(list), list & 0xbfff),
      list & 0xbf00 == 0, list & 0xa000 == 0 || Single(list))
  {
    CountOne(list);
    PushFields(list);
    PushPartsChoose(s, CountRegisters(list), PushPartsOf(list), list & 0xbfff);
  }

  lemma ChoosesPop(s: Spec)
    requires s.mnemonic == POP
    ensures Chooses(s, AssemblePop(s))
  {
    if ListAsked(s) && s.operands[0].reglist != 0 {
      var list := s.operands[0].reglist;
      PopByParts(s, list, CountRegisters(list));
      PopTaken(s, list);
      PopOfList(s, list);
    } else {
      ListNotAsked(s);
    }
  }

  lemma ChoosesPush(s: Spec)
    requires s.mnemonic == PUSH
    ensures Chooses(s, AssemblePush(s))
  {
    if ListAsked(s) && s.operands[0].reglist != 0 {
      var list := s.operands[0].reglist;
      PushByParts(s, list, CountRegisters(list));
      PushTaken(s, list);
      PushOfList(s, list);
    } else {
      ListNotAsked(s);
    }
  }

  // ---- Loads

  lemma RegisterLoadChooses(s: Spec, p: LdrRT1, q: LdrRT2Lsl)
    requires p == LdrRT1(q.rm, q.rn, q.rt)
    ensures
      var r := AssembleLdrRegister(s, q.rt, q.rn, q.rm, q.lslShiftImm2);
      var narrow := s.CanBeNarrow() && q.lslShiftImm2 == 0 && q.rt < 8 && q.rn < 8 && q.rm < 8;
      && (r.NarrowSuccess? <==> narrow)
      && (r.WideSuccess? <==> s.CanBeWide() && q.rt < 16 && q.rn < 16 && q.rm < 16 && q.lslShiftImm2 < 4 && !narrow)
  {
    LdrRT1Fits(p);
    LdrRT2LslFits(q);
  }

  lemma PreferTakes(s: Spec, narrow: Encoded16, wide: AsmResult)
    requires !wide.NarrowSuccess?
    ensures
      var r := Prefer(s, narrow, IfWide(s, wide));
      && (r.NarrowSuccess? <==> s.CanBeNarrow() && narrow.Some16?)
      && (r.WideSuccess? <==> s.CanBeWide() && wide.WideSuccess? && !(s.CanBeNarrow() && narrow.Some16?))
  {
  }

  lemma PlainWide(s: Spec, p: LdrIT3)
    requires s.mode == OFFSET && !Negative(p.imm12)
    ensures
      var r := Try32(EncodeLdrIT3(p), AssembleLdrSigned(s, p.rt, p.rn, p.imm12));
      !r.NarrowSuccess? && (r.WideSuccess? <==> EncodeLdrIT3(p).Some32?)
  {
    if EncodeLdrIT3(p).None32? {
      PlainOffsetTooFar(s, p.rt, p.rn, p.imm12);
    }
  }

  lemma PlainLoadChooses(s: Spec, rt: bv32, rn: bv32, offset: bv32)
    requires s.mode == OFFSET && !Negative(offset)
    ensures
      var r := AssembleLdrImmediate(s, rt, rn, offset);
      var narrow := s.CanBeNarrow() && EncodeLdrNarrow(rt, rn, offset).Some16?;
      && (r.NarrowSuccess? <==> narrow)
      && (r.WideSuccess? <==> s.CanBeWide() && EncodeLdrIT3(LdrIT3(rt, offset, rn)).Some32? && !narrow)
  {
    var p := LdrIT3(rt, offset, rn);
    PlainWide(s, p);
    PreferTakes(s, EncodeLdrNarrow(rt, rn, offset), Try32(EncodeLdrIT3(p), AssembleLdrSigned(s, rt, rn, offset)));
  }

  lemma LoadTaken(s: Spec, rt: bv32, rn: bv32, offset: bv32)
    requires LoadAsked(s, rt, rn, offset)
    ensures Narrows(s) <==> NearLoad(s.mode, rt, rn, offset)
    ensures Widens(s) <==> FarLoad(s.mode, rt, rn, offset)
  {
  }

  lemma PlainReach(rt: bv32, rn: bv32, offset: bv32)
    requires !Negative(offset)
    ensures EncodeLdrNarrow(rt, rn, offset).Some16? <==> NearLoad(OFFSET, rt, rn, offset)
    ensures EncodeLdrIT3(LdrIT3(rt, offset, rn)).Some32? <==> FarLoad(OFFSET, rt, rn, offset)
  {
    LdrNarrowFits(rt, rn, offset);
    LdrIT3Fits(LdrIT3(rt, offset, rn));
  }

  lemma PlainLoad(s: Spec, rt: bv32, rn: bv32, offset: bv32)
    requires LoadAsked(s, rt, rn, offset) && s.mode == OFFSET && !Negative(offset)
    ensures Chooses(s, AssembleLdrImmediate(s, rt, rn, offset))
  {
    LoadTaken(s, rt, rn, offset);
    PlainReach(rt, rn, offset);
    PlainLoadChooses(s, rt, rn, offset);
  }

  lemma LiteralReach(rt: bv32, offset: bv32)
    requires Negative(offset)
    ensures EncodeLdrLitT2(LdrLitT2(rt, Negated(offset), 0)).Some32? <==> FarLoad(OFFSET, rt, 15, offset)
  {
    LdrLitT2Fits(LdrLitT2(rt, Negated(offset), 0));
  }

  lemma IndexedReach(mode: AddressingMode, rt: bv32, rn: bv32, offset: bv32)
    requires mode != NONE && (mode != OFFSET || Negative(offset)) && !(mode == OFFSET && rn == 15)
    ensures EncodeLdrIT4(LdrSignedParts(mode, rt, rn, offset)).Some32? <==> FarLoad(mode, rt, rn, offset)
  {
    SignedPartsFit(mode, rt, rn, offset);
  }

  lemma SignedLoad(s: Spec, rt: bv32, rn: bv32, offset: bv32)
    requires LoadAsked(s, rt, rn, offset) && (s.mode != OFFSET || Negative(offset))
    ensures Chooses(s, IfWide(s, AssembleLdrSigned(s, rt, rn, offset)))
  {
    LoadTaken(s, rt, rn, offset);
    if s.mode == OFFSET && rn == 15 {
      LiteralOnly(s, rt, offset);
      LiteralReach(rt, offset);
    } else {
      SignedIsIndexed(s, rt, rn, offset);
      IndexedReach(s.mode, rt, rn, offset);
    }
  }

  lemma ChoosesLdrImmediate(s: Spec, rt: bv32, rn: bv32, offset: bv32)
    requires LoadAsked(s, rt, rn, offset)
    ensures Chooses(s, AssembleLdrImmediate(s, rt, rn, offset))
  {
    if s.mode == OFFSET && !Negative(offset) {
      PlainLoad(s, rt, rn, offset);
    } else {
      SignedLoad(s, rt, rn, offset);
      assert AssembleLdrImmediate(s, rt, rn, offset) == IfWide(s, AssembleLdrSigned(s, rt, rn, offset));
    }
  }

  lemma RegisterLoadTaken(s: Spec, rt: bv32, rn: bv32, rm: bv32, lsl: bv32)
    requires s.mnemonic == LDR && 3 <= |s.operands| <= 4 && s.mode == OFFSET
    requires s.operands[0].Reg? && s.operands[1].Reg? && s.operands[2].Reg?
    requires rt == Byte(s.operands[0].reg) && rn == Byte(s.operands[1].reg) && rm == Byte(s.operands[2].reg)
    requires |s.operands| == 4 ==> s.operands[3] == LslShift(lsl)
    requires |s.operands| == 3 ==> lsl == 0
    ensures Narrows(s) <==> lsl == 0 && rt < 8 && rn < 8 && rm < 8
    ensures Widens(s) <==> rt < 16 && rn < 16 && rm < 16 && lsl < 4
  {
  }

  lemma ChoosesLdrRegister(s: Spec, q: LdrRT2Lsl)
    requires s.mnemonic == LDR && 3 <= |s.operands| <= 4 && s.mode == OFFSET
    requires s.operands[0].Reg? && s.operands[1].Reg? && s.operands[2].Reg?
    requires q.rt == Byte(s.operands[0].reg) && q.rn == Byte(s.operands[1].reg) && q.rm == Byte(s.operands[2].reg)
    requires |s.operands| == 4 ==> s.operands[3] == LslShift(q.lslShiftImm2)
    requires |s.operands| == 3 ==> q.lslShiftImm2 == 0
    ensures Chooses(s, AssembleLdrRegister(s, q.rt, q.rn, q.rm, q.lslShiftImm2))
  {
    RegisterLoadTaken(s, q.rt, q.rn, q.rm, q.lslShiftImm2);
    RegisterLoadChooses(s, LdrRT1(q.rm, q.rn, q.rt), q);
  }

  predicate LoadShape(s: Spec) {
    && 3 <= |s.operands| <= 4 && s.mode != NONE && s.operands[0].Reg? && s.operands[1].Reg?
    && (|| (s.operands[2].Reg? && s.mode == OFFSET && (|s.operands| == 4 ==> s.operands[3].LslShift?))
        || (s.operands[2].SignedImm? && |s.operands| == 3))
  }

  lemma NoLoad(s: Spec)
    requires s.mnemonic == LDR && !LoadShape(s)
    ensures AssembleLdr(s) == InvalidOperand && !Narrows(s) && !Widens(s)
  {
  }

  lemma ChoosesLdr(s: Spec)
    requires s.mnemonic == LDR
    ensures Chooses(s, AssembleLdr(s))
  {
    if LoadShape(s) {
      var rt := Byte(s.operands[0].reg);
      var rn := Byte(s.operands[1].reg);
      if s.operands[2].Reg? {
        var lsl := if |s.operands| == 4 then s.operands[3].shift else 0;
        ChoosesLdrRegister(s, LdrRT2Lsl(rt, lsl, Byte(s.operands[2].reg), rn));
      } else {
        ChoosesLdrImmediate(s, rt, rn, s.operands[2].simm);
      }
    } else {
      NoLoad(s);
    }
  }

  // ---- The theorem

  /** An instruction assembles narrow if and only if that is allowed and has an encoding, and wide
      if and only if that is allowed and has one and narrow did not take it. */
  lemma Accepts(s: Spec)
    ensures Chooses(s, Assemble(s))
  {
    match s.mnemonic
    case UNKNOWN =>
    case ADD => ChoosesAdd(s);
    case ADDS => ChoosesAdds(s);
    case ADDW => ChoosesAddw(s);
    case B => ChoosesB(s);
    case BKPT => ChoosesBkpt(s);
    case BL => ChoosesBl(s);
    case BLX => ChoosesBlx(s);
    case BX => ChoosesBx(s);
    case CMP => ChoosesCmp(s);
    case LDR => ChoosesLdr(s);
    case NOP =>
    case MOV => ChoosesMov(s);
    case MOVS => ChoosesMovs(s);
    case MOVW => ChoosesMovw(s);
    case POP => ChoosesPop(s);
    case PUSH => ChoosesPush(s);
    case SUB => ChoosesSub(s);
    case SUBS => ChoosesSubs(s);
    case SUBW => ChoosesSub(s);
    case SVC => ChoosesSvc(s);
    case UDF => ChoosesUdf(s);
  }
}
