// What the disassembler makes of every word the assembler can emit.

module ReadBack {
  import opened T32Encoding
  import opened EncodingLaws
  import opened ThumbAsm
  import opened Disassembly

  /** A list of exactly one register. */
  predicate Single(regs: bv16) {
    regs != 0 && regs & (regs - 1) == 0
  }

  // ---- What is read back, mnemonic by mnemonic

  /** An operand as the assembler keeps it. */
  function Kept(o: Operand): Operand {
    if o.Reg? then Reg(Byte(o.reg)) else o
  }

  function Kept2(s: Spec, m: Mnemonic, w: Width): DisResult
    requires |s.operands| == 2
  {
    Plain(m, w, [Kept(s.operands[0]), Kept(s.operands[1])])
  }

  function Kept3(s: Spec, m: Mnemonic, w: Width): DisResult
    requires |s.operands| == 3
  {
    Plain(m, w, [Kept(s.operands[0]), Kept(s.operands[1]), Kept(s.operands[2])])
  }

  function ReadingOf(r: AsmResult): Reading {
    match r
    case NarrowSuccess(half) => Reading16(half)
    case WideSuccess(word) => Reading32(word)
    case _ => OtherWidth
  }

  predicate Reads(r: AsmResult, d: DisResult) {
    ReadingOf(r) == ReadAs(d)
  }

  lemma SmallIsByte(x: bv32)
    requires x < 16
    ensures Byte(x) == x
  {
  }

  lemma PcInverse(x: bv32)
    ensures ToPc(FromPc(x)) == x && FromPc(ToPc(x)) == x
  {
  }

  lemma NegatedTwice(x: bv32)
    ensures Negated(Negated(x)) == x
  {
  }

  lemma SignedBack(offset: bv32)
    ensures Signed(Negated(offset), 0) == SignedImm(offset) && Signed(offset, 1) == SignedImm(offset)
  {
    NegatedTwice(offset);
  }

  lemma SignedPartsBack(mode: AddressingMode, rt: bv32, rn: bv32, offset: bv32)
    requires mode != NONE
    ensures DisassembleLdrIT4(LdrSignedParts(mode, rt, rn, offset)) ==
      Loads(WIDE, mode, [Reg(rt), Reg(rn), SignedImm(offset)])
  {
    SignedBack(offset);
    if Negative(offset) {
    } else {
    }
  }

  lemma ReadsSubsImmediate(s: Spec, r: AsmResult)
    requires r == AssembleSubs(s) && r.Success() && |s.operands| == 3 && s.operands[2].Imm?
    ensures Reads(r, Kept3(s, SUBS, NARROW))
  {
    var rd := Byte(s.operands[0].reg);
    SubsIT1Law(SubsIT1(s.operands[2].imm, Byte(s.operands[1].reg), rd));
    SubsIT2Law(SubsIT2(rd, s.operands[2].imm));
    ChainSubs16(r.half);
  }

  lemma ReadsSubsRegister(s: Spec, r: AsmResult)
    requires r == AssembleSubs(s) && r.Success() && |s.operands| == 3 && !s.operands[2].Imm?
    ensures Reads(r, Kept3(s, SUBS, NARROW))
  {
    SubsRT1Law(SubsRT1(Byte(s.operands[2].reg), Byte(s.operands[1].reg), Byte(s.operands[0].reg)));
    ChainSubs16(r.half);
  }

  lemma ReadsSubs(s: Spec, r: AsmResult)
    requires r == AssembleSubs(s) && r.Success()
    ensures Reads(r, Kept3(s, SUBS, NARROW))
  {
    if s.operands[2].Imm? {
      ReadsSubsImmediate(s, r);
    } else {
      ReadsSubsRegister(s, r);
    }
  }

  lemma ReadsAddsImmediate(s: Spec, r: AsmResult)
    requires r == AssembleAdds(s) && r.Success() && |s.operands| == 3 && s.operands[2].Imm?
    ensures Reads(r, Kept3(s, ADDS, NARROW))
  {
    var rd := Byte(s.operands[0].reg);
    AddsIT1Law(AddsIT1(s.operands[2].imm, Byte(s.operands[1].reg), rd));
    AddsIT2Law(AddsIT2(rd, s.operands[2].imm));
    ChainAdds16(r.half);
  }

  lemma ReadsAddsRegister(s: Spec, r: AsmResult)
    requires r == AssembleAdds(s) && r.Success() && |s.operands| == 3 && !s.operands[2].Imm?
    ensures Reads(r, Kept3(s, ADDS, NARROW))
  {
    AddsRT1Law(AddsRT1(Byte(s.operands[2].reg), Byte(s.operands[1].reg), Byte(s.operands[0].reg)));
    ChainAdds16(r.half);
  }

  lemma ReadsAdds(s: Spec, r: AsmResult)
    requires r == AssembleAdds(s) && r.Success()
    ensures Reads(r, Kept3(s, ADDS, NARROW))
  {
    if s.operands[2].Imm? {
      ReadsAddsImmediate(s, r);
    } else {
      ReadsAddsRegister(s, r);
    }
  }

  lemma ReadsAddw(s: Spec, r: AsmResult)
    requires r == AssembleAddw(s) && r.Success()
    ensures Reads(r, Kept3(s, ADDW, WIDE))
  {
    AddwIT4Law(AddwIT4(Byte(s.operands[0].reg), Byte(s.operands[1].reg), s.operands[2].imm));
    ChainArith32(r.word);
  }

  lemma ReadsSubw(s: Spec, r: AsmResult)
    requires r == AssembleSubw(s) && r.Success()
    ensures Reads(r, Kept3(s, SUBW, WIDE))
  {
    SubwIT4Law(SubwIT4(Byte(s.operands[0].reg), Byte(s.operands[1].reg), s.operands[2].imm));
    ChainArith32(r.word);
  }

  lemma ReadsAdd(s: Spec, r: AsmResult)
    requires r == AssembleAdd(s) && r.Success()
    ensures Reads(r, if s.operands[2].Imm? then Kept3(s, ADDW, WIDE) else Kept3(s, ADD, NARROW))
  {
    if s.operands[2].Imm? {
      ReadsAddw(s, r);
    } else {
      AddRT2Law(AddRT2(Byte(s.operands[0].reg), Byte(s.operands[2].reg)));
      ChainAdds16(r.half);
    }
  }

  lemma ReadsCmp(s: Spec, r: AsmResult)
    requires r == AssembleCmp(s) && r.Success()
    ensures Reads(r, Kept2(s, CMP, NARROW))
  {
    var rn := Byte(s.operands[0].reg);
    if s.operands[1].Imm? {
      CmpIT1Law(CmpIT1(rn, s.operands[1].imm));
    } else {
      CmpRT1Law(CmpRT1(Byte(s.operands[1].reg), rn));
      CmpRT2Law(CmpRT2(rn, Byte(s.operands[1].reg)));
    }
    ChainMoves16(r.half);
  }

  lemma ReadsMov(s: Spec, r: AsmResult)
    requires r == AssembleMov(s) && r.Success()
    ensures Reads(r, if s.operands[1].Imm? then Plain(MOVW, WIDE, s.operands)
                     else Kept2(s, MOV, if r.NarrowSuccess? then NARROW else WIDE))
  {
    if s.operands[1].Imm? {
      ReadsMovw(s, r);
    } else {
      var rd := Byte(s.operands[0].reg);
      var rm := Byte(s.operands[1].reg);
      MovRT1Law(MovRT1(rm, rd));
      MovRT3Law(MovRT3(rd, rm, 0));
      if r.NarrowSuccess? { ChainMoves16(r.half); } else { ChainArith32(r.word); }
    }
  }

  lemma ReadsMovsImmediate(s: Spec, r: AsmResult)
    requires r == AssembleMovs(s) && r.Success() && |s.operands| == 2 && s.operands[1].Imm?
    ensures Reads(r, Kept2(s, MOVS, if r.NarrowSuccess? then NARROW else WIDE))
  {
    MovsIT1Law(MovsIT1(Byte(s.operands[0].reg), s.operands[1].imm));
    ChainMoves16(r.half);
  }

  lemma ReadsMovsRegister(s: Spec, r: AsmResult)
    requires r == AssembleMovs(s) && r.Success() && |s.operands| == 2 && !s.operands[1].Imm?
    ensures Reads(r, Kept2(s, MOVS, if r.NarrowSuccess? then NARROW else WIDE))
  {
    var rd, rm := Byte(s.operands[0].reg), Byte(s.operands[1].reg);
    if r.NarrowSuccess? {
      MovsRT2Law(MovsRT2(rm, rd));
      ChainMoves16(r.half);
    } else {
      MovRT3Law(MovRT3(rd, rm, 1));
      ChainArith32(r.word);
    }
  }

  lemma ReadsMovs(s: Spec, r: AsmResult)
    requires r == AssembleMovs(s) && r.Success()
    ensures Reads(r, Kept2(s, MOVS, if r.NarrowSuccess? then NARROW else WIDE))
  {
    if s.operands[1].Imm? {
      ReadsMovsImmediate(s, r);
    } else {
      ReadsMovsRegister(s, r);
    }
  }

  lemma ReadsMovw(s: Spec, r: AsmResult)
    requires r == AssembleMovw(s) && r.Success()
    ensures Reads(r, Plain(MOVW, WIDE, s.operands))
  {
    MovwIT3Law(MovwIT3(s.operands[0].reg, s.operands[1].imm));
    ChainArith32(r.word);
    assert s.operands == [Reg(s.operands[0].reg), Imm(s.operands[1].imm)];
  }

  lemma ReadsUdf(s: Spec, r: AsmResult)
    requires r == AssembleUdf(s) && r.Success()
    ensures Reads(r, Plain(UDF, if r.NarrowSuccess? then NARROW else WIDE, s.operands))
  {
    UdfT1Law(UdfT1(s.operands[0].imm));
    UdfT2Law(UdfT2(s.operands[0].imm));
    if r.NarrowSuccess? { ChainBranches16(r.half); } else { ChainArith32(r.word); }
    assert s.operands == [Imm(s.operands[0].imm)];
  }

  lemma ReadsBkpt(s: Spec, r: AsmResult)
    requires r == AssembleBkpt(s) && r.Success()
    ensures Reads(r, Plain(BKPT, NARROW, s.operands))
  {
    BkptT1Law(BkptT1(s.operands[0].imm));
    ChainBranches16(r.half);
    assert s.operands == [Imm(s.operands[0].imm)];
  }

  lemma ReadsSvc(s: Spec, r: AsmResult)
    requires r == AssembleSvc(s) && r.Success()
    ensures Reads(r, Plain(SVC, NARROW, s.operands))
  {
    SvcT1Law(SvcT1(s.operands[0].imm));
    ChainBranches16(r.half);
    assert s.operands == [Imm(s.operands[0].imm)];
  }

  lemma ReadsBx(s: Spec, r: AsmResult)
    requires r == AssembleBx(s) && r.Success()
    ensures Reads(r, Plain(BX, NARROW, s.operands))
  {
    BxT1Law(BxT1(s.operands[0].reg));
    ChainBranches16(r.half);
    assert s.operands == [Reg(s.operands[0].reg)];
  }

  lemma ReadsBlx(s: Spec, r: AsmResult)
    requires r == AssembleBlx(s) && r.Success()
    ensures Reads(r, Plain(BLX, NARROW, s.operands))
  {
    BlxT1Law(BlxT1(s.operands[0].reg));
    ChainBranches16(r.half);
    assert s.operands == [Reg(s.operands[0].reg)];
  }

  lemma ReadsNop(s: Spec, r: AsmResult)
    requires r == AssembleNop(s) && r.Success()
    ensures Reads(r, Plain(NOP, if r.NarrowSuccess? then NARROW else WIDE, []))
  {
    if r.NarrowSuccess? { ChainMoves16(r.half); } else { ChainArith32(r.word); }
  }

  lemma BT4Reads(p: BT4, w: bv32)
    requires EncodeBT4(p) == Some32(w)
    ensures Reads32(w, Branches(B, WIDE, Wrap25(p.simm25)))
  {
    BT4Law(p);
    ChainBT4(w);
  }

  lemma BlT1Reads(p: BlT1, w: bv32)
    requires EncodeBlT1(p) == Some32(w)
    ensures Reads32(w, Branches(BL, WIDE, Wrap25(p.simm25)))
  {
    BlT1Law(p);
    ChainBlT1(w);
  }

  lemma BT2Reads(p: BT2, w: bv16)
    requires EncodeBT2(p) == Some16(w)
    ensures Reads16(w, Branches(B, NARROW, Wrap12(p.simm11)))
  {
    BT2Law(p);
    ChainBT2(w);
  }

  lemma BCondT1Reads(p: BCondT1, w: bv16)
    requires EncodeBCondT1(p) == Some16(w)
    ensures p.cond < 14 ==> Reads16(w, Conditional(p.cond, NARROW, Wrap9(p.simm8)))
    ensures p.cond == 14 ==> Reads16(w, Plain(UDF, NARROW, [Imm(DecodeUdfT1(w).imm8)]))
    ensures p.cond == 15 ==> Reads16(w, Plain(SVC, NARROW, [Imm(DecodeSvcT1(w).imm8)]))
  {
    BCondT1Law(p);
    ChainBCondT1(w);
    ChainBranches16(w);
  }

  lemma BCondT3Reads(p: BCondT3, w: bv32)
    requires EncodeBCondT3(p) == Some32(w)
    ensures
      if p.cond == 14 && Wrap21(p.simm21) == 0x2f000 then Reads32(w, Plain(NOP, WIDE, []))
      else if p.cond == 15 && p.simm21 & 0x17_0000 == 0x17_0000 then
        Reads32(w, Plain(UDF, WIDE, [Imm(DecodeUdfT2(w).imm16)]))
      else Reads32(w, Conditional(p.cond, WIDE, Wrap21(p.simm21)))
  {
    BCondT3Law(p);
    BCondT3Collisions(p);
    if MatchUdfT2(w) || MatchNopT2(w) {
      ChainArith32(w);
    } else {
      ChainBCondT3(w);
    }
  }

  /** Where the wide conditional branch collides with UDF and NOP. */
  lemma BCondT3Collisions(p: BCondT3)
    requires EncodeBCondT3(p).Some32?
    ensures MatchNopT2(EncodeBCondT3(p).word) <==> p.cond == 14 && Wrap21(p.simm21) == 0x2f000
    ensures MatchUdfT2(EncodeBCondT3(p).word) <==> p.cond == 15 && p.simm21 & 0x17_0000 == 0x17_0000
  {
  }

  lemma ReadsBl(s: Spec, r: AsmResult)
    requires r == AssembleBl(s) && r.Success()
    ensures Reads(r, Branches(BL, WIDE, Wrap25(ToPc(s.operands[0].simm))))
  {
    BlT1Reads(BlT1(ToPc(s.operands[0].simm)), r.word);
  }

  // Clearing the lowest register of a list takes one from its count.

  function Lowest(list: bv16, register: bv16): nat {
    if list & register != 0 && list & (register - 1) == 0 then 1 else 0
  }

  lemma ClearLowest(list: bv16, register: bv16)
    requires register != 0 && register & (register - 1) == 0
    ensures Has(list, register) == Has(list & (list - 1), register) + Lowest(list, register)
  {
  }

  lemma OneLowest(list: bv16)
    requires list != 0
    ensures
      Lowest(list, 1) + Lowest(list, 2) + Lowest(list, 4) + Lowest(list, 8) +
      Lowest(list, 0x10) + Lowest(list, 0x20) + Lowest(list, 0x40) + Lowest(list, 0x80) +
      Lowest(list, 0x100) + Lowest(list, 0x200) + Lowest(list, 0x400) + Lowest(list, 0x800) +
      Lowest(list, 0x1000) + Lowest(list, 0x2000) + Lowest(list, 0x4000) + Lowest(list, 0x8000) == 1
  {
    if list & 1 != 0 {} else if list & 2 != 0 {} else if list & 4 != 0 {} else if list & 8 != 0 {}
    else if list & 0x10 != 0 {} else if list & 0x20 != 0 {} else if list & 0x40 != 0 {}
    else if list & 0x80 != 0 {} else if list & 0x100 != 0 {} else if list & 0x200 != 0 {}
    else if list & 0x400 != 0 {} else if list & 0x800 != 0 {} else if list & 0x1000 != 0 {}
    else if list & 0x2000 != 0 {} else if list & 0x4000 != 0 {} else {}
  }

  lemma CountStep(list: bv16)
    requires list != 0
    ensures CountRegisters(list) == CountRegisters(list & (list - 1)) + 1
  {
    OneLowest(list);
    ClearLowest(list, 1); ClearLowest(list, 2); ClearLowest(list, 4); ClearLowest(list, 8);
    ClearLowest(list, 0x10); ClearLowest(list, 0x20); ClearLowest(list, 0x40); ClearLowest(list, 0x80);
    ClearLowest(list, 0x100); ClearLowest(list, 0x200); ClearLowest(list, 0x400); ClearLowest(list, 0x800);
    ClearLowest(list, 0x1000); ClearLowest(list, 0x2000); ClearLowest(list, 0x4000); ClearLowest(list, 0x8000);
  }

  lemma CountZero(list: bv16)
    ensures CountRegisters(list) == 0 <==> list == 0
  {
    if list != 0 {
      CountStep(list);
    }
  }

  lemma CountOne(list: bv16)
    ensures CountRegisters(list) == 0 <==> list == 0
    ensures CountRegisters(list) == 1 <==> Single(list)
  {
    CountZero(list);
    if list != 0 {
      CountStep(list);
      CountZero(list & (list - 1));
    }
  }

  lemma SingleTop(list: bv16)
    requires Single(list)
    ensures OneHot(TopBit(list)) == list
    ensures TopBit(list) < 16
    ensures TopBit(list) == 14 <==> list & 0x4000 != 0
    ensures TopBit(list) == 15 <==> list & 0x8000 != 0
    ensures list & 0xc000 == 0 ==> TopBit(list & 0x3fff) == TopBit(list)
    ensures list & 0x4000 == 0 ==> TopBit(list & 0xbfff) == TopBit(list)
  {
  }

  lemma PopSplit(list: bv16)
    ensures Low16(Wide(list & 0x3fff) | (Wide((list >> 14) & 1) << 14) | (Wide(list >> 15) << 15)) == list
    ensures Wide((list >> 14) & 1) == 0 ==> Low16(Wide(list & 0x3fff) | (Wide(list >> 15) << 15)) == list
  {
  }

  lemma PushSplit(list: bv16)
    ensures Low16(Wide(list & 0xbfff) | (Wide((list >> 14) & 1) << 14)) == list
  {
  }

  lemma PopT1Reads(p: PopT1, w: bv16)
    requires EncodePopT1(p) == Some16(w)
    ensures Reads16(w, Lists(POP, NARROW, Low16(p.regs | (p.pc << 15))))
  {
    PopT1Law(p);
    ChainLoads16(w);
  }

  lemma PopT2Reads(p: PopT2, w: bv32)
    requires EncodePopT2(p) == Some32(w)
    ensures Reads32(w, Lists(POP, WIDE, Low16(p.regs | (p.lr << 14) | (p.pc << 15))))
  {
    PopT2Law(p);
    ChainPopT2(w);
  }

  lemma PopT3Reads(p: PopT3, w: bv32)
    requires EncodePopT3(p) == Some32(w)
    ensures Reads32(w, Loads(WIDE, POSTINDEX, [Reg(p.rt), Reg(13), Signed(4, 1)]))
  {
    PopT3Law(p);
    ChainLoads32(w);
  }

  lemma PushT1Reads(p: PushT1, w: bv16)
    requires EncodePushT1(p) == Some16(w)
    ensures Reads16(w, Lists(PUSH, NARROW, Low16(p.regs | (p.lr << 14))))
  {
    PushT1Law(p);
    ChainLoads16(w);
  }

  lemma PushT2Reads(p: PushT2, w: bv32)
    requires EncodePushT2(p) == Some32(w)
    ensures Reads32(w, Lists(PUSH, WIDE, Low16(p.regs | (p.lr << 14))))
  {
    PushT2Law(p);
    ChainPushT2(w);
  }

  lemma PushT3Reads(p: PushT3, w: bv32)
    requires EncodePushT3(p) == Some32(w)
    ensures Reads32(w, Lists(PUSH, WIDE, OneHot(p.rt)))
  {
    PushT3Law(p);
    ChainPushT3(w);
  }

  lemma PreferPicks(s: Spec, narrow: Encoded16, wide: AsmResult)
    requires !wide.NarrowSuccess?
    ensures
      var r := Prefer(s, narrow, IfWide(s, wide));
      && (r.NarrowSuccess? ==> s.CanBeNarrow() && narrow == Some16(r.half))
      && (r.WideSuccess? ==> r == wide && (s.CanBeNarrow() ==> narrow.None16?))
  {
  }

  predicate ListAsked(s: Spec) {
    |s.operands| == 1 && s.operands[0].RegList?
  }

  lemma PopByParts(s: Spec, list: bv16, count: nat)
    requires s.operands == [RegList(list)] && count == CountRegisters(list) && count != 0
    ensures AssemblePop(s) == AssemblePopParts(s, count, PopPartsOf(list), list & 0x3fff)
  {
  }

  lemma PushByParts(s: Spec, list: bv16, count: nat)
    requires s.operands == [RegList(list)] && count == CountRegisters(list) && count != 0
    ensures AssemblePush(s) == AssemblePushParts(s, count, PushPartsOf(list), list & 0xbfff)
  {
  }

  lemma ListRefused(s: Spec)
    requires ListAsked(s) ==> CountRegisters(s.operands[0].reglist) == 0
    ensures AssemblePop(s) == InvalidOperand && AssemblePush(s) == InvalidOperand
  {
    if ListAsked(s) {
      var count := CountRegisters(s.operands[0].reglist);
      assert count == 0;
    }
  }

  lemma PopNarrow(s: Spec, list: bv16, r: AsmResult)
    requires r == AssemblePop(s) && r.NarrowSuccess? && s.operands[0] == RegList(list)
    ensures EncodePopT1(PopT1(Wide(list >> 15), Wide(list & 0x3fff))) == Some16(r.half)
  {
  }

  lemma ReadsPopNarrow(s: Spec, r: AsmResult)
    requires r == AssemblePop(s) && r.NarrowSuccess?
    ensures Reads16(r.half, Lists(POP, NARROW, s.operands[0].reglist))
  {
    var list := s.operands[0].reglist;
    PopNarrow(s, list, r);
    PopSplit(list);
    PopT1Reads(PopT1(Wide(list >> 15), Wide(list & 0x3fff)), r.half);
  }

  lemma ReadsPopOne(s: Spec, r: AsmResult)
    requires r == AssemblePop(s) && r.WideSuccess? && Single(s.operands[0].reglist)
    ensures
      var list := s.operands[0].reglist;
      Reads32(r.word, Loads(WIDE, POSTINDEX, [Reg(TopBit(list)), Reg(13), Signed(4, 1)]))
  {
    var list := s.operands[0].reglist;
    CountOne(list);
    SingleTop(list);
    PopT3Reads(PopT3(TopBit(list)), r.word);
  }

  lemma PopMany(s: Spec, list: bv16, r: AsmResult)
    requires r == AssemblePop(s) && r.WideSuccess? && s.operands[0] == RegList(list) && !Single(list)
    ensures EncodePopT2(PopT2(Wide(list >> 15), Wide((list >> 14) & 1), Wide(list & 0x3fff))) == Some32(r.word)
  {
    CountOne(list);
  }

  lemma ReadsPopMany(s: Spec, r: AsmResult)
    requires r == AssemblePop(s) && r.WideSuccess? && !Single(s.operands[0].reglist)
    ensures Reads32(r.word, Lists(POP, WIDE, s.operands[0].reglist))
  {
    var list := s.operands[0].reglist;
    PopMany(s, list, r);
    PopSplit(list);
    PopT2Reads(PopT2(Wide(list >> 15), Wide((list >> 14) & 1), Wide(list & 0x3fff)), r.word);
  }

  lemma PushNarrow(s: Spec, list: bv16, r: AsmResult)
    requires r == AssemblePush(s) && r.NarrowSuccess? && s.operands[0] == RegList(list)
    ensures EncodePushT1(PushT1(Wide((list >> 14) & 1), Wide(list & 0xbfff))) == Some16(r.half)
  {
  }

  lemma ReadsPushNarrow(s: Spec, r: AsmResult)
    requires r == AssemblePush(s) && r.NarrowSuccess?
    ensures Reads16(r.half, Lists(PUSH, NARROW, s.operands[0].reglist))
  {
    var list := s.operands[0].reglist;
    PushNarrow(s, list, r);
    PushSplit(list);
    PushT1Reads(PushT1(Wide((list >> 14) & 1), Wide(list & 0xbfff)), r.half);
  }

  lemma ReadsPushOne(s: Spec, r: AsmResult)
    requires r == AssemblePush(s) && r.WideSuccess? && Single(s.operands[0].reglist)
    ensures Reads32(r.word, Lists(PUSH, WIDE, s.operands[0].reglist))
  {
    var list := s.operands[0].reglist;
    CountOne(list);
    SingleTop(list);
    PushT3Reads(PushT3(TopBit(list)), r.word);
  }

  lemma PushMany(s: Spec, list: bv16, r: AsmResult)
    requires r == AssemblePush(s) && r.WideSuccess? && s.operands[0] == RegList(list) && !Single(list)
    ensures EncodePushT2(PushT2(Wide((list >> 14) & 1), Wide(list & 0xbfff))) == Some32(r.word)
  {
    CountOne(list);
  }

  lemma ReadsPushMany(s: Spec, r: AsmResult)
    requires r == AssemblePush(s) && r.WideSuccess? && !Single(s.operands[0].reglist)
    ensures Reads32(r.word, Lists(PUSH, WIDE, s.operands[0].reglist))
  {
    var list := s.operands[0].reglist;
    PushMany(s, list, r);
    PushSplit(list);
    PushT2Reads(PushT2(Wide((list >> 14) & 1), Wide(list & 0xbfff)), r.word);
  }

  lemma PicksBranch(s: Spec, p: BT2, q: BT4, r: AsmResult)
    requires r == AssembleBranch(s, p, q)
    ensures r.NarrowSuccess? ==> s.CanBeNarrow() && EncodeBT2(p) == Some16(r.half)
    ensures r.WideSuccess? ==> EncodeBT4(q) == Some32(r.word) && (s.CanBeNarrow() ==> EncodeBT2(p).None16?)
  {
    PreferPicks(s, EncodeBT2(p), Result32(EncodeBT4(q)));
  }

  lemma BranchWidth(s: Spec, p: BT2, q: BT4, r: AsmResult)
    requires r == AssembleBranch(s, p, q) && r.Success() && p.simm11 == q.simm25
    ensures r.NarrowSuccess? <==> s.CanBeNarrow() && Within(p.simm11, 0x1000)
  {
    PicksBranch(s, p, q, r);
    BT2Fits(p);
    BT4Fits(q);
  }

  lemma PicksConditional(s: Spec, p: BCondT1, q: BCondT3, r: AsmResult)
    requires r == AssembleConditional(s, p, q)
    ensures r.NarrowSuccess? ==> s.CanBeNarrow() && EncodeBCondT1(p) == Some16(r.half)
    ensures r.WideSuccess? ==> EncodeBCondT3(q) == Some32(r.word) && (s.CanBeNarrow() ==> EncodeBCondT1(p).None16?)
  {
    PreferPicks(s, EncodeBCondT1(p), Result32(EncodeBCondT3(q)));
  }

  lemma ConditionalWidth(s: Spec, p: BCondT1, q: BCondT3, r: AsmResult)
    requires r == AssembleConditional(s, p, q) && r.Success() && p.simm8 == q.simm21 && p.cond == q.cond
    ensures p.cond < 16
    ensures r.NarrowSuccess? <==> s.CanBeNarrow() && Within(p.simm8, 0x200)
  {
    PicksConditional(s, p, q, r);
    BCondT1Fits(p);
    BCondT3Fits(q);
  }

  lemma ReadsBranch(s: Spec, p: BT2, q: BT4, r: AsmResult)
    requires r == AssembleBranch(s, p, q)
    ensures r.NarrowSuccess? ==> Reads(r, Branches(B, NARROW, Wrap12(p.simm11)))
    ensures r.WideSuccess? ==> Reads(r, Branches(B, WIDE, Wrap25(q.simm25)))
  {
    PicksBranch(s, p, q, r);
    if r.NarrowSuccess? {
      BT2Reads(p, r.half);
    } else if r.WideSuccess? {
      BT4Reads(q, r.word);
    }
  }

  lemma ReadsConditionalNarrow(s: Spec, p: BCondT1, q: BCondT3, r: AsmResult)
    requires r == AssembleConditional(s, p, q) && r.NarrowSuccess?
    ensures p.cond < 14 ==> Reads(r, Conditional(p.cond, NARROW, Wrap9(p.simm8)))
    ensures p.cond == 14 ==> exists imm :: Reads(r, Plain(UDF, NARROW, [Imm(imm)]))
    ensures p.cond == 15 ==> exists imm :: Reads(r, Plain(SVC, NARROW, [Imm(imm)]))
  {
    PicksConditional(s, p, q, r);
    BCondT1Reads(p, r.half);
  }

  lemma ReadsConditionalWide(s: Spec, p: BCondT1, q: BCondT3, r: AsmResult)
    requires r == AssembleConditional(s, p, q) && r.WideSuccess?
    ensures
      if q.cond == 14 && Wrap21(q.simm21) == 0x2f000 then Reads(r, Plain(NOP, WIDE, []))
      else if q.cond == 15 && q.simm21 & 0x17_0000 == 0x17_0000 then
        exists imm :: Reads(r, Plain(UDF, WIDE, [Imm(imm)]))
      else Reads(r, Conditional(q.cond, WIDE, Wrap21(q.simm21)))
  {
    PicksConditional(s, p, q, r);
    BCondT3Reads(q, r.word);
  }

  // ---- Loads

  lemma PicksLdrRegister(s: Spec, p: LdrRT1, q: LdrRT2Lsl, r: AsmResult)
    requires p.rt == q.rt && p.rn == q.rn && p.rm == q.rm
    requires r == AssembleLdrRegister(s, q.rt, q.rn, q.rm, q.lslShiftImm2) && r.Success()
    ensures r.NarrowSuccess? ==> q.lslShiftImm2 == 0 && EncodeLdrRT1(p) == Some16(r.half)
    ensures r.WideSuccess? ==> EncodeLdrRT2Lsl(q) == Some32(r.word)
  {
    PreferPicks(s, EncodeLdrRT1(p), Result32(EncodeLdrRT2Lsl(q)));
  }

  /** Only a load from PC itself tries the literal encoding first. */
  lemma SignedIsIndexed(s: Spec, rt: bv32, rn: bv32, offset: bv32)
    requires !(s.mode == OFFSET && rn == 15)
    ensures AssembleLdrSigned(s, rt, rn, offset) == Result32(EncodeLdrIT4(LdrSignedParts(s.mode, rt, rn, offset)))
  {
  }

  lemma SignedIsLiteral(s: Spec, rt: bv32, offset: bv32)
    requires s.mode == OFFSET && Negative(offset)
    ensures AssembleLdrSigned(s, rt, 15, offset) ==
      Try32(EncodeLdrLitT2(LdrLitT2(rt, Negated(offset), 0)),
            Result32(EncodeLdrIT4(LdrSignedParts(OFFSET, rt, 15, offset))))
  {
  }

  /** The parts of T4, with what they keep of the offset. */
  predicate PartsAre(
    q: LdrIT4, mode: AddressingMode, rt: bv32, rn: bv32, negative: bool, magnitude: bv32)
  {
    match mode
    case PREINDEX => q == LdrIT4(rt, 1, if negative then 0 else 1, 1, magnitude, rn)
    case POSTINDEX => q == LdrIT4(rt, 0, if negative then 0 else 1, 1, magnitude, rn)
    case _ => q == LdrIT4(rt, 1, if negative then 0 else 1, 0, magnitude, rn)
  }

  lemma SignedPartsAre(mode: AddressingMode, rt: bv32, rn: bv32, offset: bv32)
    ensures PartsAre(LdrSignedParts(mode, rt, rn, offset), mode, rt, rn, Negative(offset), Magnitude(offset))
  {
  }

  lemma PreindexedPartsFit(q: LdrIT4, rt: bv32, rn: bv32, negative: bool, magnitude: bv32)
    requires q == LdrIT4(rt, 1, if negative then 0 else 1, 1, magnitude, rn)
    ensures EncodeLdrIT4(q).Some32? <==> rt < 16 && rn < 16 && magnitude < 0x100
  {
  }

  lemma PostindexedPartsFit(q: LdrIT4, rt: bv32, rn: bv32, negative: bool, magnitude: bv32)
    requires q == LdrIT4(rt, 0, if negative then 0 else 1, 1, magnitude, rn)
    ensures EncodeLdrIT4(q).Some32? <==> rt < 16 && rn < 16 && magnitude < 0x100
  {
  }

  lemma OffsetPartsFit(q: LdrIT4, rt: bv32, rn: bv32, negative: bool, magnitude: bv32)
    requires q == LdrIT4(rt, 1, if negative then 0 else 1, 0, magnitude, rn)
    ensures EncodeLdrIT4(q).Some32? <==> rt < 16 && rn < 16 && magnitude < 0x100
  {
  }

  lemma PartsFit(q: LdrIT4, mode: AddressingMode, rt: bv32, rn: bv32, negative: bool, magnitude: bv32)
    requires PartsAre(q, mode, rt, rn, negative, magnitude)
    ensures EncodeLdrIT4(q).Some32? <==> rt < 16 && rn < 16 && magnitude < 0x100
  {
    match mode
    case PREINDEX => PreindexedPartsFit(q, rt, rn, negative, magnitude);
    case POSTINDEX => PostindexedPartsFit(q, rt, rn, negative, magnitude);
    case _ => OffsetPartsFit(q, rt, rn, negative, magnitude);
  }

  lemma SignedPartsFit(mode: AddressingMode, rt: bv32, rn: bv32, offset: bv32)
    ensures EncodeLdrIT4(LdrSignedParts(mode, rt, rn, offset)).Some32? <==>
      rt < 16 && rn < 16 && Magnitude(offset) < 0x100
  {
    SignedPartsAre(mode, rt, rn, offset);
    PartsFit(LdrSignedParts(mode, rt, rn, offset), mode, rt, rn, Negative(offset), Magnitude(offset));
  }

  /** T4 does not hold a negative offset from PC that the literal T2 does not. */
  lemma LiteralFirst(rt: bv32, offset: bv32)
    requires Negative(offset)
    ensures EncodeLdrIT4(LdrSignedParts(OFFSET, rt, 15, offset)).Some32? ==>
      EncodeLdrLitT2(LdrLitT2(rt, Negated(offset), 0)).Some32?
  {
    LdrLitT2Fits(LdrLitT2(rt, Negated(offset), 0));
    SignedPartsFit(OFFSET, rt, 15, offset);
  }

  lemma TriedFirst(first: Encoded32, second: Encoded32)
    requires second.Some32? ==> first.Some32?
    ensures Try32(first, Result32(second)) == Result32(first)
  {
  }

  /** The literal T2 is all that a negative offset from PC gets. */
  lemma LiteralOnly(s: Spec, rt: bv32, offset: bv32)
    requires s.mode == OFFSET && Negative(offset)
    ensures AssembleLdrSigned(s, rt, 15, offset) == Result32(EncodeLdrLitT2(LdrLitT2(rt, Negated(offset), 0)))
  {
    SignedIsLiteral(s, rt, offset);
    LiteralFirst(rt, offset);
    TriedFirst(
      EncodeLdrLitT2(LdrLitT2(rt, Negated(offset), 0)), EncodeLdrIT4(LdrSignedParts(OFFSET, rt, 15, offset)));
  }

  /** A plain offset that T3 cannot hold, no encoding can. */
  lemma PlainOffsetTooFar(s: Spec, rt: bv32, rn: bv32, offset: bv32)
    requires s.mode == OFFSET && !Negative(offset)
    requires EncodeLdrIT3(LdrIT3(rt, offset, rn)).None32?
    ensures AssembleLdrSigned(s, rt, rn, offset) == InvalidOperand
  {
    LdrIT3Fits(LdrIT3(rt, offset, rn));
    LdrLitT2Fits(LdrLitT2(rt, offset, 1));
    LdrIT4Fits(LdrSignedParts(s.mode, rt, rn, offset));
  }

  lemma PicksLdrPlain(s: Spec, rt: bv32, rn: bv32, offset: bv32, r: AsmResult)
    requires s.mode == OFFSET && !Negative(offset)
    requires r == AssembleLdrImmediate(s, rt, rn, offset) && r.Success()
    ensures r.NarrowSuccess? ==> s.CanBeNarrow() && EncodeLdrNarrow(rt, rn, offset) == Some16(r.half)
    ensures r.WideSuccess? ==>
      && EncodeLdrIT3(LdrIT3(rt, offset, rn)) == Some32(r.word)
      && (s.CanBeNarrow() ==> EncodeLdrNarrow(rt, rn, offset).None16?)
  {
    var t3 := EncodeLdrIT3(LdrIT3(rt, offset, rn));
    if t3.None32? {
      PlainOffsetTooFar(s, rt, rn, offset);
    }
    PreferPicks(s, EncodeLdrNarrow(rt, rn, offset), Try32(t3, AssembleLdrSigned(s, rt, rn, offset)));
  }

  /** The general narrow encoding has no room for SP or PC. */
  lemma PicksLdrNarrow(rt: bv32, rn: bv32, offset: bv32)
    ensures EncodeLdrNarrow(rt, rn, offset) ==
      if rn == 13 then EncodeLdrIT2Sp(LdrIT2Sp(rt, offset))
      else if rn == 15 then EncodeLdrLitT1(LdrLitT1(rt, offset))
      else EncodeLdrIT1(LdrIT1(rt, rn, offset))
  {
    LdrIT1Fits(LdrIT1(rt, rn, offset));
  }

  lemma LdrRT1Reads(p: LdrRT1, w: bv16)
    requires EncodeLdrRT1(p) == Some16(w)
    ensures Reads16(w, Loads(NARROW, OFFSET, [Reg(p.rt), Reg(p.rn), Reg(p.rm)]))
  {
    LdrRT1Law(p);
    ChainLoads16(w);
  }

  lemma LdrIT1Reads(p: LdrIT1, w: bv16)
    requires EncodeLdrIT1(p) == Some16(w)
    ensures Reads16(w, Loads(NARROW, OFFSET, [Reg(p.rt), Reg(p.rn), Imm(p.imm7 & 0x7f)]))
  {
    LdrIT1Law(p);
    ChainLoads16(w);
  }

  lemma LdrIT2SpReads(p: LdrIT2Sp, w: bv16)
    requires EncodeLdrIT2Sp(p) == Some16(w)
    ensures Reads16(w, Loads(NARROW, OFFSET, [Reg(p.rt), Reg(13), Imm(p.imm10 & 0x3ff)]))
  {
    LdrIT2SpLaw(p);
    ChainLoads16(w);
  }

  lemma LdrLitT1Reads(p: LdrLitT1, w: bv16)
    requires EncodeLdrLitT1(p) == Some16(w)
    ensures Reads16(w, Loads(NARROW, OFFSET, [Reg(p.rt), Reg(15), Imm(p.imm10 & 0x3ff)]))
  {
    LdrLitT1Law(p);
    ChainLoads16(w);
  }

  lemma LdrIT3Reads(p: LdrIT3, w: bv32)
    requires EncodeLdrIT3(p) == Some32(w)
    ensures Reads32(w, Loads(WIDE, OFFSET, [Reg(p.rt), Reg(p.rn), Imm(p.imm12)]))
  {
    LdrIT3Law(p);
    ChainLoads32(w);
  }

  lemma LdrIT4Reads(p: LdrIT4, w: bv32)
    requires EncodeLdrIT4(p) == Some32(w)
    ensures Reads32(w, DisassembleLdrIT4(p))
  {
    LdrIT4Law(p);
    ChainLoads32(w);
  }

  /** From 2048 back, the word is taken for LDR (immediate) T4. */
  lemma LdrLitT2Reads(p: LdrLitT2, w: bv32)
    requires EncodeLdrLitT2(p) == Some32(w) && p.add == 0
    ensures
      if p.imm12 < 2048 then Reads32(w, Loads(WIDE, OFFSET, [Reg(p.rt), Reg(15), Signed(p.imm12, 0)]))
      else Reads32(w, DisassembleLdrIT4(DecodeLdrIT4(w))) && DecodeLdrIT4(w).imm8 < 0x100
  {
    LdrLitT2Law(p);
    ChainLoads32(w);
  }

  /** With PC as its base, the word is taken for a literal load. */
  lemma LdrRT2LslReads(p: LdrRT2Lsl, w: bv32)
    requires EncodeLdrRT2Lsl(p) == Some32(w)
    ensures
      if p.rn != 15
      then Reads32(w, Loads(WIDE, OFFSET, [Reg(p.rt), Reg(p.rn), Reg(p.rm), LslShift(p.lslShiftImm2)]))
      else
        var q := DecodeLdrLitT2(w);
        Reads32(w, Loads(WIDE, OFFSET, [Reg(q.rt), Reg(15), Signed(q.imm12, 0)]))
  {
    LdrRT2LslLaw(p);
    ChainLoads32(w);
  }
}
