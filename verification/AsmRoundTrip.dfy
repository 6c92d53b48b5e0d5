// Assembling and disassembling again: exactly when the instruction read back means what was
// asked for.

module AsmRoundTrip {
  import opened T32Encoding
  import opened EncodingLaws
  import opened ThumbAsm
  import opened ReadBack
  import opened Meaning

  /** A narrow instruction takes the lower half of the word at its address. */
  function OverLow(before: bv32, half: bv16): bv32 {
    (before & 0xffff_0000) | Wide(half)
  }

  /** The word at the target after assembling: a narrow encoding replaces the low half only. */
  function Stored(before: bv32, r: AsmResult): bv32 {
    match r
    case NarrowSuccess(half) => OverLow(before, half)
    case WideSuccess(word) => word
    case _ => before
  }

  predicate Means(d: DisResult, s: Spec) {
    d.Decoded? && EffectOf(d.spec) == EffectOf(s)
  }

  // ---- The condition for a faithful encoding: what a caller can check before assembling

  /** A register number that survives the uint8_t locals, that is, at most 255. */
  predicate IsByte(o: Operand) {
    o.Reg? ==> Byte(o.reg) == o.reg
  }

  predicate RegistersAreBytes(s: Spec) {
    && (|s.operands| > 0 ==> IsByte(s.operands[0]))
    && (|s.operands| > 1 ==> IsByte(s.operands[1]))
    && (|s.operands| > 2 ==> IsByte(s.operands[2]))
  }

  /** The narrow encoders take a branch up to twice as far as their fields reach. AL has no
      conditional encoding: narrow it reads as UDF, and wide one offset reads as NOP. */
  predicate BranchFaithful(s: Spec)
    requires |s.operands| == 1 && s.operands[0].SignedImm?
  {
    var target := ToPc(s.operands[0].simm);
    if s.condition == 0 then
      if s.CanBeNarrow() && Within(target, 0x1000) then Within(target, 0x800) else Within(target, 0x100_0000)
    else if s.CanBeNarrow() && Within(target, 0x200) then
      Within(target, 0x100) && s.condition <= 14
    else
      && Within(target, 0x10_0000)
      && !(s.condition == 15 && target == 0x2f000)
      && !(s.condition == 16 && target & 0x17_0000 == 0x17_0000)
  }

  /** The narrow encoders take a scaled offset up to four times as far as their fields reach, a
      register load must not be based on PC, and a literal load reaches back by less than 2048. */
  predicate LoadFaithful(s: Spec)
    requires |s.operands| >= 3 && s.operands[0].Reg? && s.operands[1].Reg?
  {
    var rt := s.operands[0].reg;
    var rn := s.operands[1].reg;
    match s.operands[2]
    case Reg(_) => rn != 15
    case SignedImm(offset) =>
      if s.mode != OFFSET then true
      else if Negative(offset) then rn == 15 ==> Negated(offset) < 2048
      else if s.CanBeNarrow() && offset & 3 == 0 && rt < 8 then
        if rn == 13 || rn == 15 then offset < 1024 || offset >= 4096
        else if rn < 8 then offset < 128 || offset >= 512
        else true
      else true
    case _ => true
  }

  predicate Faithful(s: Spec) {
    && RegistersAreBytes(s)
    && (s.mnemonic == B && |s.operands| == 1 && s.operands[0].SignedImm? ==> BranchFaithful(s))
    && (s.mnemonic == BL && |s.operands| == 1 && s.operands[0].SignedImm? ==>
          Within(ToPc(s.operands[0].simm), 0x100_0000))
    && (s.mnemonic == LDR && |s.operands| >= 3 && s.operands[0].Reg? && s.operands[1].Reg? ==> LoadFaithful(s))
  }

  // ---- Mnemonic by mnemonic

  /** The stored instruction is read at the width it was stored with. */
  predicate Agrees(r: AsmResult) {
    ReadingOf(r).ReadAs?
  }

  predicate ReadsBack(r: AsmResult, s: Spec) {
    Agrees(r) && Means(ReadingOf(r).d, s)
  }

  lemma Back(r: AsmResult, s: Spec, d: DisResult)
    requires Reads(r, d)
    ensures Agrees(r)
    ensures ReadsBack(r, s) <==> Means(d, s)
  {
  }

  /** An addition or subtraction and the name it may be read back under. */
  predicate SameOperation(asked: Mnemonic, m: Mnemonic) {
    || (asked == ADD && (m == ADD || m == ADDW)) || (asked == ADDW && m == ADDW)
    || (asked == SUB && m == SUBW) || (asked == SUBW && m == SUBW)
    || (asked == ADDS && m == ADDS) || (asked == SUBS && m == SUBS)
  }

  lemma ArithMeans(s: Spec, m: Mnemonic, w: Width)
    requires TwoRegisters(s) && (s.operands[2].Imm? || s.operands[2].Reg?)
    requires SameOperation(s.mnemonic, m)
    ensures Means(Kept3(s, m, w), s) <==> Faithful(s)
  {
    if s.operands[2].Imm? {
      ArithImmediateMeans(s, m, w);
    } else {
      ArithRegisterMeans(s, m, w);
    }
  }

  lemma ArithImmediateMeans(s: Spec, m: Mnemonic, w: Width)
    requires TwoRegisters(s) && s.operands[2].Imm?
    requires SameOperation(s.mnemonic, m)
    ensures Means(Kept3(s, m, w), s) <==> Faithful(s)
  {
  }

  lemma ArithRegisterMeans(s: Spec, m: Mnemonic, w: Width)
    requires TwoRegisters(s) && s.operands[2].Reg?
    requires SameOperation(s.mnemonic, m)
    ensures Means(Kept3(s, m, w), s) <==> Faithful(s)
  {
  }

  lemma PairMeans(s: Spec, w: Width)
    requires |s.operands| == 2 && s.operands[0].Reg? && (s.operands[1].Imm? || s.operands[1].Reg?)
    requires s.mnemonic == MOV || s.mnemonic == MOVS || s.mnemonic == CMP
    ensures Means(Kept2(s, s.mnemonic, w), s) <==> Faithful(s)
  {
  }

  lemma BackAdd(s: Spec)
    requires s.mnemonic == ADD && AssembleAdd(s).Success()
    ensures Agrees(AssembleAdd(s))
    ensures ReadsBack(AssembleAdd(s), s) <==> Faithful(s)
  {
    var r := AssembleAdd(s);
    ReadsAdd(s, r);
    if s.operands[2].Imm? {
      Back(r, s, Kept3(s, ADDW, WIDE));
      ArithMeans(s, ADDW, WIDE);
    } else {
      Back(r, s, Kept3(s, ADD, NARROW));
      ArithMeans(s, ADD, NARROW);
    }
  }

  lemma BackAdds(s: Spec)
    requires s.mnemonic == ADDS && AssembleAdds(s).Success()
    ensures Agrees(AssembleAdds(s))
    ensures ReadsBack(AssembleAdds(s), s) <==> Faithful(s)
  {
    var r := AssembleAdds(s);
    ReadsAdds(s, r);
    Back(r, s, Kept3(s, ADDS, NARROW));
    ArithMeans(s, ADDS, NARROW);
  }

  lemma BackCmp(s: Spec)
    requires s.mnemonic == CMP && AssembleCmp(s).Success()
    ensures Agrees(AssembleCmp(s))
    ensures ReadsBack(AssembleCmp(s), s) <==> Faithful(s)
  {
    var r := AssembleCmp(s);
    ReadsCmp(s, r);
    Back(r, s, Kept2(s, CMP, NARROW));
    PairMeans(s, NARROW);
  }

  lemma BackAddw(s: Spec)
    requires s.mnemonic == ADDW && AssembleAddw(s).Success()
    ensures Agrees(AssembleAddw(s))
    ensures ReadsBack(AssembleAddw(s), s) <==> Faithful(s)
  {
    var r := AssembleAddw(s);
    ReadsAddw(s, r);
    Back(r, s, Kept3(s, ADDW, WIDE));
    ArithMeans(s, ADDW, WIDE);
  }

  lemma BackSub(s: Spec)
    requires s.mnemonic == SUB && AssembleSub(s).Success()
    ensures Agrees(AssembleSub(s))
    ensures ReadsBack(AssembleSub(s), s) <==> Faithful(s)
  {
    var r := AssembleSub(s);
    ReadsSubw(s, r);
    Back(r, s, Kept3(s, SUBW, WIDE));
    ArithMeans(s, SUBW, WIDE);
  }

  lemma BackSubs(s: Spec)
    requires s.mnemonic == SUBS && AssembleSubs(s).Success()
    ensures Agrees(AssembleSubs(s))
    ensures ReadsBack(AssembleSubs(s), s) <==> Faithful(s)
  {
    var r := AssembleSubs(s);
    ReadsSubs(s, r);
    Back(r, s, Kept3(s, SUBS, NARROW));
    ArithMeans(s, SUBS, NARROW);
  }

  lemma BackSubw(s: Spec)
    requires s.mnemonic == SUBW && AssembleSubw(s).Success()
    ensures Agrees(AssembleSubw(s))
    ensures ReadsBack(AssembleSubw(s), s) <==> Faithful(s)
  {
    var r := AssembleSubw(s);
    ReadsSubw(s, r);
    Back(r, s, Kept3(s, SUBW, WIDE));
    ArithMeans(s, SUBW, WIDE);
  }

  lemma MovwMeans(s: Spec)
    requires s.mnemonic == MOV || s.mnemonic == MOVW
    requires |s.operands| == 2 && IsByte(s.operands[0]) && s.operands[1].Imm?
    ensures Means(Plain(MOVW, WIDE, s.operands), s) && Faithful(s)
  {
  }

  lemma MovwFits(s: Spec)
    requires AssembleMovw(s).Success()
    ensures IsByte(s.operands[0])
  {
    var p := MovwIT3(s.operands[0].reg, s.operands[1].imm);
    MovwIT3Fits(p);
    SmallIsByte(p.rd);
  }

  lemma BackMovw(s: Spec)
    requires s.mnemonic == MOVW && AssembleMovw(s).Success()
    ensures Agrees(AssembleMovw(s))
    ensures ReadsBack(AssembleMovw(s), s) <==> Faithful(s)
  {
    var r := AssembleMovw(s);
    ReadsMovw(s, r);
    Back(r, s, Plain(MOVW, WIDE, s.operands));
    MovwFits(s);
    MovwMeans(s);
  }

  lemma BackMov(s: Spec)
    requires s.mnemonic == MOV && AssembleMov(s).Success()
    ensures Agrees(AssembleMov(s))
    ensures ReadsBack(AssembleMov(s), s) <==> Faithful(s)
  {
    var r := AssembleMov(s);
    ReadsMov(s, r);
    if s.operands[1].Imm? {
      Back(r, s, Plain(MOVW, WIDE, s.operands));
      MovwFits(s);
      MovwMeans(s);
    } else {
      var w := if r.NarrowSuccess? then NARROW else WIDE;
      Back(r, s, Kept2(s, MOV, w));
      PairMeans(s, w);
    }
  }

  lemma BackMovs(s: Spec)
    requires s.mnemonic == MOVS && AssembleMovs(s).Success()
    ensures Agrees(AssembleMovs(s))
    ensures ReadsBack(AssembleMovs(s), s) <==> Faithful(s)
  {
    var r := AssembleMovs(s);
    ReadsMovs(s, r);
    var w := if r.NarrowSuccess? then NARROW else WIDE;
    Back(r, s, Kept2(s, MOVS, w));
    PairMeans(s, w);
  }

  /** An instruction read back with its own mnemonic and operands. */
  lemma SameMeans(s: Spec, w: Width)
    requires |s.operands| <= 1 && (|s.operands| == 1 ==> IsByte(s.operands[0]))
    requires s.mnemonic in {BKPT, SVC, UDF, BX, BLX, NOP, PUSH}
    requires EffectOf(s) != Malformed
    ensures Means(Plain(s.mnemonic, w, s.operands), s) && Faithful(s)
  {
  }

  lemma BackBkpt(s: Spec)
    requires s.mnemonic == BKPT && AssembleBkpt(s).Success()
    ensures Agrees(AssembleBkpt(s))
    ensures ReadsBack(AssembleBkpt(s), s) <==> Faithful(s)
  {
    var r := AssembleBkpt(s);
    ReadsBkpt(s, r);
    Back(r, s, Plain(BKPT, NARROW, s.operands));
    SameMeans(s, NARROW);
  }

  lemma BackSvc(s: Spec)
    requires s.mnemonic == SVC && AssembleSvc(s).Success()
    ensures Agrees(AssembleSvc(s))
    ensures ReadsBack(AssembleSvc(s), s) <==> Faithful(s)
  {
    var r := AssembleSvc(s);
    ReadsSvc(s, r);
    Back(r, s, Plain(SVC, NARROW, s.operands));
    SameMeans(s, NARROW);
  }

  lemma BackUdf(s: Spec)
    requires s.mnemonic == UDF && AssembleUdf(s).Success()
    ensures Agrees(AssembleUdf(s))
    ensures ReadsBack(AssembleUdf(s), s) <==> Faithful(s)
  {
    var r := AssembleUdf(s);
    ReadsUdf(s, r);
    var w := if r.NarrowSuccess? then NARROW else WIDE;
    Back(r, s, Plain(UDF, w, s.operands));
    SameMeans(s, w);
  }

  lemma BackBx(s: Spec)
    requires s.mnemonic == BX && AssembleBx(s).Success()
    ensures Agrees(AssembleBx(s))
    ensures ReadsBack(AssembleBx(s), s) <==> Faithful(s)
  {
    var r := AssembleBx(s);
    ReadsBx(s, r);
    Back(r, s, Plain(BX, NARROW, s.operands));
    BxT1Fits(BxT1(s.operands[0].reg));
    SmallIsByte(s.operands[0].reg);
    SameMeans(s, NARROW);
  }

  lemma BackBlx(s: Spec)
    requires s.mnemonic == BLX && AssembleBlx(s).Success()
    ensures Agrees(AssembleBlx(s))
    ensures ReadsBack(AssembleBlx(s), s) <==> Faithful(s)
  {
    var r := AssembleBlx(s);
    ReadsBlx(s, r);
    Back(r, s, Plain(BLX, NARROW, s.operands));
    BlxT1Fits(BlxT1(s.operands[0].reg));
    SmallIsByte(s.operands[0].reg);
    SameMeans(s, NARROW);
  }

  lemma BackNop(s: Spec)
    requires s.mnemonic == NOP && AssembleNop(s).Success()
    ensures Agrees(AssembleNop(s))
    ensures ReadsBack(AssembleNop(s), s) <==> Faithful(s)
  {
    var r := AssembleNop(s);
    ReadsNop(s, r);
    var w := if r.NarrowSuccess? then NARROW else WIDE;
    Back(r, s, Plain(NOP, w, []));
    SameMeans(s, w);
  }

  lemma BackPush(s: Spec)
    requires s.mnemonic == PUSH && AssemblePush(s).Success()
    ensures Agrees(AssemblePush(s))
    ensures ReadsBack(AssemblePush(s), s) <==> Faithful(s)
  {
    var r := AssemblePush(s);
    var list := s.operands[0].reglist;
    assert s.operands == [RegList(list)];
    if r.NarrowSuccess? {
      ReadsPushNarrow(s, r);
      Back(r, s, Lists(PUSH, NARROW, list));
      SameMeans(s, NARROW);
    } else {
      if Single(list) { ReadsPushOne(s, r); } else { ReadsPushMany(s, r); }
      Back(r, s, Lists(PUSH, WIDE, list));
      SameMeans(s, WIDE);
    }
  }

  lemma PopMeans(s: Spec, list: bv16, w: Width)
    requires s.mnemonic == POP && s.operands == [RegList(list)]
    ensures Means(Lists(POP, w, list), s) && Faithful(s)
    ensures Single(list) ==> Means(Loads(WIDE, POSTINDEX, [Reg(TopBit(list)), Reg(13), Signed(4, 1)]), s)
  {
  }

  lemma BackPop(s: Spec)
    requires s.mnemonic == POP && AssemblePop(s).Success()
    ensures Agrees(AssemblePop(s))
    ensures ReadsBack(AssemblePop(s), s) <==> Faithful(s)
  {
    var r := AssemblePop(s);
    var list := s.operands[0].reglist;
    assert s.operands == [RegList(list)];
    if r.NarrowSuccess? {
      ReadsPopNarrow(s, r);
      Back(r, s, Lists(POP, NARROW, list));
      PopMeans(s, list, NARROW);
    } else if Single(list) {
      ReadsPopOne(s, r);
      Back(r, s, Loads(WIDE, POSTINDEX, [Reg(TopBit(list)), Reg(13), Signed(4, 1)]));
      PopMeans(s, list, WIDE);
    } else {
      ReadsPopMany(s, r);
      Back(r, s, Lists(POP, WIDE, list));
      PopMeans(s, list, WIDE);
    }
  }

  // ---- Branches

  lemma SameTarget(offset: bv32, simm: bv32)
    ensures FromPc(offset) == simm <==> offset == ToPc(simm)
  {
    PcInverse(offset);
    PcInverse(simm);
  }

  lemma TargetMeans(s: Spec, m: Mnemonic, w: Width, target: bv32)
    requires (m == B && s.condition == 0) || m == BL
    requires s.mnemonic == m && |s.operands| == 1 && s.operands[0].SignedImm?
    ensures Means(Plain(m, w, [SignedImm(target)]), s) <==> target == s.operands[0].simm
  {
  }

  lemma BranchMeans(s: Spec, m: Mnemonic, w: Width, offset: bv32)
    requires (m == B && s.condition == 0) || m == BL
    requires s.mnemonic == m && |s.operands| == 1 && s.operands[0].SignedImm?
    ensures Means(Branches(m, w, offset), s) <==> offset == ToPc(s.operands[0].simm)
  {
    TargetMeans(s, m, w, FromPc(offset));
    SameTarget(offset, s.operands[0].simm);
  }

  lemma BackBlT1(s: Spec, p: BlT1, r: AsmResult)
    requires s.mnemonic == BL && |s.operands| == 1 && s.operands[0].SignedImm?
    requires p.simm25 == ToPc(s.operands[0].simm)
    requires r.WideSuccess? && EncodeBlT1(p) == Some32(r.word)
    ensures Agrees(r)
    ensures ReadsBack(r, s) <==> Within(p.simm25, 0x100_0000)
  {
    BlT1Reads(p, r.word);
    Back(r, s, Branches(BL, WIDE, Wrap25(p.simm25)));
    BranchMeans(s, BL, WIDE, Wrap25(p.simm25));
    Wrap25Same(p.simm25);
  }

  lemma BackBl(s: Spec)
    requires s.mnemonic == BL && AssembleBl(s).Success()
    ensures Agrees(AssembleBl(s))
    ensures ReadsBack(AssembleBl(s), s) <==> Faithful(s)
  {
    BackBlT1(s, BlT1(ToPc(s.operands[0].simm)), AssembleBl(s));
  }

  lemma BackBranchNarrow(s: Spec, p: BT2, r: AsmResult)
    requires s.mnemonic == B && s.condition == 0 && |s.operands| == 1 && s.operands[0].SignedImm?
    requires p.simm11 == ToPc(s.operands[0].simm)
    requires Reads(r, Branches(B, NARROW, Wrap12(p.simm11)))
    ensures Agrees(r)
    ensures ReadsBack(r, s) <==> Within(p.simm11, 0x800)
  {
    Back(r, s, Branches(B, NARROW, Wrap12(p.simm11)));
    BranchMeans(s, B, NARROW, Wrap12(p.simm11));
    Wrap12Same(p.simm11);
  }

  lemma BackBranchWide(s: Spec, q: BT4, r: AsmResult)
    requires s.mnemonic == B && s.condition == 0 && |s.operands| == 1 && s.operands[0].SignedImm?
    requires q.simm25 == ToPc(s.operands[0].simm)
    requires Reads(r, Branches(B, WIDE, Wrap25(q.simm25)))
    ensures Agrees(r)
    ensures ReadsBack(r, s) <==> Within(q.simm25, 0x100_0000)
  {
    Back(r, s, Branches(B, WIDE, Wrap25(q.simm25)));
    BranchMeans(s, B, WIDE, Wrap25(q.simm25));
    Wrap25Same(q.simm25);
  }

  lemma ConditionalTargetMeans(s: Spec, w: Width, target: bv32)
    requires s.mnemonic == B && |s.operands| == 1 && s.operands[0].SignedImm? && s.condition != 0
    ensures Means(Decoded(Spec(B, s.condition, w, NONE, [SignedImm(target)])), s) <==>
      target == s.operands[0].simm
  {
  }

  lemma ConditionalMeans(s: Spec, cond: bv32, w: Width, offset: bv32)
    requires s.mnemonic == B && |s.operands| == 1 && s.operands[0].SignedImm?
    requires s.condition != 0 && cond == s.condition - 1
    ensures Means(Conditional(cond, w, offset), s) <==> offset == ToPc(s.operands[0].simm)
  {
    assert cond + 1 == s.condition;
    ConditionalTargetMeans(s, w, FromPc(offset));
    SameTarget(offset, s.operands[0].simm);
  }

  lemma OtherMeans(s: Spec, m: Mnemonic, w: Width, operands: seq<Operand>)
    requires s.mnemonic == B && |s.operands| == 1 && s.operands[0].SignedImm?
    requires m == UDF || m == SVC || m == NOP
    ensures !Means(Plain(m, w, operands), s)
  {
  }

  predicate ConditionalAsked(s: Spec, cond: bv32, offset: bv32) {
    && s.mnemonic == B && s.condition != 0 && |s.operands| == 1 && s.operands[0].SignedImm?
    && cond == s.condition - 1 && offset == ToPc(s.operands[0].simm)
  }

  lemma BackOther(s: Spec, cond: bv32, offset: bv32, m: Mnemonic, w: Width, operands: seq<Operand>, r: AsmResult)
    requires ConditionalAsked(s, cond, offset) && (m == UDF || m == SVC || m == NOP)
    requires Reads(r, Plain(m, w, operands))
    ensures Agrees(r)
    ensures !ReadsBack(r, s)
  {
    Back(r, s, Plain(m, w, operands));
    OtherMeans(s, m, w, operands);
  }

  lemma BackConditional(s: Spec, cond: bv32, offset: bv32, w: Width, kept: bv32, r: AsmResult)
    requires ConditionalAsked(s, cond, offset)
    requires Reads(r, Conditional(cond, w, kept))
    ensures Agrees(r)
    ensures ReadsBack(r, s) <==> kept == offset
  {
    Back(r, s, Conditional(cond, w, kept));
    ConditionalMeans(s, cond, w, kept);
  }

  lemma BackConditionalNarrow(s: Spec, p: BCondT1, q: BCondT3, r: AsmResult)
    requires ConditionalAsked(s, p.cond, p.simm8) && p.cond < 16
    requires r == AssembleConditional(s, p, q) && r.NarrowSuccess?
    ensures Agrees(r)
    ensures ReadsBack(r, s) <==> Within(p.simm8, 0x100) && p.cond < 14
  {
    ReadsConditionalNarrow(s, p, q, r);
    Wrap9Same(p.simm8);
    if p.cond < 14 {
      BackConditional(s, p.cond, p.simm8, NARROW, Wrap9(p.simm8), r);
    } else {
      var m := if p.cond == 14 then UDF else SVC;
      var imm :| Reads(r, Plain(m, NARROW, [Imm(imm)]));
      BackOther(s, p.cond, p.simm8, m, NARROW, [Imm(imm)], r);
    }
  }

  predicate CollidesWithNop(q: BCondT3) {
    q.cond == 14 && Wrap21(q.simm21) == 0x2f000
  }

  predicate CollidesWithUdf(q: BCondT3) {
    q.cond == 15 && q.simm21 & 0x17_0000 == 0x17_0000
  }

  lemma BackConditionalWide(s: Spec, p: BCondT1, q: BCondT3, r: AsmResult)
    requires ConditionalAsked(s, q.cond, q.simm21)
    requires r == AssembleConditional(s, p, q) && r.WideSuccess?
    ensures Agrees(r)
    ensures ReadsBack(r, s) <==>
      Within(q.simm21, 0x10_0000) && !CollidesWithNop(q) && !CollidesWithUdf(q)
  {
    ReadsConditionalWide(s, p, q, r);
    BackWideReading(s, q.cond, q.simm21, CollidesWithNop(q), CollidesWithUdf(q), Wrap21(q.simm21), r);
    Wrap21Same(q.simm21);
  }

  lemma BackWideReading(s: Spec, cond: bv32, offset: bv32, nop: bool, udf: bool, kept: bv32, r: AsmResult)
    requires ConditionalAsked(s, cond, offset)
    requires
      if nop then Reads(r, Plain(NOP, WIDE, []))
      else if udf then exists imm :: Reads(r, Plain(UDF, WIDE, [Imm(imm)]))
      else Reads(r, Conditional(cond, WIDE, kept))
    ensures Agrees(r)
    ensures ReadsBack(r, s) <==> kept == offset && !nop && !udf
  {
    if nop {
      BackOther(s, cond, offset, NOP, WIDE, [], r);
    } else if udf {
      var imm :| Reads(r, Plain(UDF, WIDE, [Imm(imm)]));
      BackOther(s, cond, offset, UDF, WIDE, [Imm(imm)], r);
    } else {
      BackConditional(s, cond, offset, WIDE, kept, r);
    }
  }

  lemma ConditionField(c: bv32)
    requires c != 0
    ensures c - 1 == 14 <==> c == 15
    ensures c - 1 == 15 <==> c == 16
    ensures c - 1 < 14 <==> c <= 14
  {
  }

  lemma CollisionIsExact(q: BCondT3)
    requires Within(q.simm21, 0x10_0000)
    ensures CollidesWithNop(q) <==> q.cond == 14 && q.simm21 == 0x2f000
  {
    Wrap21Same(q.simm21);
  }

  lemma BackAlways(s: Spec, p: BT2, q: BT4, r: AsmResult)
    requires s.mnemonic == B && s.condition == 0 && r == AssembleB(s) && r.Success()
    requires p == BT2(ToPc(s.operands[0].simm)) && q == BT4(ToPc(s.operands[0].simm))
    ensures Agrees(r)
    ensures ReadsBack(r, s) <==> Faithful(s)
  {
    ReadsBranch(s, p, q, r);
    BranchWidth(s, p, q, r);
    if r.NarrowSuccess? { BackBranchNarrow(s, p, r); } else { BackBranchWide(s, q, r); }
  }

  lemma BackOnCondition(s: Spec, p: BCondT1, q: BCondT3, r: AsmResult)
    requires s.mnemonic == B && s.condition != 0 && r == AssembleB(s) && r.Success()
    requires p == BCondT1(s.condition - 1, ToPc(s.operands[0].simm))
    requires q == BCondT3(s.condition - 1, ToPc(s.operands[0].simm))
    ensures Agrees(r)
    ensures ReadsBack(r, s) <==> Faithful(s)
  {
    ConditionalWidth(s, p, q, r);
    ConditionField(s.condition);
    if r.NarrowSuccess? {
      BackConditionalNarrow(s, p, q, r);
    } else {
      BackConditionalWide(s, p, q, r);
      if Within(q.simm21, 0x10_0000) { CollisionIsExact(q); }
    }
  }

  lemma BackB(s: Spec)
    requires s.mnemonic == B && AssembleB(s).Success()
    ensures Agrees(AssembleB(s))
    ensures ReadsBack(AssembleB(s), s) <==> Faithful(s)
  {
    var target := ToPc(s.operands[0].simm);
    if s.condition == 0 {
      BackAlways(s, BT2(target), BT4(target), AssembleB(s));
    } else {
      BackOnCondition(s, BCondT1(s.condition - 1, target), BCondT3(s.condition - 1, target), AssembleB(s));
    }
  }

  // ---- Loads

  lemma IndexedMeans(s: Spec, w: Width, operands: seq<Operand>)
    requires s.mnemonic == LDR && s.mode == OFFSET && 3 <= |s.operands| <= 4
    requires s.operands[0].Reg? && s.operands[1].Reg? && s.operands[2].Reg?
    requires |s.operands| == 4 ==> s.operands[3].LslShift?
    requires
      var lsl := if |s.operands| == 4 then s.operands[3].shift else 0;
      var kept := [Kept(s.operands[0]), Kept(s.operands[1]), Kept(s.operands[2])];
      operands == kept + [LslShift(lsl)] || (operands == kept && lsl == 0)
    ensures Means(Loads(w, OFFSET, operands), s) <==> RegistersAreBytes(s)
  {
  }

  /** A load by an immediate, read back as a load by an immediate. */
  lemma DisplacedMeans(s: Spec, w: Width, mode: AddressingMode, rt: bv32, rn: bv32, offset: Operand, d: bv32)
    requires s.mnemonic == LDR && |s.operands| == 3
    requires s.operands[0].Reg? && s.operands[1].Reg? && s.operands[2].SignedImm?
    requires offset == Imm(d) || offset == SignedImm(d)
    ensures Means(Loads(w, mode, [Reg(rt), Reg(rn), offset]), s) <==>
      rt == s.operands[0].reg && rn == s.operands[1].reg && d == s.operands[2].simm && mode == s.mode
  {
  }

  lemma BackLdrRegister(s: Spec, p: LdrRT1, q: LdrRT2Lsl, r: AsmResult)
    requires s.mnemonic == LDR && s.mode == OFFSET && 3 <= |s.operands| <= 4
    requires s.operands[0].Reg? && s.operands[1].Reg? && s.operands[2].Reg?
    requires |s.operands| == 4 ==> s.operands[3].LslShift?
    requires q.rt == Byte(s.operands[0].reg) && q.rn == Byte(s.operands[1].reg)
    requires q.rm == Byte(s.operands[2].reg)
    requires q.lslShiftImm2 == if |s.operands| == 4 then s.operands[3].shift else 0
    requires p == LdrRT1(q.rm, q.rn, q.rt)
    requires r == AssembleLdrRegister(s, q.rt, q.rn, q.rm, q.lslShiftImm2) && r.Success()
    ensures Agrees(r)
    ensures ReadsBack(r, s) <==> Faithful(s)
  {
    PicksLdrRegister(s, p, q, r);
    if r.NarrowSuccess? {
      LdrRT1Reads(p, r.half);
      LdrRT1Fits(p);
      BackIndexed(s, NARROW, q.rn, [Reg(q.rt), Reg(q.rn), Reg(q.rm)], r);
    } else {
      BackLdrRegisterWide(s, q, r);
    }
  }

  lemma BackLdrRegisterWide(s: Spec, q: LdrRT2Lsl, r: AsmResult)
    requires s.mnemonic == LDR && s.mode == OFFSET && 3 <= |s.operands| <= 4
    requires s.operands[0].Reg? && s.operands[1].Reg? && s.operands[2].Reg?
    requires |s.operands| == 4 ==> s.operands[3].LslShift?
    requires q.rt == Byte(s.operands[0].reg) && q.rn == Byte(s.operands[1].reg)
    requires q.rm == Byte(s.operands[2].reg)
    requires q.lslShiftImm2 == if |s.operands| == 4 then s.operands[3].shift else 0
    requires r.WideSuccess? && EncodeLdrRT2Lsl(q) == Some32(r.word)
    ensures Agrees(r)
    ensures ReadsBack(r, s) <==> Faithful(s)
  {
    LdrRT2LslReads(q, r.word);
    if q.rn != 15 {
      BackIndexed(s, WIDE, q.rn, [Reg(q.rt), Reg(q.rn), Reg(q.rm), LslShift(q.lslShiftImm2)], r);
    } else {
      var lit := DecodeLdrLitT2(r.word);
      BackLiteral(s, [Reg(lit.rt), Reg(15), Signed(lit.imm12, 0)], r);
    }
  }

  lemma BackIndexed(s: Spec, w: Width, rn: bv32, operands: seq<Operand>, r: AsmResult)
    requires s.mnemonic == LDR && s.mode == OFFSET && 3 <= |s.operands| <= 4
    requires s.operands[0].Reg? && s.operands[1].Reg? && s.operands[2].Reg?
    requires |s.operands| == 4 ==> s.operands[3].LslShift?
    requires rn == Byte(s.operands[1].reg) && rn != 15
    requires
      var lsl := if |s.operands| == 4 then s.operands[3].shift else 0;
      var kept := [Kept(s.operands[0]), Kept(s.operands[1]), Kept(s.operands[2])];
      operands == kept + [LslShift(lsl)] || (operands == kept && lsl == 0)
    requires Reads(r, Loads(w, OFFSET, operands))
    ensures Agrees(r)
    ensures ReadsBack(r, s) <==> Faithful(s)
  {
    Back(r, s, Loads(w, OFFSET, operands));
    IndexedMeans(s, w, operands);
  }

  lemma BackLiteral(s: Spec, operands: seq<Operand>, r: AsmResult)
    requires s.mnemonic == LDR && s.mode == OFFSET && 3 <= |s.operands| <= 4
    requires s.operands[0].Reg? && s.operands[1].Reg? && s.operands[2].Reg?
    requires Byte(s.operands[1].reg) == 15
    requires |operands| == 3 && operands[0].Reg? && operands[1].Reg? && operands[2].SignedImm?
    requires Reads(r, Loads(WIDE, OFFSET, operands))
    ensures Agrees(r)
    ensures ReadsBack(r, s) <==> Faithful(s)
  {
    Back(r, s, Loads(WIDE, OFFSET, operands));
    LiteralMeans(s, operands);
    FromPcUnfaithful(s);
  }

  /** No literal load is a load by a register. */
  lemma LiteralMeans(s: Spec, operands: seq<Operand>)
    requires s.mnemonic == LDR && s.mode == OFFSET && 3 <= |s.operands| <= 4
    requires s.operands[0].Reg? && s.operands[1].Reg? && s.operands[2].Reg?
    requires |operands| == 3 && operands[0].Reg? && operands[1].Reg? && operands[2].SignedImm?
    ensures !Means(Loads(WIDE, OFFSET, operands), s)
  {
  }

  lemma FromPcUnfaithful(s: Spec)
    requires s.mnemonic == LDR && |s.operands| >= 3
    requires s.operands[0].Reg? && s.operands[1].Reg? && s.operands[2].Reg?
    requires Byte(s.operands[1].reg) == 15
    ensures !Faithful(s)
  {
  }

  predicate LoadAsked(s: Spec, rt: bv32, rn: bv32, offset: bv32) {
    && s.mnemonic == LDR && s.mode != NONE && |s.operands| == 3
    && s.operands[0].Reg? && s.operands[1].Reg? && s.operands[2] == SignedImm(offset)
    && rt == Byte(s.operands[0].reg) && rn == Byte(s.operands[1].reg)
  }

  lemma BackLoad(s: Spec, rt: bv32, rn: bv32, offset: bv32, w: Width, mode: AddressingMode, o: Operand, d: bv32,
                 r: AsmResult)
    requires LoadAsked(s, rt, rn, offset) && (o == Imm(d) || o == SignedImm(d))
    requires Reads(r, Loads(w, mode, [Reg(rt), Reg(rn), o]))
    ensures Agrees(r)
    ensures ReadsBack(r, s) <==> RegistersAreBytes(s) && d == offset && mode == s.mode
  {
    Back(r, s, Loads(w, mode, [Reg(rt), Reg(rn), o]));
    DisplacedMeans(s, w, mode, rt, rn, o, d);
  }

  lemma BackLdrIT2Sp(s: Spec, p: LdrIT2Sp, rn: bv32, r: AsmResult)
    requires LoadAsked(s, p.rt, rn, p.imm10) && s.mode == OFFSET && rn == 13
    requires r.NarrowSuccess? && EncodeLdrIT2Sp(p) == Some16(r.half)
    ensures Agrees(r)
    ensures ReadsBack(r, s) <==> RegistersAreBytes(s) && p.imm10 < 1024
  {
    LdrIT2SpFits(p);
    LdrIT2SpReads(p, r.half);
    Scaled10(p.imm10);
    BackLoad(s, p.rt, rn, p.imm10, NARROW, OFFSET, Imm(p.imm10 & 0x3ff), p.imm10 & 0x3ff, r);
  }

  lemma BackLdrLitT1(s: Spec, p: LdrLitT1, rn: bv32, r: AsmResult)
    requires LoadAsked(s, p.rt, rn, p.imm10) && s.mode == OFFSET && rn == 15
    requires r.NarrowSuccess? && EncodeLdrLitT1(p) == Some16(r.half)
    ensures Agrees(r)
    ensures ReadsBack(r, s) <==> RegistersAreBytes(s) && p.imm10 < 1024
  {
    LdrLitT1Fits(p);
    LdrLitT1Reads(p, r.half);
    Scaled10(p.imm10);
    BackLoad(s, p.rt, rn, p.imm10, NARROW, OFFSET, Imm(p.imm10 & 0x3ff), p.imm10 & 0x3ff, r);
  }

  lemma BackLdrIT1(s: Spec, p: LdrIT1, rn: bv32, r: AsmResult)
    requires LoadAsked(s, p.rt, rn, p.imm7) && s.mode == OFFSET && rn == p.rn
    requires r.NarrowSuccess? && EncodeLdrIT1(p) == Some16(r.half)
    ensures Agrees(r)
    ensures ReadsBack(r, s) <==> RegistersAreBytes(s) && p.imm7 < 128
  {
    LdrIT1Fits(p);
    LdrIT1Reads(p, r.half);
    Scaled7(p.imm7);
    BackLoad(s, p.rt, rn, p.imm7, NARROW, OFFSET, Imm(p.imm7 & 0x7f), p.imm7 & 0x7f, r);
  }

  lemma BackLdrNarrow(s: Spec, rt: bv32, rn: bv32, offset: bv32, r: AsmResult)
    requires LoadAsked(s, rt, rn, offset) && s.mode == OFFSET
    requires r.NarrowSuccess? && EncodeLdrNarrow(rt, rn, offset) == Some16(r.half)
    ensures Agrees(r)
    ensures ReadsBack(r, s) <==> RegistersAreBytes(s) && offset < if rn == 13 || rn == 15 then 1024 else 128
  {
    PicksLdrNarrow(rt, rn, offset);
    if rn == 13 {
      BackLdrIT2Sp(s, LdrIT2Sp(rt, offset), rn, r);
    } else if rn == 15 {
      BackLdrLitT1(s, LdrLitT1(rt, offset), rn, r);
    } else {
      BackLdrIT1(s, LdrIT1(rt, rn, offset), rn, r);
    }
  }

  predicate NarrowReaches(rt: bv32, rn: bv32, offset: bv32) {
    && rt < 8 && offset & 3 == 0
    && if rn == 13 || rn == 15 then offset < 4096 else rn < 8 && offset < 512
  }

  lemma GeneralReaches(p: LdrIT1, e: Encoded16)
    requires e == EncodeLdrIT1(p) && p.rn != 13 && p.rn != 15
    ensures e.Some16? <==> NarrowReaches(p.rt, p.rn, p.imm7)
  {
    LdrIT1Fits(p);
  }

  lemma SpReaches(p: LdrIT2Sp, e: Encoded16)
    requires e == EncodeLdrIT2Sp(p)
    ensures e.Some16? <==> NarrowReaches(p.rt, 13, p.imm10)
  {
    LdrIT2SpFits(p);
  }

  lemma LiteralReaches(p: LdrLitT1, e: Encoded16)
    requires e == EncodeLdrLitT1(p)
    ensures e.Some16? <==> NarrowReaches(p.rt, 15, p.imm10)
  {
    LdrLitT1Fits(p);
  }

  /** Where the narrow encoders stop. */
  lemma LdrNarrowFits(rt: bv32, rn: bv32, offset: bv32)
    ensures EncodeLdrNarrow(rt, rn, offset).Some16? <==> NarrowReaches(rt, rn, offset)
  {
    PicksLdrNarrow(rt, rn, offset);
    var e := EncodeLdrNarrow(rt, rn, offset);
    if rn == 13 {
      SpReaches(LdrIT2Sp(rt, offset), e);
    } else if rn == 15 {
      LiteralReaches(LdrLitT1(rt, offset), e);
    } else {
      GeneralReaches(LdrIT1(rt, rn, offset), e);
    }
  }

  lemma BackLdrIT4(s: Spec, q: LdrIT4, rt: bv32, rn: bv32, offset: bv32, r: AsmResult)
    requires LoadAsked(s, rt, rn, offset) && q == LdrSignedParts(s.mode, rt, rn, offset)
    requires r.WideSuccess? && EncodeLdrIT4(q) == Some32(r.word)
    ensures Agrees(r)
    ensures ReadsBack(r, s) <==> RegistersAreBytes(s)
  {
    LdrIT4Reads(q, r.word);
    SignedPartsBack(s.mode, rt, rn, offset);
    BackLoad(s, rt, rn, offset, WIDE, s.mode, SignedImm(offset), offset, r);
  }

  lemma TooFarForT4(imm8: bv32, add: bv32, offset: bv32)
    requires imm8 < 0x100 && 2048 <= Negated(offset) < 4096
    ensures Signed(imm8, add) != SignedImm(offset)
  {
  }

  lemma LdrIT4Means(s: Spec, q: LdrIT4)
    requires s.mnemonic == LDR && |s.operands| == 3
    requires s.operands[0].Reg? && s.operands[1].Reg? && s.operands[2].SignedImm?
    requires Signed(q.imm8, q.add) != s.operands[2]
    ensures !Means(DisassembleLdrIT4(q), s)
  {
    var operands := [Reg(q.rt), Reg(q.rn), Signed(q.imm8, q.add)];
    OffsetTells(s, PREINDEX, operands);
    OffsetTells(s, POSTINDEX, operands);
    OffsetTells(s, OFFSET, operands);
  }

  lemma OffsetTells(s: Spec, mode: AddressingMode, operands: seq<Operand>)
    requires s.mnemonic == LDR && |s.operands| == 3 == |operands|
    requires s.operands[0].Reg? && s.operands[1].Reg? && s.operands[2].SignedImm?
    requires operands[0].Reg? && operands[1].Reg? && operands[2].SignedImm? && operands[2] != s.operands[2]
    ensures !Means(Loads(WIDE, mode, operands), s)
  {
  }

  lemma BackLdrLitT2(s: Spec, rt: bv32, offset: bv32, r: AsmResult)
    requires LoadAsked(s, rt, 15, offset) && s.mode == OFFSET
    requires r.WideSuccess? && EncodeLdrLitT2(LdrLitT2(rt, Negated(offset), 0)) == Some32(r.word)
    ensures Agrees(r)
    ensures ReadsBack(r, s) <==> RegistersAreBytes(s) && Negated(offset) < 2048
  {
    var p := LdrLitT2(rt, Negated(offset), 0);
    LdrLitT2Reads(p, r.word);
    if p.imm12 < 2048 {
      NegatedTwice(offset);
      assert Signed(p.imm12, 0) == SignedImm(offset);
      BackLoad(s, rt, 15, offset, WIDE, OFFSET, SignedImm(offset), offset, r);
    } else {
      LdrLitT2Fits(p);
      var q := DecodeLdrIT4(r.word);
      TooFarForT4(q.imm8, q.add, offset);
      LdrIT4Means(s, q);
      Back(r, s, DisassembleLdrIT4(q));
    }
  }

  lemma BackLdrIT3(s: Spec, p: LdrIT3, r: AsmResult)
    requires LoadAsked(s, p.rt, p.rn, p.imm12) && s.mode == OFFSET
    requires r.WideSuccess? && EncodeLdrIT3(p) == Some32(r.word)
    ensures Agrees(r)
    ensures ReadsBack(r, s) <==> RegistersAreBytes(s)
  {
    LdrIT3Reads(p, r.word);
    BackLoad(s, p.rt, p.rn, p.imm12, WIDE, OFFSET, Imm(p.imm12), p.imm12, r);
  }

  lemma PlainFaithful(s: Spec, rt: bv32, rn: bv32, offset: bv32)
    requires LoadAsked(s, rt, rn, offset) && s.mode == OFFSET && !Negative(offset) && RegistersAreBytes(s)
    ensures
      if s.CanBeNarrow() && EncodeLdrNarrow(rt, rn, offset).Some16?
      then Faithful(s) <==> offset < if rn == 13 || rn == 15 then 1024 else 128
      else Faithful(s)
  {
    LdrNarrowFits(rt, rn, offset);
  }

  lemma BackLdrPlain(s: Spec, rt: bv32, rn: bv32, offset: bv32, r: AsmResult)
    requires LoadAsked(s, rt, rn, offset) && s.mode == OFFSET && !Negative(offset)
    requires r == AssembleLdrImmediate(s, rt, rn, offset) && r.Success()
    ensures Agrees(r)
    ensures ReadsBack(r, s) <==> Faithful(s)
  {
    PicksLdrPlain(s, rt, rn, offset, r);
    if r.NarrowSuccess? {
      BackLdrNarrow(s, rt, rn, offset, r);
    } else {
      BackLdrIT3(s, LdrIT3(rt, offset, rn), r);
    }
    if RegistersAreBytes(s) {
      PlainFaithful(s, rt, rn, offset);
    }
  }

  lemma SignedFaithful(s: Spec, rt: bv32, rn: bv32, offset: bv32)
    requires LoadAsked(s, rt, rn, offset) && (s.mode != OFFSET || Negative(offset))
    ensures Faithful(s) <==>
      RegistersAreBytes(s) && (s.mode == OFFSET && rn == 15 ==> Negated(offset) < 2048)
  {
  }

  lemma BackSignedLiteral(s: Spec, rt: bv32, offset: bv32, r: AsmResult)
    requires LoadAsked(s, rt, 15, offset) && s.mode == OFFSET && Negative(offset)
    requires r == AssembleLdrSigned(s, rt, 15, offset) && r.Success()
    ensures Agrees(r)
    ensures ReadsBack(r, s) <==> Faithful(s)
  {
    LiteralOnly(s, rt, offset);
    ResultWord(EncodeLdrLitT2(LdrLitT2(rt, Negated(offset), 0)), r);
    BackLdrLitT2(s, rt, offset, r);
    SignedFaithful(s, rt, 15, offset);
  }

  lemma BackSignedIndexed(s: Spec, rt: bv32, rn: bv32, offset: bv32, q: LdrIT4, r: AsmResult)
    requires LoadAsked(s, rt, rn, offset) && (s.mode != OFFSET || (Negative(offset) && rn != 15))
    requires q == LdrSignedParts(s.mode, rt, rn, offset)
    requires r.WideSuccess? && EncodeLdrIT4(q) == Some32(r.word)
    ensures Agrees(r)
    ensures ReadsBack(r, s) <==> Faithful(s)
  {
    BackLdrIT4(s, q, rt, rn, offset, r);
    SignedFaithful(s, rt, rn, offset);
  }

  lemma BackLdrSigned(s: Spec, rt: bv32, rn: bv32, offset: bv32, r: AsmResult)
    requires LoadAsked(s, rt, rn, offset) && (s.mode != OFFSET || Negative(offset))
    requires r == AssembleLdrSigned(s, rt, rn, offset) && r.Success()
    ensures Agrees(r)
    ensures ReadsBack(r, s) <==> Faithful(s)
  {
    if s.mode == OFFSET && rn == 15 {
      BackSignedLiteral(s, rt, offset, r);
    } else {
      SignedIsIndexed(s, rt, rn, offset);
      ResultWord(EncodeLdrIT4(LdrSignedParts(s.mode, rt, rn, offset)), r);
      BackSignedIndexed(s, rt, rn, offset, LdrSignedParts(s.mode, rt, rn, offset), r);
    }
  }

  lemma ResultWord(e: Encoded32, r: AsmResult)
    requires r == Result32(e) && r.Success()
    ensures r.WideSuccess? && e == Some32(r.word)
  {
  }

  lemma BackLdrImmediate(s: Spec, rt: bv32, rn: bv32, offset: bv32, r: AsmResult)
    requires LoadAsked(s, rt, rn, offset)
    requires r == AssembleLdrImmediate(s, rt, rn, offset) && r.Success()
    ensures Agrees(r)
    ensures ReadsBack(r, s) <==> Faithful(s)
  {
    if s.mode == OFFSET && !Negative(offset) {
      BackLdrPlain(s, rt, rn, offset, r);
    } else {
      BackLdrSigned(s, rt, rn, offset, r);
    }
  }

  lemma BackLdr(s: Spec)
    requires s.mnemonic == LDR && AssembleLdr(s).Success()
    ensures Agrees(AssembleLdr(s))
    ensures ReadsBack(AssembleLdr(s), s) <==> Faithful(s)
  {
    var r := AssembleLdr(s);
    var rt := Byte(s.operands[0].reg);
    var rn := Byte(s.operands[1].reg);
    if s.operands[2].Reg? {
      var rm := Byte(s.operands[2].reg);
      var lsl := if |s.operands| == 4 then s.operands[3].shift else 0;
      BackLdrRegister(s, LdrRT1(rm, rn, rt), LdrRT2Lsl(rt, lsl, rm, rn), r);
    } else {
      BackLdrImmediate(s, rt, rn, s.operands[2].simm, r);
    }
  }

  // ---- The theorem

  lemma BackAny(s: Spec)
    requires Assemble(s).Success()
    ensures Agrees(Assemble(s))
    ensures ReadsBack(Assemble(s), s) <==> Faithful(s)
  {
    match s.mnemonic
    case UNKNOWN =>
    case ADD => BackAdd(s);
    case ADDS => BackAdds(s);
    case ADDW => BackAddw(s);
    case B => BackB(s);
    case BKPT => BackBkpt(s);
    case BL => BackBl(s);
    case BLX => BackBlx(s);
    case BX => BackBx(s);
    case CMP => BackCmp(s);
    case LDR => BackLdr(s);
    case NOP => BackNop(s);
    case MOV => BackMov(s);
    case MOVS => BackMovs(s);
    case MOVW => BackMovw(s);
    case POP => BackPop(s);
    case PUSH => BackPush(s);
    case SUB => BackSub(s);
    case SUBS => BackSubs(s);
    case SUBW => BackSubw(s);
    case SVC => BackSvc(s);
    case UDF => BackUdf(s);
  }

  /** The lengths agree: a narrow result reads as narrow and a wide one as wide. */
  lemma WidthAgreement(s: Spec)
    requires Assemble(s).Success()
    ensures Assemble(s).NarrowSuccess? ==> !IsWide(Assemble(s).half)
    ensures Assemble(s).WideSuccess? ==> IsWide(Low16(Assemble(s).word))
  {
    BackAny(s);
    assert Agrees(Assemble(s));
  }

  predicate HonoursWidth(s: Spec, r: AsmResult) {
    && (s.width == NARROW ==> !r.WideSuccess?)
    && (s.width == WIDE ==> !r.NarrowSuccess?)
  }

  lemma WidthOfAdds(s: Spec)
    ensures HonoursWidth(s, AssembleAdd(s)) && HonoursWidth(s, AssembleAdds(s)) && HonoursWidth(s, AssembleAddw(s))
  {
  }

  lemma WidthOfSubs(s: Spec)
    ensures HonoursWidth(s, AssembleSub(s)) && HonoursWidth(s, AssembleSubs(s)) && HonoursWidth(s, AssembleSubw(s))
  {
  }

  lemma WidthOfMoves(s: Spec)
    ensures HonoursWidth(s, AssembleMov(s)) && HonoursWidth(s, AssembleMovs(s)) && HonoursWidth(s, AssembleMovw(s))
    ensures HonoursWidth(s, AssembleCmp(s)) && HonoursWidth(s, AssembleNop(s)) && HonoursWidth(s, AssembleUdf(s))
  {
  }

  lemma WidthOfBranches(s: Spec)
    ensures HonoursWidth(s, AssembleB(s)) && HonoursWidth(s, AssembleBl(s)) && HonoursWidth(s, AssembleBlx(s))
    ensures HonoursWidth(s, AssembleBx(s)) && HonoursWidth(s, AssembleBkpt(s)) && HonoursWidth(s, AssembleSvc(s))
  {
  }

  lemma WidthOfPrefer(s: Spec, narrow: Encoded16, wide: AsmResult)
    requires !wide.NarrowSuccess?
    ensures HonoursWidth(s, Prefer(s, narrow, IfWide(s, wide))) && HonoursWidth(s, IfWide(s, wide))
  {
  }

  lemma WidthOfPopParts(s: Spec, count: nat, p: PopT2, rest: bv16)
    ensures HonoursWidth(s, AssemblePopParts(s, count, p, rest))
  {
    if s.width == WIDE {
    } else if s.width == NARROW {
    } else {
    }
  }

  lemma WidthOfPushParts(s: Spec, count: nat, p: PushT2, rest: bv16)
    ensures HonoursWidth(s, AssemblePushParts(s, count, p, rest))
  {
    if s.width == WIDE {
    } else if s.width == NARROW {
    } else {
    }
  }

  lemma PopCases(s: Spec) returns (count: nat, p: PopT2, rest: bv16)
    ensures AssemblePop(s) == InvalidOperand || AssemblePop(s) == AssemblePopParts(s, count, p, rest)
  {
    count, p, rest := 0, PopT2(0, 0, 0), 0;
    if ListAsked(s) {
      var list := s.operands[0].reglist;
      count, p, rest := CountRegisters(list), PopPartsOf(list), list & 0x3fff;
      if count != 0 {
        PopByParts(s, list, count);
      } else {
        ListRefused(s);
      }
    } else {
      ListRefused(s);
    }
  }

  lemma PushCases(s: Spec) returns (count: nat, p: PushT2, rest: bv16)
    ensures AssemblePush(s) == InvalidOperand || AssemblePush(s) == AssemblePushParts(s, count, p, rest)
  {
    count, p, rest := 0, PushT2(0, 0), 0;
    if ListAsked(s) {
      var list := s.operands[0].reglist;
      count, p, rest := CountRegisters(list), PushPartsOf(list), list & 0xbfff;
      if count != 0 {
        PushByParts(s, list, count);
      } else {
        ListRefused(s);
      }
    } else {
      ListRefused(s);
    }
  }

  lemma WidthOfPop(s: Spec)
    ensures HonoursWidth(s, AssemblePop(s))
  {
    var count, p, rest := PopCases(s);
    WidthOfPopParts(s, count, p, rest);
  }

  lemma WidthOfPush(s: Spec)
    ensures HonoursWidth(s, AssemblePush(s))
  {
    var count, p, rest := PushCases(s);
    WidthOfPushParts(s, count, p, rest);
  }

  lemma WidthOfLdrRegister(s: Spec, rt: bv32, rn: bv32, rm: bv32, lsl: bv32)
    ensures HonoursWidth(s, AssembleLdrRegister(s, rt, rn, rm, lsl))
  {
  }

  lemma WidthOfLdrSigned(s: Spec, rt: bv32, rn: bv32, offset: bv32)
    ensures !AssembleLdrSigned(s, rt, rn, offset).NarrowSuccess?
  {
  }

  lemma WidthOfLdrImmediate(s: Spec, rt: bv32, rn: bv32, offset: bv32)
    ensures HonoursWidth(s, AssembleLdrImmediate(s, rt, rn, offset))
  {
    var signed := AssembleLdrSigned(s, rt, rn, offset);
    WidthOfLdrSigned(s, rt, rn, offset);
    WidthOfPrefer(s, EncodeLdrNarrow(rt, rn, offset), Try32(EncodeLdrIT3(LdrIT3(rt, offset, rn)), signed));
    WidthOfPrefer(s, None16, signed);
  }

  lemma WidthOfLdr(s: Spec)
    ensures HonoursWidth(s, AssembleLdr(s))
  {
    if |s.operands| >= 3 && s.operands[0].Reg? && s.operands[1].Reg? {
      var rt := Byte(s.operands[0].reg);
      var rn := Byte(s.operands[1].reg);
      match s.operands[2]
      case Reg(reg) =>
        var lsl := if |s.operands| == 4 && s.operands[3].LslShift? then s.operands[3].shift else 0;
        WidthOfLdrRegister(s, rt, rn, Byte(reg), lsl);
      case SignedImm(offset) => WidthOfLdrImmediate(s, rt, rn, offset);
      case _ =>
    }
  }

  /** An explicit width is honoured. */
  lemma WidthAsked(s: Spec)
    ensures HonoursWidth(s, Assemble(s))
  {
    match s.mnemonic
    case UNKNOWN =>
    case ADD => WidthOfAdds(s);
    case ADDS => WidthOfAdds(s);
    case ADDW => WidthOfAdds(s);
    case SUB => WidthOfSubs(s);
    case SUBS => WidthOfSubs(s);
    case SUBW => WidthOfSubs(s);
    case LDR => WidthOfLdr(s);
    case POP => WidthOfPop(s);
    case PUSH => WidthOfPush(s);
    case MOV => WidthOfMoves(s);
    case MOVS => WidthOfMoves(s);
    case MOVW => WidthOfMoves(s);
    case CMP => WidthOfMoves(s);
    case NOP => WidthOfMoves(s);
    case UDF => WidthOfMoves(s);
    case B => WidthOfBranches(s);
    case BKPT => WidthOfBranches(s);
    case BL => WidthOfBranches(s);
    case BLX => WidthOfBranches(s);
    case BX => WidthOfBranches(s);
    case SVC => WidthOfBranches(s);
  }

  lemma HalfKept(before: bv32, half: bv16)
    ensures Low16(OverLow(before, half)) == half
  {
  }

  lemma LowOfStored(before: bv32, half: bv16)
    ensures Low16(Stored(before, NarrowSuccess(half))) == half
  {
    HalfKept(before, half);
  }

  /** Whatever stood at the target, what is disassembled there after assembling has the meaning of
      what was asked for, if and only if the request is faithful. */
  lemma AssembleThenDisassemble(before: bv32, s: Spec)
    requires Assemble(s).Success()
    ensures
      Means(Disassemble(Stored(before, Assemble(s))), s) <==> Faithful(s)
  {
    BackAny(s);
    WidthAgreement(s);
    if Assemble(s).NarrowSuccess? {
      HalfKept(before, Assemble(s).half);
    }
  }
}
