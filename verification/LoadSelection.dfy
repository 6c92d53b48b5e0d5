// Which encoding a wide load gets, and which loads by an immediate come out as a word that the
// matcher of LDR (immediate) T4 takes for something else: with the bits of LDRT, or with those on
// which the disassembler's assertion fails. Based on PC, both are literal loads to the processor.

module LoadSelection {
  import opened T32Encoding
  import opened EncodingLaws
  import opened ThumbAsm
  import opened Disassembly
  import opened Overlaps
  import opened ReadBack
  import opened AsmRoundTrip
  import opened WordRoundTrip

  // ---- The encoder that was picked

  /** A wide load by an immediate, with its registers as the assembler keeps them. */
  predicate WideLoad(s: Spec, rt: bv32, rn: bv32, offset: bv32, w: bv32) {
    LoadAsked(s, rt, rn, offset) && AssembleLdrImmediate(s, rt, rn, offset) == WideSuccess(w)
  }

  predicate IsPlain(s: Spec, offset: bv32) {
    s.mode == OFFSET && !Negative(offset)
  }

  predicate IsLiteral(s: Spec, rn: bv32, offset: bv32) {
    s.mode == OFFSET && Negative(offset) && rn == 15
  }

  /** The pattern of LDRT: index and add without writeback. */
  predicate Unprivileged(p: LdrIT4) {
    p.index == 1 && p.add == 1 && p.writeback == 0
  }

  /** Neither index nor writeback, which the disassembler takes for unreachable. */
  predicate Undefined(p: LdrIT4) {
    p.index == 0 && p.writeback == 0
  }

  lemma OrdinaryParts(mode: AddressingMode, rt: bv32, rn: bv32, offset: bv32)
    requires mode != NONE && (mode != OFFSET || Negative(offset))
    ensures !Unprivileged(LdrSignedParts(mode, rt, rn, offset)) && !Undefined(LdrSignedParts(mode, rt, rn, offset))
  {
  }

  /** A plain offset is always taken by T3, a negative one from PC by the literal T2, and T4 is left
      with negative offsets and writeback. */
  lemma PickedEncoder(s: Spec, rt: bv32, rn: bv32, offset: bv32, w: bv32)
    requires WideLoad(s, rt, rn, offset, w)
    ensures
      if IsPlain(s, offset) then EncodeLdrIT3(LdrIT3(rt, offset, rn)) == Some32(w)
      else if IsLiteral(s, rn, offset) then EncodeLdrLitT2(LdrLitT2(rt, Negated(offset), 0)) == Some32(w)
      else
        var q := LdrSignedParts(s.mode, rt, rn, offset);
        EncodeLdrIT4(q) == Some32(w) && !Unprivileged(q) && !Undefined(q)
  {
    if IsPlain(s, offset) {
      PicksLdrPlain(s, rt, rn, offset, WideSuccess(w));
    } else {
      if IsLiteral(s, rn, offset) {
        LiteralOnly(s, rt, offset);
      } else {
        SignedIsIndexed(s, rt, rn, offset);
      }
      OrdinaryParts(s.mode, rt, rn, offset);
    }
  }

  // ---- What the word looks like as T4

  lemma PlainIsNotT4(p: LdrIT3, w: bv32)
    requires EncodeLdrIT3(p) == Some32(w)
    ensures !MatchLdrIT4(w)
  {
    LdrIT3Law(p);
    if MatchLdrIT4(w) {
      SharedWide(WLdrIT3, WLdrIT4, w);
    }
  }

  lemma IndexedIsOrdinary(mode: AddressingMode, rt: bv32, rn: bv32, offset: bv32, q: LdrIT4, w: bv32)
    requires mode != NONE && (mode != OFFSET || Negative(offset))
    requires q == LdrSignedParts(mode, rt, rn, offset) && EncodeLdrIT4(q) == Some32(w)
    ensures MatchLdrIT4(w) && !Unprivileged(DecodeLdrIT4(w)) && !Undefined(DecodeLdrIT4(w))
  {
    OrdinaryParts(mode, rt, rn, offset);
    LdrIT4Law(q);
  }

  /** The top four bits of a literal's distance lie where T4 has a fixed bit, index, add and
      writeback. */
  lemma LiteralAsT4(p: LdrLitT2, w: bv32)
    requires EncodeLdrLitT2(p) == Some32(w) && p.add == 0
    ensures MatchLdrIT4(w) && Unprivileged(DecodeLdrIT4(w)) <==> p.imm12 & 0xf00 == 0xe00
    ensures MatchLdrIT4(w) && Undefined(DecodeLdrIT4(w)) <==> p.imm12 & 0xd00 == 0x800
  {
  }

  // ---- Exactly which requests

  /** Distances of 3584 to 3839 back from PC. */
  predicate BecomesLdrt(s: Spec, rn: bv32, offset: bv32) {
    IsLiteral(s, rn, offset) && Negated(offset) & 0xf00 == 0xe00
  }

  /** Distances of 2048 to 2303 and of 2560 to 2815 back from PC. */
  predicate BecomesUndefined(s: Spec, rn: bv32, offset: bv32) {
    IsLiteral(s, rn, offset) && Negated(offset) & 0xd00 == 0x800
  }

  lemma LoadPatterns(s: Spec, rt: bv32, rn: bv32, offset: bv32, w: bv32)
    requires WideLoad(s, rt, rn, offset, w)
    ensures MatchLdrIT4(w) && Unprivileged(DecodeLdrIT4(w)) <==> BecomesLdrt(s, rn, offset)
    ensures MatchLdrIT4(w) && Undefined(DecodeLdrIT4(w)) <==> BecomesUndefined(s, rn, offset)
  {
    PickedEncoder(s, rt, rn, offset, w);
    if IsPlain(s, offset) {
      PlainIsNotT4(LdrIT3(rt, offset, rn), w);
    } else if IsLiteral(s, rn, offset) {
      LiteralAsT4(LdrLitT2(rt, Negated(offset), 0), w);
    } else {
      IndexedIsOrdinary(s.mode, rt, rn, offset, LdrSignedParts(s.mode, rt, rn, offset), w);
    }
  }

  // ---- All other requests

  /** No load at a plain offset, and not the failing assertion. */
  predicate Harmless(d: DisResult) {
    d.Decoded? && !(d.spec.mnemonic == LDR && d.spec.mode == OFFSET)
  }

  predicate ReadsHarmless(r: AsmResult) {
    ReadingOf(r).ReadAs? && Harmless(ReadingOf(r).d)
  }

  lemma HarmlessReading(r: AsmResult, d: DisResult)
    requires Reads(r, d) && Harmless(d)
    ensures ReadsHarmless(r)
  {
  }

  lemma HarmlessSums(s: Spec)
    requires s.mnemonic in {ADD, ADDS, ADDW} && Assemble(s).Success()
    ensures ReadsHarmless(Assemble(s))
  {
    match s.mnemonic
    case ADD =>
      ReadsAdd(s, AssembleAdd(s));
      HarmlessReading(AssembleAdd(s), if s.operands[2].Imm? then Kept3(s, ADDW, WIDE) else Kept3(s, ADD, NARROW));
    case ADDS =>
      ReadsAdds(s, AssembleAdds(s));
      HarmlessReading(AssembleAdds(s), Kept3(s, ADDS, NARROW));
    case ADDW =>
      ReadsAddw(s, AssembleAddw(s));
      HarmlessReading(AssembleAddw(s), Kept3(s, ADDW, WIDE));
  }

  lemma HarmlessDifferences(s: Spec)
    requires s.mnemonic in {SUB, SUBS, SUBW} && Assemble(s).Success()
    ensures ReadsHarmless(Assemble(s))
  {
    match s.mnemonic
    case SUB =>
      ReadsSubw(s, AssembleSub(s));
      HarmlessReading(AssembleSub(s), Kept3(s, SUBW, WIDE));
    case SUBS =>
      ReadsSubs(s, AssembleSubs(s));
      HarmlessReading(AssembleSubs(s), Kept3(s, SUBS, NARROW));
    case SUBW =>
      ReadsSubw(s, AssembleSubw(s));
      HarmlessReading(AssembleSubw(s), Kept3(s, SUBW, WIDE));
  }

  lemma HarmlessMoves(s: Spec)
    requires s.mnemonic in {MOV, MOVS, MOVW, CMP} && Assemble(s).Success()
    ensures ReadsHarmless(Assemble(s))
  {
    var w := if Assemble(s).NarrowSuccess? then NARROW else WIDE;
    match s.mnemonic
    case MOV =>
      ReadsMov(s, AssembleMov(s));
      HarmlessReading(AssembleMov(s), if s.operands[1].Imm? then Plain(MOVW, WIDE, s.operands) else Kept2(s, MOV, w));
    case MOVS =>
      ReadsMovs(s, AssembleMovs(s));
      HarmlessReading(AssembleMovs(s), Kept2(s, MOVS, w));
    case MOVW =>
      ReadsMovw(s, AssembleMovw(s));
      HarmlessReading(AssembleMovw(s), Plain(MOVW, WIDE, s.operands));
    case CMP =>
      ReadsCmp(s, AssembleCmp(s));
      HarmlessReading(AssembleCmp(s), Kept2(s, CMP, NARROW));
  }

  lemma HarmlessPlain(s: Spec)
    requires s.mnemonic in {BKPT, SVC, UDF, BX, BLX, NOP} && Assemble(s).Success()
    ensures ReadsHarmless(Assemble(s))
  {
    var w := if Assemble(s).NarrowSuccess? then NARROW else WIDE;
    match s.mnemonic
    case BKPT =>
      ReadsBkpt(s, AssembleBkpt(s));
      HarmlessReading(AssembleBkpt(s), Plain(BKPT, NARROW, s.operands));
    case SVC =>
      ReadsSvc(s, AssembleSvc(s));
      HarmlessReading(AssembleSvc(s), Plain(SVC, NARROW, s.operands));
    case UDF =>
      ReadsUdf(s, AssembleUdf(s));
      HarmlessReading(AssembleUdf(s), Plain(UDF, w, s.operands));
    case BX =>
      ReadsBx(s, AssembleBx(s));
      HarmlessReading(AssembleBx(s), Plain(BX, NARROW, s.operands));
    case BLX =>
      ReadsBlx(s, AssembleBlx(s));
      HarmlessReading(AssembleBlx(s), Plain(BLX, NARROW, s.operands));
    case NOP =>
      ReadsNop(s, AssembleNop(s));
      HarmlessReading(AssembleNop(s), Plain(NOP, w, []));
  }

  lemma HarmlessPush(s: Spec)
    requires s.mnemonic == PUSH && Assemble(s).Success()
    ensures ReadsHarmless(Assemble(s))
  {
    var r := Assemble(s);
    var list := s.operands[0].reglist;
    if r.NarrowSuccess? {
      ReadsPushNarrow(s, r);
      HarmlessReading(r, Lists(PUSH, NARROW, list));
    } else {
      if Single(list) { ReadsPushOne(s, r); } else { ReadsPushMany(s, r); }
      HarmlessReading(r, Lists(PUSH, WIDE, list));
    }
  }

  lemma HarmlessPop(s: Spec)
    requires s.mnemonic == POP && Assemble(s).Success()
    ensures ReadsHarmless(Assemble(s))
  {
    var r := Assemble(s);
    var list := s.operands[0].reglist;
    if r.NarrowSuccess? {
      ReadsPopNarrow(s, r);
      HarmlessReading(r, Lists(POP, NARROW, list));
    } else if Single(list) {
      ReadsPopOne(s, r);
      HarmlessReading(r, Loads(WIDE, POSTINDEX, [Reg(TopBit(list)), Reg(13), ThumbAsm.Signed(4, 1)]));
    } else {
      ReadsPopMany(s, r);
      HarmlessReading(r, Lists(POP, WIDE, list));
    }
  }

  lemma HarmlessBranch(s: Spec, p: BT2, q: BT4, r: AsmResult)
    requires r == AssembleBranch(s, p, q) && r.Success()
    ensures ReadsHarmless(r)
  {
    ReadsBranch(s, p, q, r);
    if r.NarrowSuccess? {
      HarmlessReading(r, Branches(B, NARROW, Wrap12(p.simm11)));
    } else {
      HarmlessReading(r, Branches(B, WIDE, Wrap25(q.simm25)));
    }
  }

  lemma HarmlessConditional(s: Spec, p: BCondT1, q: BCondT3, r: AsmResult)
    requires r == AssembleConditional(s, p, q) && r.Success() && p.simm8 == q.simm21 && p.cond == q.cond
    ensures ReadsHarmless(r)
  {
    ConditionalWidth(s, p, q, r);
    if r.NarrowSuccess? {
      ReadsConditionalNarrow(s, p, q, r);
      HarmlessCondition(p.cond);
    } else {
      ReadsConditionalWide(s, p, q, r);
    }
  }

  lemma HarmlessCondition(cond: bv32)
    requires cond < 16
    ensures cond < 14 || cond == 14 || cond == 15
  {
  }

  lemma HarmlessBranches(s: Spec)
    requires s.mnemonic in {B, BL} && Assemble(s).Success()
    ensures ReadsHarmless(Assemble(s))
  {
    if s.mnemonic == BL {
      ReadsBl(s, AssembleBl(s));
      HarmlessReading(AssembleBl(s), Branches(BL, WIDE, Wrap25(ToPc(s.operands[0].simm))));
    } else {
      var target := ToPc(s.operands[0].simm);
      if s.condition == 0 {
        HarmlessBranch(s, BT2(target), BT4(target), AssembleB(s));
      } else {
        HarmlessConditional(s, BCondT1(s.condition - 1, target), BCondT3(s.condition - 1, target), AssembleB(s));
      }
    }
  }

  lemma OthersHarmless(s: Spec)
    requires s.mnemonic != LDR && Assemble(s).Success()
    ensures ReadsHarmless(Assemble(s))
  {
    match s.mnemonic
    case UNKNOWN =>
    case ADD => HarmlessSums(s);
    case ADDS => HarmlessSums(s);
    case ADDW => HarmlessSums(s);
    case B => HarmlessBranches(s);
    case BL => HarmlessBranches(s);
    case BKPT => HarmlessPlain(s);
    case BLX => HarmlessPlain(s);
    case BX => HarmlessPlain(s);
    case CMP => HarmlessMoves(s);
    case MOV => HarmlessMoves(s);
    case MOVS => HarmlessMoves(s);
    case MOVW => HarmlessMoves(s);
    case NOP => HarmlessPlain(s);
    case POP => HarmlessPop(s);
    case PUSH => HarmlessPush(s);
    case SUB => HarmlessDifferences(s);
    case SUBS => HarmlessDifferences(s);
    case SUBW => HarmlessDifferences(s);
    case SVC => HarmlessPlain(s);
    case UDF => HarmlessPlain(s);
  }

  lemma HarmlessWord(w: bv32)
    requires ReadsHarmless(WideSuccess(w))
    ensures !(MatchLdrIT4(w) && (Unprivileged(DecodeLdrIT4(w)) || Undefined(DecodeLdrIT4(w))))
  {
    ChainLoads32(w);
    if MatchLdrIT4(w) {
      var p := DecodeLdrIT4(w);
      assert Reads32(w, DisassembleLdrIT4(p));
    }
  }

  // ---- The theorems

  predicate AsksImmediate(s: Spec) {
    && s.mnemonic == LDR && s.mode != NONE && |s.operands| == 3
    && s.operands[0].Reg? && s.operands[1].Reg? && s.operands[2].SignedImm?
  }

  lemma RegisterLoadIsNotT4(s: Spec, w: bv32)
    requires s.mnemonic == LDR && Assemble(s) == WideSuccess(w) && s.operands[2].Reg?
    ensures !MatchLdrIT4(w)
  {
    var rt, rn, rm := Byte(s.operands[0].reg), Byte(s.operands[1].reg), Byte(s.operands[2].reg);
    var lsl := if |s.operands| == 4 then s.operands[3].shift else 0;
    var q := LdrRT2Lsl(rt, lsl, rm, rn);
    PicksLdrRegister(s, LdrRT1(rm, rn, rt), q, Assemble(s));
    RegisterWordIsNotT4(q, w);
  }

  lemma RegisterWordIsNotT4(q: LdrRT2Lsl, w: bv32)
    requires EncodeLdrRT2Lsl(q) == Some32(w)
    ensures !MatchLdrIT4(w)
  {
    LdrRT2LslLaw(q);
    if MatchLdrIT4(w) {
      SharedWide(WLdrRT2Lsl, WLdrIT4, w);
    }
  }

  lemma ImmediateLoad(s: Spec, w: bv32)
    requires AsksImmediate(s) && Assemble(s) == WideSuccess(w)
    ensures WideLoad(s, Byte(s.operands[0].reg), Byte(s.operands[1].reg), s.operands[2].simm, w)
  {
  }

  lemma WidePatterns(s: Spec, w: bv32)
    requires Assemble(s) == WideSuccess(w)
    ensures MatchLdrIT4(w) && Unprivileged(DecodeLdrIT4(w)) <==>
      AsksImmediate(s) && BecomesLdrt(s, Byte(s.operands[1].reg), s.operands[2].simm)
    ensures MatchLdrIT4(w) && Undefined(DecodeLdrIT4(w)) <==>
      AsksImmediate(s) && BecomesUndefined(s, Byte(s.operands[1].reg), s.operands[2].simm)
  {
    if AsksImmediate(s) {
      ImmediateLoad(s, w);
      LoadPatterns(s, Byte(s.operands[0].reg), Byte(s.operands[1].reg), s.operands[2].simm, w);
    } else if s.mnemonic == LDR {
      RegisterLoadIsNotT4(s, w);
    } else {
      OthersHarmless(s);
      HarmlessWord(w);
    }
  }

  /** Of all requests that assemble, exactly the literal loads from 3584 to 3839 back come out as a
      word that T4's matcher takes, with the bits of LDRT. */
  lemma EmitsLdrt(s: Spec)
    requires Assemble(s).WideSuccess?
    ensures MatchLdrIT4(Assemble(s).word) && Unprivileged(DecodeLdrIT4(Assemble(s).word)) <==>
      AsksImmediate(s) && BecomesLdrt(s, Byte(s.operands[1].reg), s.operands[2].simm)
  {
    WidePatterns(s, Assemble(s).word);
  }

  lemma NarrowNeverAsserts(before: bv32, half: bv16)
    requires !IsWide(half)
    ensures Disassemble(Stored(before, NarrowSuccess(half))) != AssertFailed
  {
    LowOfStored(before, half);
    NarrowIsSafe(Stored(before, NarrowSuccess(half)), half);
  }

  lemma NarrowIsSafe(word: bv32, half: bv16)
    requires Low16(word) == half && !IsWide(half)
    ensures Disassemble(word) != AssertFailed
  {
    NarrowDecodes(Low16(word));
  }

  /** Of all requests that assemble, over whatever memory held before, exactly the literal loads from
      2048 to 2303 and from 2560 to 2815 back make the disassembler's assertion fail. */
  lemma MakesAssertionFail(before: bv32, s: Spec)
    requires Assemble(s).Success()
    ensures Disassemble(Stored(before, Assemble(s))) == AssertFailed <==>
      && Assemble(s).WideSuccess?
      && AsksImmediate(s) && BecomesUndefined(s, Byte(s.operands[1].reg), s.operands[2].simm)
  {
    match Assemble(s)
    case NarrowSuccess(half) =>
      WidthAgreement(s);
      NarrowNeverAsserts(before, half);
    case WideSuccess(w) =>
      WidePatterns(s, w);
      AssertionFails(w);
  }
}
