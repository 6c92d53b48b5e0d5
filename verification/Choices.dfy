// Which encoding the assembler takes, and with which fields, from a table of operands and ranges: a
// request that assembles stores the word of the entry in the table, whatever the order of attempts.

module Choices {
  import opened T32Encoding
  import opened EncodingLaws
  import opened ThumbAsm
  import opened Encodings
  import opened Patterns
  import opened ReadBack
  import opened AsmRoundTrip

  // ---- Operands

  /** A register as its uint8_t holds it. */
  function RegAt(s: Spec, i: nat): bv32 {
    if i < |s.operands| && s.operands[i].Reg? then Byte(s.operands[i].reg) else 0
  }

  /** A register that is not squeezed into a uint8_t. */
  function WholeRegAt(s: Spec, i: nat): bv32 {
    if i < |s.operands| && s.operands[i].Reg? then s.operands[i].reg else 0
  }

  function ImmAt(s: Spec, i: nat): bv32 {
    if i < |s.operands| && s.operands[i].Imm? then s.operands[i].imm
    else if i < |s.operands| && s.operands[i].SignedImm? then s.operands[i].simm
    else 0
  }

  function ShiftAt(s: Spec, i: nat): bv32 {
    if i < |s.operands| && s.operands[i].LslShift? then s.operands[i].shift else 0
  }

  function ListAt(s: Spec): bv16 {
    if 0 < |s.operands| && s.operands[0].RegList? then s.operands[0].reglist else 0
  }

  predicate IsRegAt(s: Spec, i: nat) {
    i < |s.operands| && s.operands[i].Reg?
  }

  lemma ByteIsRemainder(x: bv32)
    ensures Byte(x) == x % 256
  {
  }

  // ---- The table

  /** A narrow immediate sum takes three bits with two registers, and eight bits with one. */
  function NarrowChoice(s: Spec): NarrowParts {
    match s.mnemonic
    case ADD => OfAddRT2(AddRT2(RegAt(s, 0), RegAt(s, 2)))
    case ADDS =>
      if IsRegAt(s, 2) then OfAddsRT1(AddsRT1(RegAt(s, 2), RegAt(s, 1), RegAt(s, 0)))
      else if ImmAt(s, 2) < 8 then OfAddsIT1(AddsIT1(ImmAt(s, 2), RegAt(s, 1), RegAt(s, 0)))
      else OfAddsIT2(AddsIT2(RegAt(s, 0), ImmAt(s, 2)))
    case SUBS =>
      if IsRegAt(s, 2) then OfSubsRT1(SubsRT1(RegAt(s, 2), RegAt(s, 1), RegAt(s, 0)))
      else if ImmAt(s, 2) < 8 then OfSubsIT1(SubsIT1(ImmAt(s, 2), RegAt(s, 1), RegAt(s, 0)))
      else OfSubsIT2(SubsIT2(RegAt(s, 0), ImmAt(s, 2)))
    case B =>
      if s.condition == 0 then OfBT2(BT2(ImmAt(s, 0) - 4)) else OfBCondT1(BCondT1(s.condition - 1, ImmAt(s, 0) - 4))
    case BKPT => OfBkptT1(BkptT1(ImmAt(s, 0)))
    case BLX => OfBlxT1(BlxT1(WholeRegAt(s, 0)))
    case BX => OfBxT1(BxT1(WholeRegAt(s, 0)))
    case CMP =>
      if !IsRegAt(s, 1) then OfCmpIT1(CmpIT1(RegAt(s, 0), ImmAt(s, 1)))
      else if RegAt(s, 0) < 8 && RegAt(s, 1) < 8 then OfCmpRT1(CmpRT1(RegAt(s, 1), RegAt(s, 0)))
      else OfCmpRT2(CmpRT2(RegAt(s, 0), RegAt(s, 1)))
    case LDR =>
      if IsRegAt(s, 2) then OfLdrRT1(LdrRT1(RegAt(s, 2), RegAt(s, 1), RegAt(s, 0)))
      else if RegAt(s, 1) == 13 then OfLdrIT2Sp(LdrIT2Sp(RegAt(s, 0), ImmAt(s, 2)))
      else if RegAt(s, 1) == 15 then OfLdrLitT1(LdrLitT1(RegAt(s, 0), ImmAt(s, 2)))
      else OfLdrIT1(LdrIT1(RegAt(s, 0), RegAt(s, 1), ImmAt(s, 2)))
    case MOV => OfMovRT1(MovRT1(RegAt(s, 1), RegAt(s, 0)))
    case MOVS =>
      if IsRegAt(s, 1) then OfMovsRT2(MovsRT2(RegAt(s, 1), RegAt(s, 0)))
      else OfMovsIT1(MovsIT1(RegAt(s, 0), ImmAt(s, 1)))
    case POP => OfPopT1(PopT1(Wide(ListAt(s) >> 15), Wide(ListAt(s) & 0x3fff)))
    case PUSH => OfPushT1(PushT1(Wide((ListAt(s) >> 14) & 1), Wide(ListAt(s) & 0xbfff)))
    case SVC => OfSvcT1(SvcT1(ImmAt(s, 0)))
    case _ => OfUdfT1(UdfT1(ImmAt(s, 0)))
  }

  /** A literal load back takes T2, any other plain offset T3, and the rest T4. */
  function LoadChoice(mode: AddressingMode, rt: bv32, rn: bv32, offset: bv32): WideParts {
    var negative := offset >= 0x8000_0000;
    var distance := if negative then 0 - offset else offset;
    var add: bv32 := if negative then 0 else 1;
    if mode == OFFSET && !negative then OfLdrIT3(LdrIT3(rt, offset, rn))
    else if mode == OFFSET && rn == 15 then OfLdrLitT2(LdrLitT2(rt, distance, 0))
    else
      OfLdrIT4(LdrIT4(rt, if mode == POSTINDEX then 0 else 1, add, if mode == OFFSET then 0 else 1, distance, rn))
  }

  function WideChoice(s: Spec): WideParts {
    match s.mnemonic
    case ADD => OfAddwIT4(AddwIT4(RegAt(s, 0), RegAt(s, 1), ImmAt(s, 2)))
    case ADDW => OfAddwIT4(AddwIT4(RegAt(s, 0), RegAt(s, 1), ImmAt(s, 2)))
    case SUB => OfSubwIT4(SubwIT4(RegAt(s, 0), RegAt(s, 1), ImmAt(s, 2)))
    case SUBW => OfSubwIT4(SubwIT4(RegAt(s, 0), RegAt(s, 1), ImmAt(s, 2)))
    case B =>
      if s.condition == 0 then OfBT4(BT4(ImmAt(s, 0) - 4)) else OfBCondT3(BCondT3(s.condition - 1, ImmAt(s, 0) - 4))
    case BL => OfBlT1(BlT1(ImmAt(s, 0) - 4))
    case LDR =>
      if IsRegAt(s, 2) then OfLdrRT2Lsl(LdrRT2Lsl(RegAt(s, 0), ShiftAt(s, 3), RegAt(s, 2), RegAt(s, 1)))
      else LoadChoice(s.mode, RegAt(s, 0), RegAt(s, 1), ImmAt(s, 2))
    case MOV =>
      if IsRegAt(s, 1) then OfMovRT3(MovRT3(RegAt(s, 0), RegAt(s, 1), 0))
      else OfMovwIT3(MovwIT3(WholeRegAt(s, 0), ImmAt(s, 1)))
    case MOVS => OfMovRT3(MovRT3(RegAt(s, 0), RegAt(s, 1), 1))
    case MOVW => OfMovwIT3(MovwIT3(WholeRegAt(s, 0), ImmAt(s, 1)))
    case POP =>
      if Single(ListAt(s)) then OfPopT3(PopT3(TopBit(ListAt(s))))
      else OfPopT2(PopT2(Wide(ListAt(s) >> 15), Wide((ListAt(s) >> 14) & 1), Wide(ListAt(s) & 0x3fff)))
    case PUSH =>
      if Single(ListAt(s)) then OfPushT3(PushT3(TopBit(ListAt(s))))
      else OfPushT2(PushT2(Wide((ListAt(s) >> 14) & 1), Wide(ListAt(s) & 0xbfff)))
    case _ => OfUdfT2(UdfT2(ImmAt(s, 0)))
  }

  predicate ChoseNarrow(s: Spec, half: bv16) {
    if s.mnemonic == NOP then half == 0xbf00 else EncodeNarrow(NarrowChoice(s)) == Some16(half)
  }

  predicate ChoseWide(s: Spec, word: bv32) {
    if s.mnemonic == NOP then word == 0x8000_f3af else EncodeWide(WideChoice(s)) == Some32(word)
  }

  /** What was stored is what the table says. */
  predicate Chose(s: Spec, r: AsmResult) {
    (r.NarrowSuccess? ==> ChoseNarrow(s, r.half)) && (r.WideSuccess? ==> ChoseWide(s, r.word))
  }

  // ---- Mnemonic by mnemonic

  lemma ChoiceOfAdd(s: Spec)
    requires s.mnemonic == ADD
    ensures Chose(s, AssembleAdd(s))
  {
  }

  lemma ChoiceOfAddw(s: Spec)
    requires s.mnemonic == ADDW
    ensures Chose(s, AssembleAddw(s))
  {
  }

  lemma ChoiceOfSub(s: Spec)
    requires s.mnemonic == SUB
    ensures Chose(s, AssembleSub(s))
  {
  }

  lemma ChoiceOfSubw(s: Spec)
    requires s.mnemonic == SUBW
    ensures Chose(s, AssembleSubw(s))
  {
  }

  /** Of two attempts, the first is for small immediates. */
  lemma ChoiceOfSum(
    s: Spec, p: NarrowParts, q: NarrowParts, first: Encoded16, second: Encoded16, small: bool, same: bool,
    r: AsmResult)
    requires s.mnemonic != NOP && NarrowChoice(s) == if small then p else q
    requires EncodeNarrow(p) == first && EncodeNarrow(q) == second
    requires first.Some16? ==> small
    requires second.Some16? && same && small ==> first.Some16?
    requires r == Try16(first, if same then Result16(second) else InvalidWidth)
    ensures Chose(s, r)
  {
  }

  lemma AddsFirstSmall(imm: bv32, rn: bv32, rd: bv32)
    ensures EncodeAddsIT1(AddsIT1(imm, rn, rd)).Some16? ==> imm < 8
  {
  }

  lemma AddsSmallFirst(imm: bv32, rd: bv32)
    ensures EncodeAddsIT2(AddsIT2(rd, imm)).Some16? && imm < 8 ==> EncodeAddsIT1(AddsIT1(imm, rd, rd)).Some16?
  {
  }

  lemma AddsEntry(s: Spec)
    requires s.mnemonic == ADDS && TwoRegisters(s) && s.operands[2].Imm?
    ensures NarrowChoice(s) ==
      if ImmAt(s, 2) < 8 then OfAddsIT1(AddsIT1(ImmAt(s, 2), RegAt(s, 1), RegAt(s, 0)))
      else OfAddsIT2(AddsIT2(RegAt(s, 0), ImmAt(s, 2)))
  {
  }

  lemma ChoiceOfAddsImmediate(s: Spec, imm: bv32, rn: bv32, rd: bv32, r: AsmResult)
    requires s.mnemonic != NOP
    requires NarrowChoice(s) == if imm < 8 then OfAddsIT1(AddsIT1(imm, rn, rd)) else OfAddsIT2(AddsIT2(rd, imm))
    requires r == Try16(EncodeAddsIT1(AddsIT1(imm, rn, rd)),
                        if rd == rn then Result16(EncodeAddsIT2(AddsIT2(rd, imm))) else InvalidWidth)
    ensures Chose(s, r)
  {
    var p, q := AddsIT1(imm, rn, rd), AddsIT2(rd, imm);
    AddsFirstSmall(imm, rn, rd);
    AddsSmallFirst(imm, rd);
    AddsEncoders(p, q);
    ChoiceOfSum(s, OfAddsIT1(p), OfAddsIT2(q), EncodeAddsIT1(p), EncodeAddsIT2(q), imm < 8, rd == rn, r);
  }

  lemma AddsEncoders(p: AddsIT1, q: AddsIT2)
    ensures EncodeNarrow(OfAddsIT1(p)) == EncodeAddsIT1(p) && EncodeNarrow(OfAddsIT2(q)) == EncodeAddsIT2(q)
  {
  }

  lemma ChoiceOfAddsRegister(s: Spec)
    requires s.mnemonic == ADDS && IsRegAt(s, 2)
    ensures Chose(s, AssembleAdds(s))
  {
  }

  lemma ChoiceOfAdds(s: Spec)
    requires s.mnemonic == ADDS
    ensures Chose(s, AssembleAdds(s))
  {
    if IsRegAt(s, 2) {
      ChoiceOfAddsRegister(s);
    } else if AssembleAdds(s).Success() {
      AddsEntry(s);
      ChoiceOfAddsImmediate(s, ImmAt(s, 2), RegAt(s, 1), RegAt(s, 0), AssembleAdds(s));
    }
  }

  lemma SubsFirstSmall(imm: bv32, rn: bv32, rd: bv32)
    ensures EncodeSubsIT1(SubsIT1(imm, rn, rd)).Some16? ==> imm < 8
  {
  }

  lemma SubsSmallFirst(imm: bv32, rd: bv32)
    ensures EncodeSubsIT2(SubsIT2(rd, imm)).Some16? && imm < 8 ==> EncodeSubsIT1(SubsIT1(imm, rd, rd)).Some16?
  {
  }

  lemma SubsEntry(s: Spec)
    requires s.mnemonic == SUBS && TwoRegisters(s) && s.operands[2].Imm?
    ensures NarrowChoice(s) ==
      if ImmAt(s, 2) < 8 then OfSubsIT1(SubsIT1(ImmAt(s, 2), RegAt(s, 1), RegAt(s, 0)))
      else OfSubsIT2(SubsIT2(RegAt(s, 0), ImmAt(s, 2)))
  {
  }

  lemma ChoiceOfSubsImmediate(s: Spec, imm: bv32, rn: bv32, rd: bv32, r: AsmResult)
    requires s.mnemonic != NOP
    requires NarrowChoice(s) == if imm < 8 then OfSubsIT1(SubsIT1(imm, rn, rd)) else OfSubsIT2(SubsIT2(rd, imm))
    requires r == Try16(EncodeSubsIT1(SubsIT1(imm, rn, rd)),
                        if rd == rn then Result16(EncodeSubsIT2(SubsIT2(rd, imm))) else InvalidWidth)
    ensures Chose(s, r)
  {
    var p, q := SubsIT1(imm, rn, rd), SubsIT2(rd, imm);
    SubsFirstSmall(imm, rn, rd);
    SubsSmallFirst(imm, rd);
    SubsEncoders(p, q);
    ChoiceOfSum(s, OfSubsIT1(p), OfSubsIT2(q), EncodeSubsIT1(p), EncodeSubsIT2(q), imm < 8, rd == rn, r);
  }

  lemma SubsEncoders(p: SubsIT1, q: SubsIT2)
    ensures EncodeNarrow(OfSubsIT1(p)) == EncodeSubsIT1(p) && EncodeNarrow(OfSubsIT2(q)) == EncodeSubsIT2(q)
  {
  }

  lemma ChoiceOfSubsRegister(s: Spec)
    requires s.mnemonic == SUBS && IsRegAt(s, 2)
    ensures Chose(s, AssembleSubs(s))
  {
  }

  lemma ChoiceOfSubs(s: Spec)
    requires s.mnemonic == SUBS
    ensures Chose(s, AssembleSubs(s))
  {
    if IsRegAt(s, 2) {
      ChoiceOfSubsRegister(s);
    } else if AssembleSubs(s).Success() {
      SubsEntry(s);
      ChoiceOfSubsImmediate(s, ImmAt(s, 2), RegAt(s, 1), RegAt(s, 0), AssembleSubs(s));
    }
  }

  lemma NarrowEntry(s: Spec, p: NarrowParts, half: bv16)
    requires s.mnemonic != NOP && NarrowChoice(s) == p && EncodeNarrow(p) == Some16(half)
    ensures ChoseNarrow(s, half)
  {
  }

  lemma WideEntry(s: Spec, p: WideParts, word: bv32)
    requires s.mnemonic != NOP && WideChoice(s) == p && EncodeWide(p) == Some32(word)
    ensures ChoseWide(s, word)
  {
  }

  lemma BranchEntries(s: Spec)
    requires s.mnemonic == B && |s.operands| == 1 && s.operands[0].SignedImm?
    ensures s.condition == 0 ==>
      && NarrowChoice(s) == OfBT2(BT2(ToPc(s.operands[0].simm)))
      && WideChoice(s) == OfBT4(BT4(ToPc(s.operands[0].simm)))
    ensures s.condition != 0 ==>
      && NarrowChoice(s) == OfBCondT1(BCondT1(s.condition - 1, ToPc(s.operands[0].simm)))
      && WideChoice(s) == OfBCondT3(BCondT3(s.condition - 1, ToPc(s.operands[0].simm)))
  {
  }

  lemma ChoiceOfBranch(s: Spec, p: BT2, q: BT4, r: AsmResult)
    requires s.mnemonic != NOP && NarrowChoice(s) == OfBT2(p) && WideChoice(s) == OfBT4(q)
    requires r == AssembleBranch(s, p, q)
    ensures Chose(s, r)
  {
    PicksBranch(s, p, q, r);
    if r.NarrowSuccess? {
      NarrowEntry(s, OfBT2(p), r.half);
    } else if r.WideSuccess? {
      WideEntry(s, OfBT4(q), r.word);
    }
  }

  lemma ChoiceOfConditional(s: Spec, p: BCondT1, q: BCondT3, r: AsmResult)
    requires s.mnemonic != NOP && NarrowChoice(s) == OfBCondT1(p) && WideChoice(s) == OfBCondT3(q)
    requires r == AssembleConditional(s, p, q)
    ensures Chose(s, r)
  {
    PicksConditional(s, p, q, r);
    if r.NarrowSuccess? {
      NarrowEntry(s, OfBCondT1(p), r.half);
    } else if r.WideSuccess? {
      WideEntry(s, OfBCondT3(q), r.word);
    }
  }

  lemma ChoiceOfB(s: Spec)
    requires s.mnemonic == B
    ensures Chose(s, AssembleB(s))
  {
    if |s.operands| == 1 && s.operands[0].SignedImm? {
      var target := ToPc(s.operands[0].simm);
      BranchEntries(s);
      if s.condition == 0 {
        ChoiceOfBranch(s, BT2(target), BT4(target), AssembleB(s));
      } else {
        ChoiceOfConditional(s, BCondT1(s.condition - 1, target), BCondT3(s.condition - 1, target), AssembleB(s));
      }
    }
  }

  lemma CallEntry(s: Spec)
    requires s.mnemonic == BL && |s.operands| == 1 && s.operands[0].SignedImm?
    ensures WideChoice(s) == OfBlT1(BlT1(ToPc(s.operands[0].simm)))
  {
  }

  lemma ChoiceOfCall(s: Spec, p: BlT1, r: AsmResult)
    requires s.mnemonic != NOP && WideChoice(s) == OfBlT1(p) && r == Result32(EncodeBlT1(p))
    ensures Chose(s, r)
  {
    if r.WideSuccess? {
      WideEntry(s, OfBlT1(p), r.word);
    }
  }

  lemma ChoiceOfBl(s: Spec)
    requires s.mnemonic == BL
    ensures Chose(s, AssembleBl(s))
  {
    if |s.operands| == 1 && s.operands[0].SignedImm? {
      CallEntry(s);
      ChoiceOfCall(s, BlT1(ToPc(s.operands[0].simm)), Result32(EncodeBlT1(BlT1(ToPc(s.operands[0].simm)))));
    }
  }

  lemma ChoiceOfBlx(s: Spec)
    requires s.mnemonic == BLX
    ensures Chose(s, AssembleBlx(s))
  {
  }

  lemma ChoiceOfBx(s: Spec)
    requires s.mnemonic == BX
    ensures Chose(s, AssembleBx(s))
  {
  }

  lemma ChoiceOfBkpt(s: Spec)
    requires s.mnemonic == BKPT
    ensures Chose(s, AssembleBkpt(s))
  {
  }

  lemma ChoiceOfSvc(s: Spec)
    requires s.mnemonic == SVC
    ensures Chose(s, AssembleSvc(s))
  {
  }

  lemma ChoiceOfUdf(s: Spec)
    requires s.mnemonic == UDF
    ensures Chose(s, AssembleUdf(s))
  {
  }

  lemma ChoiceOfNop(s: Spec)
    requires s.mnemonic == NOP
    ensures Chose(s, AssembleNop(s))
  {
  }

  lemma ChoiceOfMovw(s: Spec)
    requires s.mnemonic == MOVW
    ensures Chose(s, AssembleMovw(s))
  {
  }

  lemma CompareAttempts(rn: bv32, rm: bv32)
    ensures EncodeCmpRT1(CmpRT1(rm, rn)).Some16? <==> rn < 8 && rm < 8
  {
    CmpRT1Fits(CmpRT1(rm, rn));
  }

  lemma ChoiceOfCmp(s: Spec)
    requires s.mnemonic == CMP
    ensures Chose(s, AssembleCmp(s))
  {
    CompareAttempts(RegAt(s, 0), RegAt(s, 1));
  }

  lemma ChoiceOfMovRegister(s: Spec)
    requires s.mnemonic == MOV && IsRegAt(s, 1)
    ensures Chose(s, AssembleMov(s))
  {
  }

  lemma ChoiceOfMovImmediate(s: Spec)
    requires s.mnemonic == MOV && !IsRegAt(s, 1)
    ensures Chose(s, AssembleMov(s))
  {
  }

  lemma ChoiceOfMovsRegister(s: Spec)
    requires s.mnemonic == MOVS && IsRegAt(s, 1)
    ensures Chose(s, AssembleMovs(s))
  {
  }

  lemma ChoiceOfMovsImmediate(s: Spec)
    requires s.mnemonic == MOVS && !IsRegAt(s, 1)
    ensures Chose(s, AssembleMovs(s))
  {
  }

  // ---- Lists

  lemma PopOneChoice(s: Spec, list: bv16, r: AsmResult)
    requires r == AssemblePop(s) && r.WideSuccess? && s.operands[0] == RegList(list) && Single(list)
    ensures EncodePopT3(PopT3(TopBit(list))) == Some32(r.word)
  {
    CountOne(list);
    SingleTop(list);
  }

  lemma PushOneChoice(s: Spec, list: bv16, r: AsmResult)
    requires r == AssemblePush(s) && r.WideSuccess? && s.operands[0] == RegList(list) && Single(list)
    ensures EncodePushT3(PushT3(TopBit(list))) == Some32(r.word)
  {
    CountOne(list);
    SingleTop(list);
  }

  lemma PopNarrowEntry(s: Spec)
    requires s.mnemonic == POP
    ensures NarrowChoice(s) == OfPopT1(PopT1(Wide(ListAt(s) >> 15), Wide(ListAt(s) & 0x3fff)))
  {
  }

  lemma PopOneEntry(s: Spec)
    requires s.mnemonic == POP && Single(ListAt(s))
    ensures WideChoice(s) == OfPopT3(PopT3(TopBit(ListAt(s))))
  {
  }

  lemma PopManyEntry(s: Spec)
    requires s.mnemonic == POP && !Single(ListAt(s))
    ensures WideChoice(s) ==
      OfPopT2(PopT2(Wide(ListAt(s) >> 15), Wide((ListAt(s) >> 14) & 1), Wide(ListAt(s) & 0x3fff)))
  {
  }

  lemma PushNarrowEntry(s: Spec)
    requires s.mnemonic == PUSH
    ensures NarrowChoice(s) == OfPushT1(PushT1(Wide((ListAt(s) >> 14) & 1), Wide(ListAt(s) & 0xbfff)))
  {
  }

  lemma PushOneEntry(s: Spec)
    requires s.mnemonic == PUSH && Single(ListAt(s))
    ensures WideChoice(s) == OfPushT3(PushT3(TopBit(ListAt(s))))
  {
  }

  lemma PushManyEntry(s: Spec)
    requires s.mnemonic == PUSH && !Single(ListAt(s))
    ensures WideChoice(s) ==
      OfPushT2(PushT2(Wide((ListAt(s) >> 14) & 1), Wide(ListAt(s) & 0xbfff)))
  {
  }

  lemma NarrowPopChosen(s: Spec, r: AsmResult)
    requires s.mnemonic == POP && r == AssemblePop(s) && r.NarrowSuccess?
    requires |s.operands| > 0 && s.operands[0] == RegList(ListAt(s))
    ensures ChoseNarrow(s, r.half)
  {
    PopNarrow(s, ListAt(s), r);
    PopNarrowEntry(s);
    NarrowEntry(s, OfPopT1(PopT1(Wide(ListAt(s) >> 15), Wide(ListAt(s) & 0x3fff))), r.half);
  }

  lemma OnePopChosen(s: Spec, r: AsmResult)
    requires s.mnemonic == POP && r == AssemblePop(s) && r.WideSuccess? && Single(ListAt(s))
    requires |s.operands| > 0 && s.operands[0] == RegList(ListAt(s))
    ensures ChoseWide(s, r.word)
  {
    PopOneChoice(s, ListAt(s), r);
    PopOneEntry(s);
    WideEntry(s, OfPopT3(PopT3(TopBit(ListAt(s)))), r.word);
  }

  lemma ManyPopChosen(s: Spec, r: AsmResult)
    requires s.mnemonic == POP && r == AssemblePop(s) && r.WideSuccess? && !Single(ListAt(s))
    requires |s.operands| > 0 && s.operands[0] == RegList(ListAt(s))
    ensures ChoseWide(s, r.word)
  {
    PopMany(s, ListAt(s), r);
    PopManyEntry(s);
    WideEntry(
      s, OfPopT2(PopT2(Wide(ListAt(s) >> 15), Wide((ListAt(s) >> 14) & 1), Wide(ListAt(s) & 0x3fff))), r.word);
  }

  lemma ChoiceOfPop(s: Spec, r: AsmResult)
    requires s.mnemonic == POP && r == AssemblePop(s) && r.Success()
    ensures Chose(s, r)
  {
    assert s.operands[0] == RegList(ListAt(s));
    if r.NarrowSuccess? {
      NarrowPopChosen(s, r);
    } else if Single(ListAt(s)) {
      OnePopChosen(s, r);
    } else {
      ManyPopChosen(s, r);
    }
  }

  lemma NarrowPushChosen(s: Spec, r: AsmResult)
    requires s.mnemonic == PUSH && r == AssemblePush(s) && r.NarrowSuccess?
    requires |s.operands| > 0 && s.operands[0] == RegList(ListAt(s))
    ensures ChoseNarrow(s, r.half)
  {
    PushNarrow(s, ListAt(s), r);
    PushNarrowEntry(s);
    NarrowEntry(s, OfPushT1(PushT1(Wide((ListAt(s) >> 14) & 1), Wide(ListAt(s) & 0xbfff))), r.half);
  }

  lemma OnePushChosen(s: Spec, r: AsmResult)
    requires s.mnemonic == PUSH && r == AssemblePush(s) && r.WideSuccess? && Single(ListAt(s))
    requires |s.operands| > 0 && s.operands[0] == RegList(ListAt(s))
    ensures ChoseWide(s, r.word)
  {
    PushOneChoice(s, ListAt(s), r);
    PushOneEntry(s);
    WideEntry(s, OfPushT3(PushT3(TopBit(ListAt(s)))), r.word);
  }

  lemma ManyPushChosen(s: Spec, r: AsmResult)
    requires s.mnemonic == PUSH && r == AssemblePush(s) && r.WideSuccess? && !Single(ListAt(s))
    requires |s.operands| > 0 && s.operands[0] == RegList(ListAt(s))
    ensures ChoseWide(s, r.word)
  {
    PushMany(s, ListAt(s), r);
    PushManyEntry(s);
    WideEntry(
      s, OfPushT2(PushT2(Wide((ListAt(s) >> 14) & 1), Wide(ListAt(s) & 0xbfff))), r.word);
  }

  lemma ChoiceOfPush(s: Spec, r: AsmResult)
    requires s.mnemonic == PUSH && r == AssemblePush(s) && r.Success()
    ensures Chose(s, r)
  {
    assert s.operands[0] == RegList(ListAt(s));
    if r.NarrowSuccess? {
      NarrowPushChosen(s, r);
    } else if Single(ListAt(s)) {
      OnePushChosen(s, r);
    } else {
      ManyPushChosen(s, r);
    }
  }

  // ---- Loads

  lemma NegativeIsLarge(x: bv32)
    ensures Negative(x) <==> x >= 0x8000_0000
  {
  }

  lemma ChoiceOfLdrRegister(s: Spec, p: LdrRT1, q: LdrRT2Lsl, r: AsmResult)
    requires s.mnemonic == LDR && IsRegAt(s, 2) && r.Success()
    requires p == LdrRT1(RegAt(s, 2), RegAt(s, 1), RegAt(s, 0))
    requires q == LdrRT2Lsl(RegAt(s, 0), ShiftAt(s, 3), RegAt(s, 2), RegAt(s, 1))
    requires r == AssembleLdrRegister(s, q.rt, q.rn, q.rm, q.lslShiftImm2)
    ensures Chose(s, r)
  {
    PicksLdrRegister(s, p, q, r);
  }

  lemma SignedParts(mode: AddressingMode, rt: bv32, rn: bv32, offset: bv32)
    requires mode != NONE && (mode == OFFSET ==> offset >= 0x8000_0000 && rn != 15)
    ensures LoadChoice(mode, rt, rn, offset) == OfLdrIT4(LdrSignedParts(mode, rt, rn, offset))
  {
    NegativeIsLarge(offset);
  }

  lemma LoadStored(mode: AddressingMode, rt: bv32, rn: bv32, offset: bv32, s: Spec, r: AsmResult)
    requires s.mode == mode != NONE && !(mode == OFFSET && offset < 0x8000_0000)
    requires r == AssembleLdrSigned(s, rt, rn, offset) && r.Success()
    ensures r.WideSuccess? && EncodeWide(LoadChoice(mode, rt, rn, offset)) == Some32(r.word)
  {
    NegativeIsLarge(offset);
    if mode == OFFSET && rn == 15 {
      LiteralOnly(s, rt, offset);
      ResultWord(EncodeLdrLitT2(LdrLitT2(rt, Negated(offset), 0)), r);
    } else {
      SignedIsIndexed(s, rt, rn, offset);
      ResultWord(EncodeLdrIT4(LdrSignedParts(mode, rt, rn, offset)), r);
      SignedParts(mode, rt, rn, offset);
    }
  }

  lemma PlainEntries(s: Spec, rt: bv32, rn: bv32, offset: bv32)
    requires s.mnemonic == LDR && s.mode == OFFSET && offset < 0x8000_0000 && !IsRegAt(s, 2)
    requires rt == RegAt(s, 0) && rn == RegAt(s, 1) && offset == ImmAt(s, 2)
    ensures NarrowChoice(s) ==
      if rn == 13 then OfLdrIT2Sp(LdrIT2Sp(rt, offset))
      else if rn == 15 then OfLdrLitT1(LdrLitT1(rt, offset))
      else OfLdrIT1(LdrIT1(rt, rn, offset))
    ensures WideChoice(s) == OfLdrIT3(LdrIT3(rt, offset, rn))
  {
  }

  lemma PlainNarrow(s: Spec, rt: bv32, rn: bv32, offset: bv32, half: bv16)
    requires s.mnemonic == LDR && s.mode == OFFSET && offset < 0x8000_0000 && !IsRegAt(s, 2)
    requires rt == RegAt(s, 0) && rn == RegAt(s, 1) && offset == ImmAt(s, 2)
    requires EncodeLdrNarrow(rt, rn, offset) == Some16(half)
    ensures ChoseNarrow(s, half)
  {
    PlainEntries(s, rt, rn, offset);
    PicksLdrNarrow(rt, rn, offset);
    if rn == 13 {
      NarrowEntry(s, OfLdrIT2Sp(LdrIT2Sp(rt, offset)), half);
    } else if rn == 15 {
      NarrowEntry(s, OfLdrLitT1(LdrLitT1(rt, offset)), half);
    } else {
      NarrowEntry(s, OfLdrIT1(LdrIT1(rt, rn, offset)), half);
    }
  }

  lemma ChoiceOfLdrPlain(s: Spec, rt: bv32, rn: bv32, offset: bv32, r: AsmResult)
    requires s.mnemonic == LDR && s.mode == OFFSET && offset < 0x8000_0000 && !IsRegAt(s, 2)
    requires rt == RegAt(s, 0) && rn == RegAt(s, 1) && offset == ImmAt(s, 2)
    requires r == AssembleLdrImmediate(s, rt, rn, offset) && r.Success()
    ensures Chose(s, r)
  {
    NegativeIsLarge(offset);
    PicksLdrPlain(s, rt, rn, offset, r);
    if r.NarrowSuccess? {
      PlainNarrow(s, rt, rn, offset, r.half);
    } else {
      PlainEntries(s, rt, rn, offset);
      WideEntry(s, OfLdrIT3(LdrIT3(rt, offset, rn)), r.word);
    }
  }

  lemma SignedEntry(s: Spec, rt: bv32, rn: bv32, offset: bv32, parts: WideParts)
    requires s.mnemonic == LDR && !IsRegAt(s, 2)
    requires rt == RegAt(s, 0) && rn == RegAt(s, 1) && offset == ImmAt(s, 2)
    requires parts == LoadChoice(s.mode, rt, rn, offset)
    ensures WideChoice(s) == parts
  {
  }

  lemma SignedStored(s: Spec, parts: WideParts, r: AsmResult)
    requires s.mnemonic == LDR && parts == WideChoice(s)
    requires r.WideSuccess? && EncodeWide(parts) == Some32(r.word)
    ensures Chose(s, r)
  {
    WideEntry(s, parts, r.word);
  }

  lemma ChoiceOfLdrSigned(s: Spec, rt: bv32, rn: bv32, offset: bv32, r: AsmResult)
    requires s.mnemonic == LDR && s.mode != NONE && !(s.mode == OFFSET && offset < 0x8000_0000) && !IsRegAt(s, 2)
    requires rt == RegAt(s, 0) && rn == RegAt(s, 1) && offset == ImmAt(s, 2)
    requires r == AssembleLdrSigned(s, rt, rn, offset) && r.Success()
    ensures Chose(s, r)
  {
    var parts := LoadChoice(s.mode, rt, rn, offset);
    LoadStored(s.mode, rt, rn, offset, s, r);
    SignedEntry(s, rt, rn, offset, parts);
    SignedStored(s, parts, r);
  }

  lemma ChoiceOfLdr(s: Spec)
    requires s.mnemonic == LDR && AssembleLdr(s).Success()
    ensures Chose(s, AssembleLdr(s))
  {
    var rt, rn := RegAt(s, 0), RegAt(s, 1);
    if s.operands[2].Reg? {
      ChoiceOfLdrRegister(
        s, LdrRT1(RegAt(s, 2), rn, rt), LdrRT2Lsl(rt, ShiftAt(s, 3), RegAt(s, 2), rn), AssembleLdr(s));
    } else {
      NegativeIsLarge(ImmAt(s, 2));
      if s.mode == OFFSET && ImmAt(s, 2) < 0x8000_0000 {
        ChoiceOfLdrPlain(s, rt, rn, ImmAt(s, 2), AssembleLdr(s));
      } else {
        ChoiceOfLdrSigned(s, rt, rn, ImmAt(s, 2), AssembleLdr(s));
      }
    }
  }

  // ---- The theorem

  /** Whatever assembles is stored as the table has it. */
  lemma StoresChoice(s: Spec)
    requires Assemble(s).Success()
    ensures Assemble(s).NarrowSuccess? ==> ChoseNarrow(s, Assemble(s).half)
    ensures Assemble(s).WideSuccess? ==> ChoseWide(s, Assemble(s).word)
  {
    assert Chose(s, Assemble(s)) by {
      match s.mnemonic
      case ADD => ChoiceOfAdd(s);
      case ADDS => ChoiceOfAdds(s);
      case ADDW => ChoiceOfAddw(s);
      case B => ChoiceOfB(s);
      case BKPT => ChoiceOfBkpt(s);
      case BL => ChoiceOfBl(s);
      case BLX => ChoiceOfBlx(s);
      case BX => ChoiceOfBx(s);
      case CMP => ChoiceOfCmp(s);
      case LDR => ChoiceOfLdr(s);
      case NOP => ChoiceOfNop(s);
      case MOV => if IsRegAt(s, 1) { ChoiceOfMovRegister(s); } else { ChoiceOfMovImmediate(s); }
      case MOVS => if IsRegAt(s, 1) { ChoiceOfMovsRegister(s); } else { ChoiceOfMovsImmediate(s); }
      case MOVW => ChoiceOfMovw(s);
      case POP => ChoiceOfPop(s, AssemblePop(s));
      case PUSH => ChoiceOfPush(s, AssemblePush(s));
      case SUB => ChoiceOfSub(s);
      case SUBS => ChoiceOfSubs(s);
      case SUBW => ChoiceOfSubw(s);
      case SVC => ChoiceOfSvc(s);
      case UDF => ChoiceOfUdf(s);
    }
  }

  /** So what is stored is the word of the encoding's diagram with the operands in their places, where
      the fields keep them. */
  lemma StoresDiagram(s: Spec)
    requires Assemble(s).Success() && s.mnemonic != NOP
    ensures Assemble(s).NarrowSuccess? && KeptNarrow(NarrowChoice(s)) ==>
      FitsNarrow(NarrowChoice(s), Assemble(s).half)
    ensures Assemble(s).WideSuccess? && KeptWide(WideChoice(s)) ==>
      FitsWide(WideChoice(s), Assemble(s).word)
  {
    StoresChoice(s);
    if Assemble(s).NarrowSuccess? && KeptNarrow(NarrowChoice(s)) {
      NarrowStores(NarrowChoice(s), Assemble(s).half);
    } else if Assemble(s).WideSuccess? && KeptWide(WideChoice(s)) {
      WideStores(WideChoice(s), Assemble(s).word);
    }
  }
}
