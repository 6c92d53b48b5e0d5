// What the disassembler reads each encoding as, from a table of mnemonics and operand orders: every
// word reads as what the table says of the encoding that accepts it, and a word that none accepts
// reads as nothing.

module Readings {
  import opened T32Encoding
  import opened ThumbAsm
  import opened Disassembly
  import opened Overlaps
  import opened Encodings

  /** Registers with LR and PC put back in their places. */
  function ListOf(regs: bv32, lr: bv32, pc: bv32): bv16 {
    Low16(regs) | (if lr == 1 then 0x4000 else 0) | (if pc == 1 then 0x8000 else 0)
  }

  // ---- The table

  function NarrowSpec(p: NarrowParts): Spec {
    match p
    case OfAddsIT1(q) => Spec(ADDS, 0, NARROW, NONE, [Reg(q.rd), Reg(q.rn), Imm(q.imm3)])
    case OfAddsIT2(q) => Spec(ADDS, 0, NARROW, NONE, [Reg(q.rdn), Reg(q.rdn), Imm(q.imm8)])
    case OfAddsRT1(q) => Spec(ADDS, 0, NARROW, NONE, [Reg(q.rd), Reg(q.rn), Reg(q.rm)])
    case OfAddRT2(q) => Spec(ADD, 0, NARROW, NONE, [Reg(q.rdn), Reg(q.rdn), Reg(q.rm)])
    case OfBCondT1(q) => Spec(B, q.cond + 1, NARROW, NONE, [SignedImm(q.simm8 + 4)])
    case OfBT2(q) => Spec(B, 0, NARROW, NONE, [SignedImm(q.simm11 + 4)])
    case OfBkptT1(q) => Spec(BKPT, 0, NARROW, NONE, [Imm(q.imm8)])
    case OfBlxT1(q) => Spec(BLX, 0, NARROW, NONE, [Reg(q.rm)])
    case OfBxT1(q) => Spec(BX, 0, NARROW, NONE, [Reg(q.rm)])
    case OfCmpIT1(q) => Spec(CMP, 0, NARROW, NONE, [Reg(q.rn), Imm(q.imm8)])
    case OfCmpRT1(q) => Spec(CMP, 0, NARROW, NONE, [Reg(q.rn), Reg(q.rm)])
    case OfCmpRT2(q) => Spec(CMP, 0, NARROW, NONE, [Reg(q.rn), Reg(q.rm)])
    case OfLdrIT1(q) => Spec(LDR, 0, NARROW, OFFSET, [Reg(q.rt), Reg(q.rn), Imm(q.imm7)])
    case OfLdrIT2Sp(q) => Spec(LDR, 0, NARROW, OFFSET, [Reg(q.rt), Reg(13), Imm(q.imm10)])
    case OfLdrLitT1(q) => Spec(LDR, 0, NARROW, OFFSET, [Reg(q.rt), Reg(15), Imm(q.imm10)])
    case OfLdrRT1(q) => Spec(LDR, 0, NARROW, OFFSET, [Reg(q.rt), Reg(q.rn), Reg(q.rm)])
    case OfMovsIT1(q) => Spec(MOVS, 0, NARROW, NONE, [Reg(q.rd), Imm(q.imm8)])
    case OfMovRT1(q) => Spec(MOV, 0, NARROW, NONE, [Reg(q.rd), Reg(q.rm)])
    case OfMovsRT2(q) => Spec(MOVS, 0, NARROW, NONE, [Reg(q.rd), Reg(q.rm)])
    case OfPopT1(q) => Spec(POP, 0, NARROW, NONE, [RegList(ListOf(q.regs, 0, q.pc))])
    case OfPushT1(q) => Spec(PUSH, 0, NARROW, NONE, [RegList(ListOf(q.regs, q.lr, 0))])
    case OfSubsIT1(q) => Spec(SUBS, 0, NARROW, NONE, [Reg(q.rd), Reg(q.rn), Imm(q.imm3)])
    case OfSubsIT2(q) => Spec(SUBS, 0, NARROW, NONE, [Reg(q.rdn), Reg(q.rdn), Imm(q.imm8)])
    case OfSubsRT1(q) => Spec(SUBS, 0, NARROW, NONE, [Reg(q.rd), Reg(q.rn), Reg(q.rm)])
    case OfSvcT1(q) => Spec(SVC, 0, NARROW, NONE, [Imm(q.imm8)])
    case OfUdfT1(q) => Spec(UDF, 0, NARROW, NONE, [Imm(q.imm8)])
  }

  function OffsetOf(magnitude: bv32, add: bv32): Operand {
    SignedImm(if add == 1 then magnitude else 0 - magnitude)
  }

  /** An access that neither indexes nor writes back is taken for unreachable. */
  function IndexedBy(index: bool, writeback: bool, operands: seq<Operand>): DisResult {
    if index && writeback then Decoded(Spec(LDR, 0, WIDE, PREINDEX, operands))
    else if writeback then Decoded(Spec(LDR, 0, WIDE, POSTINDEX, operands))
    else if index then Decoded(Spec(LDR, 0, WIDE, OFFSET, operands))
    else AssertFailed
  }

  /** P, U and W of LDR (immediate) T4. */
  function IndexedReading(q: LdrIT4): DisResult {
    IndexedBy(q.index == 1, q.writeback == 1, [Reg(q.rt), Reg(q.rn), OffsetOf(q.imm8, q.add)])
  }

  function WideSpec(p: WideParts): DisResult {
    match p
    case OfAddwIT4(q) => Decoded(Spec(ADDW, 0, WIDE, NONE, [Reg(q.rd), Reg(q.rn), Imm(q.imm12)]))
    case OfBCondT3(q) => Decoded(Spec(B, q.cond + 1, WIDE, NONE, [SignedImm(q.simm21 + 4)]))
    case OfBT4(q) => Decoded(Spec(B, 0, WIDE, NONE, [SignedImm(q.simm25 + 4)]))
    case OfBlT1(q) => Decoded(Spec(BL, 0, WIDE, NONE, [SignedImm(q.simm25 + 4)]))
    case OfLdrIT3(q) => Decoded(Spec(LDR, 0, WIDE, OFFSET, [Reg(q.rt), Reg(q.rn), Imm(q.imm12)]))
    case OfLdrIT4(q) => IndexedReading(q)
    case OfLdrLitT2(q) =>
      var offset := SignedImm(if q.add == 1 then q.imm12 else 0 - q.imm12);
      Decoded(Spec(LDR, 0, WIDE, OFFSET, [Reg(q.rt), Reg(15), offset]))
    case OfLdrRT2Lsl(q) =>
      Decoded(Spec(LDR, 0, WIDE, OFFSET, [Reg(q.rt), Reg(q.rn), Reg(q.rm), LslShift(q.lslShiftImm2)]))
    case OfMovwIT3(q) => Decoded(Spec(MOVW, 0, WIDE, NONE, [Reg(q.rd), Imm(q.imm16)]))
    case OfMovRT3(q) =>
      Decoded(Spec(if q.setflags == 1 then MOVS else MOV, 0, WIDE, NONE, [Reg(q.rd), Reg(q.rm)]))
    case OfPopT2(q) => Decoded(Spec(POP, 0, WIDE, NONE, [RegList(ListOf(q.regs, q.lr, q.pc))]))
    case OfPopT3(q) => Decoded(Spec(POP, 0, WIDE, NONE, [RegList(OneHot(q.rt))]))
    case OfPushT2(q) => Decoded(Spec(PUSH, 0, WIDE, NONE, [RegList(ListOf(q.regs, q.lr, 0))]))
    case OfPushT3(q) => Decoded(Spec(PUSH, 0, WIDE, NONE, [RegList(OneHot(q.rt))]))
    case OfSubwIT4(q) => Decoded(Spec(SUBW, 0, WIDE, NONE, [Reg(q.rd), Reg(q.rn), Imm(q.imm12)]))
    case OfUdfT2(q) => Decoded(Spec(UDF, 0, WIDE, NONE, [Imm(q.imm16)]))
  }

  /** A list of one register is a power of two. */
  lemma OneHotDoubles(r: bv32)
    ensures OneHot(0) == 1
    ensures r < 15 ==> OneHot(r + 1) == 2 * OneHot(r)
  {
    if r < 15 {
      assert r + 1 <= 15;
    }
  }

  function Nothing(width: Width): DisResult {
    Decoded(Spec(UNKNOWN, 0, width, NONE, []))
  }

  function NarrowReading(e: Narrow, w: bv16): DisResult {
    if e.NoNarrow? then Nothing(NARROW)
    else if e.NNopT1? then Decoded(Spec(NOP, 0, NARROW, NONE, []))
    else Decoded(NarrowSpec(DecodeNarrow(e, w)))
  }

  function WideReading(e: WideKind, w: bv32): DisResult {
    if e.NoWide? then Nothing(WIDE)
    else if e.WNopT2? then Decoded(Spec(NOP, 0, WIDE, NONE, []))
    else WideSpec(DecodeWide(e, w))
  }

  // ---- Narrow words

  lemma JoinsPop(regs: bv32, lr: bv32, pc: bv32)
    requires lr < 2 && pc < 2
    ensures Low16(regs | (lr << 14) | (pc << 15)) == ListOf(regs, lr, pc)
  {
    if lr == 0 {
      if pc == 0 {
      } else {
      }
    } else {
      if pc == 0 {
      } else {
      }
    }
  }

  lemma JoinsPush(regs: bv32, lr: bv32)
    requires lr < 2
    ensures Low16(regs | (lr << 14)) == ListOf(regs, lr, 0)
  {
    if lr == 0 {
    } else {
    }
  }

  lemma JoinsNarrowPop(regs: bv32, pc: bv32)
    requires pc < 2
    ensures Low16(regs | (pc << 15)) == ListOf(regs, 0, pc)
  {
    if pc == 0 {
    } else {
    }
  }

  lemma SmallFields16(w: bv16)
    ensures DecodePopT1(w).pc < 2 && DecodePushT1(w).lr < 2
  {
  }

  lemma ConditionBelow16(w: bv16)
    ensures DecodeBCondT1(w).cond < 16
    ensures DecodeBCondT1(w).cond != 14 && DecodeBCondT1(w).cond != 15 ==> DecodeBCondT1(w).cond < 14
  {
  }

  /** Another encoding, tried before, takes the word. */
  predicate Claimed16(e: Narrow, w: bv16) {
    e.NBCondT1? && (Accepts16(NUdfT1, w) || Accepts16(NSvcT1, w))
  }

  predicate ReadsNarrow(e: Narrow, w: bv16) {
    DisassembleNarrow(w) == NarrowReading(e, w) && DisassembleNarrow(w) != Nothing(NARROW)
  }

  lemma AddsIT1Table(d: DisResult, q: AddsIT1)
    requires d == Plain(ADDS, NARROW, [Reg(q.rd), Reg(q.rn), Imm(q.imm3)])
    ensures d == Decoded(NarrowSpec(OfAddsIT1(q))) && d != Nothing(NARROW)
  {
  }

  lemma AddsIT2Table(d: DisResult, q: AddsIT2)
    requires d == Plain(ADDS, NARROW, [Reg(q.rdn), Reg(q.rdn), Imm(q.imm8)])
    ensures d == Decoded(NarrowSpec(OfAddsIT2(q))) && d != Nothing(NARROW)
  {
  }

  lemma AddsRT1Table(d: DisResult, q: AddsRT1)
    requires d == Plain(ADDS, NARROW, [Reg(q.rd), Reg(q.rn), Reg(q.rm)])
    ensures d == Decoded(NarrowSpec(OfAddsRT1(q))) && d != Nothing(NARROW)
  {
  }

  lemma AddRT2Table(d: DisResult, q: AddRT2)
    requires d == Plain(ADD, NARROW, [Reg(q.rdn), Reg(q.rdn), Reg(q.rm)])
    ensures d == Decoded(NarrowSpec(OfAddRT2(q))) && d != Nothing(NARROW)
  {
  }

  lemma BCondT1Table(d: DisResult, q: BCondT1)
    requires d == Conditional(q.cond, NARROW, q.simm8)
    ensures d == Decoded(NarrowSpec(OfBCondT1(q))) && d != Nothing(NARROW)
  {
  }

  lemma BT2Table(d: DisResult, q: BT2)
    requires d == Branches(B, NARROW, q.simm11)
    ensures d == Decoded(NarrowSpec(OfBT2(q))) && d != Nothing(NARROW)
  {
  }

  lemma BkptT1Table(d: DisResult, q: BkptT1)
    requires d == Plain(BKPT, NARROW, [Imm(q.imm8)])
    ensures d == Decoded(NarrowSpec(OfBkptT1(q))) && d != Nothing(NARROW)
  {
  }

  lemma BlxT1Table(d: DisResult, q: BlxT1)
    requires d == Plain(BLX, NARROW, [Reg(q.rm)])
    ensures d == Decoded(NarrowSpec(OfBlxT1(q))) && d != Nothing(NARROW)
  {
  }

  lemma BxT1Table(d: DisResult, q: BxT1)
    requires d == Plain(BX, NARROW, [Reg(q.rm)])
    ensures d == Decoded(NarrowSpec(OfBxT1(q))) && d != Nothing(NARROW)
  {
  }

  lemma CmpIT1Table(d: DisResult, q: CmpIT1)
    requires d == Plain(CMP, NARROW, [Reg(q.rn), Imm(q.imm8)])
    ensures d == Decoded(NarrowSpec(OfCmpIT1(q))) && d != Nothing(NARROW)
  {
  }

  lemma CmpRT1Table(d: DisResult, q: CmpRT1)
    requires d == Plain(CMP, NARROW, [Reg(q.rn), Reg(q.rm)])
    ensures d == Decoded(NarrowSpec(OfCmpRT1(q))) && d != Nothing(NARROW)
  {
  }

  lemma CmpRT2Table(d: DisResult, q: CmpRT2)
    requires d == Plain(CMP, NARROW, [Reg(q.rn), Reg(q.rm)])
    ensures d == Decoded(NarrowSpec(OfCmpRT2(q))) && d != Nothing(NARROW)
  {
  }

  lemma LdrIT1Table(d: DisResult, q: LdrIT1)
    requires d == Loads(NARROW, OFFSET, [Reg(q.rt), Reg(q.rn), Imm(q.imm7)])
    ensures d == Decoded(NarrowSpec(OfLdrIT1(q))) && d != Nothing(NARROW)
  {
  }

  lemma LdrIT2SpTable(d: DisResult, q: LdrIT2Sp)
    requires d == Loads(NARROW, OFFSET, [Reg(q.rt), Reg(13), Imm(q.imm10)])
    ensures d == Decoded(NarrowSpec(OfLdrIT2Sp(q))) && d != Nothing(NARROW)
  {
  }

  lemma LdrLitT1Table(d: DisResult, q: LdrLitT1)
    requires d == Loads(NARROW, OFFSET, [Reg(q.rt), Reg(15), Imm(q.imm10)])
    ensures d == Decoded(NarrowSpec(OfLdrLitT1(q))) && d != Nothing(NARROW)
  {
  }

  lemma LdrRT1Table(d: DisResult, q: LdrRT1)
    requires d == Loads(NARROW, OFFSET, [Reg(q.rt), Reg(q.rn), Reg(q.rm)])
    ensures d == Decoded(NarrowSpec(OfLdrRT1(q))) && d != Nothing(NARROW)
  {
  }

  lemma MovsIT1Table(d: DisResult, q: MovsIT1)
    requires d == Plain(MOVS, NARROW, [Reg(q.rd), Imm(q.imm8)])
    ensures d == Decoded(NarrowSpec(OfMovsIT1(q))) && d != Nothing(NARROW)
  {
  }

  lemma MovRT1Table(d: DisResult, q: MovRT1)
    requires d == Plain(MOV, NARROW, [Reg(q.rd), Reg(q.rm)])
    ensures d == Decoded(NarrowSpec(OfMovRT1(q))) && d != Nothing(NARROW)
  {
  }

  lemma MovsRT2Table(d: DisResult, q: MovsRT2)
    requires d == Plain(MOVS, NARROW, [Reg(q.rd), Reg(q.rm)])
    ensures d == Decoded(NarrowSpec(OfMovsRT2(q))) && d != Nothing(NARROW)
  {
  }

  lemma SubsIT1Table(d: DisResult, q: SubsIT1)
    requires d == Plain(SUBS, NARROW, [Reg(q.rd), Reg(q.rn), Imm(q.imm3)])
    ensures d == Decoded(NarrowSpec(OfSubsIT1(q))) && d != Nothing(NARROW)
  {
  }

  lemma SubsIT2Table(d: DisResult, q: SubsIT2)
    requires d == Plain(SUBS, NARROW, [Reg(q.rdn), Reg(q.rdn), Imm(q.imm8)])
    ensures d == Decoded(NarrowSpec(OfSubsIT2(q))) && d != Nothing(NARROW)
  {
  }

  lemma SubsRT1Table(d: DisResult, q: SubsRT1)
    requires d == Plain(SUBS, NARROW, [Reg(q.rd), Reg(q.rn), Reg(q.rm)])
    ensures d == Decoded(NarrowSpec(OfSubsRT1(q))) && d != Nothing(NARROW)
  {
  }

  lemma SvcT1Table(d: DisResult, q: SvcT1)
    requires d == Plain(SVC, NARROW, [Imm(q.imm8)])
    ensures d == Decoded(NarrowSpec(OfSvcT1(q))) && d != Nothing(NARROW)
  {
  }

  lemma UdfT1Table(d: DisResult, q: UdfT1)
    requires d == Plain(UDF, NARROW, [Imm(q.imm8)])
    ensures d == Decoded(NarrowSpec(OfUdfT1(q))) && d != Nothing(NARROW)
  {
  }

  lemma AddsIT1Reads(w: bv16)
    requires MatchAddsIT1(w)
    ensures ReadsNarrow(NAddsIT1, w)
  {
    ChainAdds16(w);
    AddsIT1Table(DisassembleNarrow(w), DecodeAddsIT1(w));
  }

  lemma AddsIT2Reads(w: bv16)
    requires MatchAddsIT2(w)
    ensures ReadsNarrow(NAddsIT2, w)
  {
    ChainAdds16(w);
    AddsIT2Table(DisassembleNarrow(w), DecodeAddsIT2(w));
  }

  lemma AddsRT1Reads(w: bv16)
    requires MatchAddsRT1(w)
    ensures ReadsNarrow(NAddsRT1, w)
  {
    ChainAdds16(w);
    AddsRT1Table(DisassembleNarrow(w), DecodeAddsRT1(w));
  }

  lemma AddRT2Reads(w: bv16)
    requires MatchAddRT2(w)
    ensures ReadsNarrow(NAddRT2, w)
  {
    ChainAdds16(w);
    AddRT2Table(DisassembleNarrow(w), DecodeAddRT2(w));
  }

  lemma BCondT1Reads(w: bv16)
    requires MatchBCondT1(w) && !Claimed16(NBCondT1, w)
    ensures ReadsNarrow(NBCondT1, w)
  {
    ChainBCondT1(w);
    ConditionBelow16(w);
    BCondT1Table(DisassembleNarrow(w), DecodeBCondT1(w));
  }

  lemma BT2Reads(w: bv16)
    requires MatchBT2(w)
    ensures ReadsNarrow(NBT2, w)
  {
    ChainBT2(w);
    BT2Table(DisassembleNarrow(w), DecodeBT2(w));
  }

  lemma BkptT1Reads(w: bv16)
    requires MatchBkptT1(w)
    ensures ReadsNarrow(NBkptT1, w)
  {
    ChainBranches16(w);
    BkptT1Table(DisassembleNarrow(w), DecodeBkptT1(w));
  }

  lemma BlxT1Reads(w: bv16)
    requires MatchBlxT1(w)
    ensures ReadsNarrow(NBlxT1, w)
  {
    ChainBranches16(w);
    BlxT1Table(DisassembleNarrow(w), DecodeBlxT1(w));
  }

  lemma BxT1Reads(w: bv16)
    requires MatchBxT1(w)
    ensures ReadsNarrow(NBxT1, w)
  {
    ChainBranches16(w);
    BxT1Table(DisassembleNarrow(w), DecodeBxT1(w));
  }

  lemma CmpIT1Reads(w: bv16)
    requires MatchCmpIT1(w)
    ensures ReadsNarrow(NCmpIT1, w)
  {
    ChainMoves16(w);
    CmpIT1Table(DisassembleNarrow(w), DecodeCmpIT1(w));
  }

  lemma CmpRT1Reads(w: bv16)
    requires MatchCmpRT1(w)
    ensures ReadsNarrow(NCmpRT1, w)
  {
    ChainMoves16(w);
    CmpRT1Table(DisassembleNarrow(w), DecodeCmpRT1(w));
  }

  lemma CmpRT2Reads(w: bv16)
    requires MatchCmpRT2(w)
    ensures ReadsNarrow(NCmpRT2, w)
  {
    ChainMoves16(w);
    CmpRT2Table(DisassembleNarrow(w), DecodeCmpRT2(w));
  }

  lemma LdrIT1Reads(w: bv16)
    requires MatchLdrIT1(w)
    ensures ReadsNarrow(NLdrIT1, w)
  {
    ChainLoads16(w);
    LdrIT1Table(DisassembleNarrow(w), DecodeLdrIT1(w));
  }

  lemma LdrIT2SpReads(w: bv16)
    requires MatchLdrIT2Sp(w)
    ensures ReadsNarrow(NLdrIT2Sp, w)
  {
    ChainLoads16(w);
    LdrIT2SpTable(DisassembleNarrow(w), DecodeLdrIT2Sp(w));
  }

  lemma LdrLitT1Reads(w: bv16)
    requires MatchLdrLitT1(w)
    ensures ReadsNarrow(NLdrLitT1, w)
  {
    ChainLoads16(w);
    LdrLitT1Table(DisassembleNarrow(w), DecodeLdrLitT1(w));
  }

  lemma LdrRT1Reads(w: bv16)
    requires MatchLdrRT1(w)
    ensures ReadsNarrow(NLdrRT1, w)
  {
    ChainLoads16(w);
    LdrRT1Table(DisassembleNarrow(w), DecodeLdrRT1(w));
  }

  lemma MovsIT1Reads(w: bv16)
    requires MatchMovsIT1(w)
    ensures ReadsNarrow(NMovsIT1, w)
  {
    ChainMoves16(w);
    MovsIT1Table(DisassembleNarrow(w), DecodeMovsIT1(w));
  }

  lemma MovRT1Reads(w: bv16)
    requires MatchMovRT1(w)
    ensures ReadsNarrow(NMovRT1, w)
  {
    ChainMoves16(w);
    MovRT1Table(DisassembleNarrow(w), DecodeMovRT1(w));
  }

  lemma MovsRT2Reads(w: bv16)
    requires MatchMovsRT2(w)
    ensures ReadsNarrow(NMovsRT2, w)
  {
    ChainMoves16(w);
    MovsRT2Table(DisassembleNarrow(w), DecodeMovsRT2(w));
  }

  lemma PopT1Reads(w: bv16)
    requires MatchPopT1(w)
    ensures ReadsNarrow(NPopT1, w)
  {
    ChainLoads16(w);
    SmallFields16(w);
    JoinsNarrowPop(DecodePopT1(w).regs, DecodePopT1(w).pc);
  }

  lemma PushT1Reads(w: bv16)
    requires MatchPushT1(w)
    ensures ReadsNarrow(NPushT1, w)
  {
    ChainLoads16(w);
    SmallFields16(w);
    JoinsPush(DecodePushT1(w).regs, DecodePushT1(w).lr);
  }

  lemma SubsIT1Reads(w: bv16)
    requires MatchSubsIT1(w)
    ensures ReadsNarrow(NSubsIT1, w)
  {
    ChainSubs16(w);
    SubsIT1Table(DisassembleNarrow(w), DecodeSubsIT1(w));
  }

  lemma SubsIT2Reads(w: bv16)
    requires MatchSubsIT2(w)
    ensures ReadsNarrow(NSubsIT2, w)
  {
    ChainSubs16(w);
    SubsIT2Table(DisassembleNarrow(w), DecodeSubsIT2(w));
  }

  lemma SubsRT1Reads(w: bv16)
    requires MatchSubsRT1(w)
    ensures ReadsNarrow(NSubsRT1, w)
  {
    ChainSubs16(w);
    SubsRT1Table(DisassembleNarrow(w), DecodeSubsRT1(w));
  }

  lemma SvcT1Reads(w: bv16)
    requires MatchSvcT1(w)
    ensures ReadsNarrow(NSvcT1, w)
  {
    ChainBranches16(w);
    SvcT1Table(DisassembleNarrow(w), DecodeSvcT1(w));
  }

  lemma UdfT1Reads(w: bv16)
    requires MatchUdfT1(w)
    ensures ReadsNarrow(NUdfT1, w)
  {
    ChainBranches16(w);
    UdfT1Table(DisassembleNarrow(w), DecodeUdfT1(w));
  }

  lemma NopT1Reads(w: bv16)
    requires MatchNopT1(w)
    ensures ReadsNarrow(NNopT1, w)
  {
    ChainMoves16(w);
  }

  /** Every halfword that an encoding accepts reads as the table says, unless a trap claims it. */
  lemma NarrowReads(e: Narrow, w: bv16)
    requires Accepts16(e, w) && !Claimed16(e, w)
    ensures DisassembleNarrow(w) == NarrowReading(e, w) && DisassembleNarrow(w) != Nothing(NARROW)
  {
    assert ReadsNarrow(e, w) by {
      match e
      case NAddsIT1 => AddsIT1Reads(w);
      case NAddsIT2 => AddsIT2Reads(w);
      case NAddsRT1 => AddsRT1Reads(w);
      case NAddRT2 => AddRT2Reads(w);
      case NBCondT1 => BCondT1Reads(w);
      case NBT2 => BT2Reads(w);
      case NBkptT1 => BkptT1Reads(w);
      case NBlxT1 => BlxT1Reads(w);
      case NBxT1 => BxT1Reads(w);
      case NCmpIT1 => CmpIT1Reads(w);
      case NCmpRT1 => CmpRT1Reads(w);
      case NCmpRT2 => CmpRT2Reads(w);
      case NLdrIT1 => LdrIT1Reads(w);
      case NLdrIT2Sp => LdrIT2SpReads(w);
      case NLdrLitT1 => LdrLitT1Reads(w);
      case NLdrRT1 => LdrRT1Reads(w);
      case NMovsIT1 => MovsIT1Reads(w);
      case NMovRT1 => MovRT1Reads(w);
      case NMovsRT2 => MovsRT2Reads(w);
      case NPopT1 => PopT1Reads(w);
      case NPushT1 => PushT1Reads(w);
      case NSubsIT1 => SubsIT1Reads(w);
      case NSubsIT2 => SubsIT2Reads(w);
      case NSubsRT1 => SubsRT1Reads(w);
      case NSvcT1 => SvcT1Reads(w);
      case NUdfT1 => UdfT1Reads(w);
      case NNopT1 => NopT1Reads(w);
    }
  }

  lemma NothingRead16(w: bv16)
    requires First16(w).NoNarrow?
    ensures DisassembleNarrow(w) == Nothing(NARROW)
  {
  }

  lemma FirstAccepts16(w: bv16)
    ensures !First16(w).NoNarrow? ==> Accepts16(First16(w), w) && !Claimed16(First16(w), w)
  {
  }

  lemma FirstOfAny16(e: Narrow, w: bv16)
    requires Accepts16(e, w)
    ensures !First16(w).NoNarrow?
  {
    FirstOrShadowed16(e, w);
  }

  predicate SomeAccepts16(w: bv16) {
    exists e :: Accepts16(e, w)
  }

  predicate ReadsByTable16(w: bv16) {
    exists e :: Accepts16(e, w) && DisassembleNarrow(w) == NarrowReading(e, w)
  }

  /** A halfword reads as nothing if and only if no encoding accepts it, and otherwise as what the
      table says of one that does. */
  lemma NarrowUnknown(w: bv16)
    ensures DisassembleNarrow(w) == Nothing(NARROW) <==> forall e :: !Accepts16(e, w)
    ensures SomeAccepts16(w) ==> ReadsByTable16(w)
  {
    var first := First16(w);
    if first.NoNarrow? {
      NothingRead16(w);
      forall e ensures !Accepts16(e, w) {
        if Accepts16(e, w) {
          FirstOfAny16(e, w);
        }
      }
    } else {
      FirstAccepts16(w);
      NarrowReads(first, w);
    }
  }

  // ---- Wide words

  predicate Claimed32(e: WideKind, w: bv32) {
    || (e.WBCondT3? && (Accepts32(WUdfT2, w) || Accepts32(WNopT2, w)))
    || (e.WLdrLitT2? && (Accepts32(WLdrIT3, w) || Accepts32(WLdrIT4, w)))
    || (e.WLdrRT2Lsl? && Accepts32(WLdrLitT2, w))
    || (e.WPopT3? && Accepts32(WLdrIT4, w))
  }

  predicate ReadsWide(e: WideKind, w: bv32) {
    DisassembleWide(w) == WideReading(e, w) && DisassembleWide(w) != Nothing(WIDE)
  }

  lemma SmallFields32(w: bv32)
    ensures DecodePopT2(w).lr < 2 && DecodePopT2(w).pc < 2 && DecodePushT2(w).lr < 2
    ensures DecodeMovRT3(w).setflags < 2 && DecodeLdrLitT2(w).add < 2
    ensures var p := DecodeLdrIT4(w); p.index < 2 && p.add < 2 && p.writeback < 2
  {
  }

  lemma IndexedReads(q: LdrIT4)
    requires q.index < 2 && q.add < 2 && q.writeback < 2
    ensures DisassembleLdrIT4(q) == IndexedReading(q)
  {
    OffsetSign(q.imm8, q.add);
    IndexedMode(q);
  }

  lemma OffsetSign(imm8: bv32, add: bv32)
    requires add < 2
    ensures ThumbAsm.Signed(imm8, add) == OffsetOf(imm8, add)
  {
    if add == 0 {
    } else {
    }
  }

  lemma IndexedMode(q: LdrIT4)
    requires q.index < 2 && q.writeback < 2
    ensures DisassembleLdrIT4(q) ==
      IndexedBy(q.index == 1, q.writeback == 1, [Reg(q.rt), Reg(q.rn), ThumbAsm.Signed(q.imm8, q.add)])
  {
    if q.index == 0 {
      if q.writeback == 0 {
      } else {
      }
    } else {
      if q.writeback == 0 {
      } else {
      }
    }
  }

  predicate ReadsPopT2(d: DisResult, q: PopT2) {
    d == Lists(POP, WIDE, Low16(q.regs | (q.lr << 14) | (q.pc << 15))) && q.lr < 2 && q.pc < 2
  }

  predicate ReadsPushT2(d: DisResult, q: PushT2) {
    d == Lists(PUSH, WIDE, Low16(q.regs | (q.lr << 14))) && q.lr < 2
  }

  lemma ListTable(d: DisResult, m: Mnemonic, list: bv16)
    requires d == Lists(m, WIDE, list) && m != UNKNOWN
    ensures d == Decoded(Spec(m, 0, WIDE, NONE, [RegList(list)])) && d != Nothing(WIDE)
  {
  }

  lemma BT4Table(d: DisResult, q: BT4)
    requires d == Branches(B, WIDE, q.simm25)
    ensures d == WideSpec(OfBT4(q)) && d != Nothing(WIDE)
  {
  }

  lemma BlT1Table(d: DisResult, q: BlT1)
    requires d == Branches(BL, WIDE, q.simm25)
    ensures d == WideSpec(OfBlT1(q)) && d != Nothing(WIDE)
  {
  }

  lemma PopT2Table(d: DisResult, q: PopT2)
    requires ReadsPopT2(d, q)
    ensures d == WideSpec(OfPopT2(q)) && d != Nothing(WIDE)
  {
    JoinsPop(q.regs, q.lr, q.pc);
    ListTable(d, POP, ListOf(q.regs, q.lr, q.pc));
  }

  lemma PushT2Table(d: DisResult, q: PushT2)
    requires ReadsPushT2(d, q)
    ensures d == WideSpec(OfPushT2(q)) && d != Nothing(WIDE)
  {
    JoinsPush(q.regs, q.lr);
    ListTable(d, PUSH, ListOf(q.regs, q.lr, 0));
  }

  lemma BCondT3Table(d: DisResult, q: BCondT3)
    requires d == Conditional(q.cond, WIDE, q.simm21)
    ensures d == WideSpec(OfBCondT3(q)) && d != Nothing(WIDE)
  {
  }

  lemma SubwIT4Table(d: DisResult, q: SubwIT4)
    requires d == Plain(SUBW, WIDE, [Reg(q.rd), Reg(q.rn), Imm(q.imm12)])
    ensures d == WideSpec(OfSubwIT4(q)) && d != Nothing(WIDE)
  {
  }

  lemma LdrRT2LslTable(d: DisResult, q: LdrRT2Lsl)
    requires d == Loads(WIDE, OFFSET, [Reg(q.rt), Reg(q.rn), Reg(q.rm), LslShift(q.lslShiftImm2)])
    ensures d == WideSpec(OfLdrRT2Lsl(q)) && d != Nothing(WIDE)
  {
  }

  lemma LdrLitT2Table(d: DisResult, q: LdrLitT2)
    requires d == Loads(WIDE, OFFSET, [Reg(q.rt), Reg(15), Signed(q.imm12, 0)]) && q.add == 0
    ensures d == WideSpec(OfLdrLitT2(q)) && d != Nothing(WIDE)
  {
  }

  lemma PopT2Word(w: bv32)
    requires MatchPopT2(w)
    ensures ReadsPopT2(DisassembleWide(w), DecodePopT2(w))
  {
    ChainPopT2(w);
  }

  lemma PushT2Word(w: bv32)
    requires MatchPushT2(w)
    ensures ReadsPushT2(DisassembleWide(w), DecodePushT2(w))
  {
    ChainPushT2(w);
  }

  lemma UdfT2Reads(w: bv32)
    requires MatchUdfT2(w)
    ensures ReadsWide(WUdfT2, w)
  {
    ChainArith32(w);
  }

  lemma NopT2Reads(w: bv32)
    requires MatchNopT2(w)
    ensures ReadsWide(WNopT2, w)
  {
    ChainArith32(w);
  }

  lemma MovwIT3Reads(w: bv32)
    requires MatchMovwIT3(w)
    ensures ReadsWide(WMovwIT3, w)
  {
    ChainArith32(w);
  }

  lemma MovRT3Reads(w: bv32)
    requires MatchMovRT3(w)
    ensures ReadsWide(WMovRT3, w)
  {
    SmallFields32(w);
    ChainArith32(w);
  }

  lemma AddwIT4Reads(w: bv32)
    requires MatchAddwIT4(w)
    ensures ReadsWide(WAddwIT4, w)
  {
    ChainArith32(w);
  }

  lemma SubwIT4Reads(w: bv32)
    requires MatchSubwIT4(w)
    ensures ReadsWide(WSubwIT4, w)
  {
    ChainArith32(w);
    SubwIT4Table(DisassembleWide(w), DecodeSubwIT4(w));
  }

  lemma BT4Reads(w: bv32)
    requires MatchBT4(w)
    ensures ReadsWide(WBT4, w)
  {
    ChainBT4(w);
    BT4Table(DisassembleWide(w), DecodeBT4(w));
  }

  lemma BlT1Reads(w: bv32)
    requires MatchBlT1(w)
    ensures ReadsWide(WBlT1, w)
  {
    ChainBlT1(w);
    BlT1Table(DisassembleWide(w), DecodeBlT1(w));
  }

  lemma BCondT3Reads(w: bv32)
    requires MatchBCondT3(w) && !Claimed32(WBCondT3, w)
    ensures ReadsWide(WBCondT3, w)
  {
    ChainBCondT3(w);
    BCondT3Table(DisassembleWide(w), DecodeBCondT3(w));
  }

  lemma LdrIT3Reads(w: bv32)
    requires MatchLdrIT3(w)
    ensures ReadsWide(WLdrIT3, w)
  {
    ChainLoads32(w);
  }

  lemma LdrIT4Reads(w: bv32)
    requires MatchLdrIT4(w)
    ensures ReadsWide(WLdrIT4, w)
  {
    ChainLoads32(w);
    SmallFields32(w);
    IndexedReads(DecodeLdrIT4(w));
  }

  lemma LdrLitT2Reads(w: bv32)
    requires MatchLdrLitT2(w) && !Claimed32(WLdrLitT2, w)
    ensures ReadsWide(WLdrLitT2, w)
  {
    SmallFields32(w);
    ChainLoads32(w);
    LdrLitT2Table(DisassembleWide(w), DecodeLdrLitT2(w));
  }

  lemma LdrRT2LslReads(w: bv32)
    requires MatchLdrRT2Lsl(w) && !Claimed32(WLdrRT2Lsl, w)
    ensures ReadsWide(WLdrRT2Lsl, w)
  {
    ChainLoads32(w);
    LdrRT2LslTable(DisassembleWide(w), DecodeLdrRT2Lsl(w));
  }

  lemma PopT2Reads(w: bv32)
    requires MatchPopT2(w)
    ensures ReadsWide(WPopT2, w)
  {
    PopT2Word(w);
    PopT2Table(DisassembleWide(w), DecodePopT2(w));
  }

  lemma PushT2Reads(w: bv32)
    requires MatchPushT2(w)
    ensures ReadsWide(WPushT2, w)
  {
    PushT2Word(w);
    PushT2Table(DisassembleWide(w), DecodePushT2(w));
  }

  lemma PushT3Reads(w: bv32)
    requires MatchPushT3(w)
    ensures ReadsWide(WPushT3, w)
  {
    ChainPushT3(w);
  }

  /** POP T3 is always claimed by LDR T4. */
  lemma PopT3Claimed(w: bv32)
    requires MatchPopT3(w)
    ensures Claimed32(WPopT3, w)
  {
    ChainLoads32(w);
  }

  /** Every word that an encoding accepts reads as the table says, unless one tried before claims it. */
  lemma WideReads(e: WideKind, w: bv32)
    requires Accepts32(e, w) && !Claimed32(e, w)
    ensures DisassembleWide(w) == WideReading(e, w) && DisassembleWide(w) != Nothing(WIDE)
  {
    assert ReadsWide(e, w) by {
      match e
      case WUdfT2 => UdfT2Reads(w);
      case WNopT2 => NopT2Reads(w);
      case WMovwIT3 => MovwIT3Reads(w);
      case WMovRT3 => MovRT3Reads(w);
      case WAddwIT4 => AddwIT4Reads(w);
      case WSubwIT4 => SubwIT4Reads(w);
      case WBT4 => BT4Reads(w);
      case WBlT1 => BlT1Reads(w);
      case WBCondT3 => BCondT3Reads(w);
      case WLdrIT3 => LdrIT3Reads(w);
      case WLdrIT4 => LdrIT4Reads(w);
      case WLdrLitT2 => LdrLitT2Reads(w);
      case WLdrRT2Lsl => LdrRT2LslReads(w);
      case WPopT2 => PopT2Reads(w);
      case WPushT2 => PushT2Reads(w);
      case WPushT3 => PushT3Reads(w);
      case WPopT3 => PopT3Claimed(w);
    }
  }

  lemma NothingRead32(w: bv32)
    requires First32(w).NoWide?
    ensures DisassembleWide(w) == Nothing(WIDE)
  {
  }

  lemma FirstAccepts32(w: bv32)
    ensures !First32(w).NoWide? ==> Accepts32(First32(w), w) && !Claimed32(First32(w), w)
  {
  }

  lemma FirstOfAny32(e: WideKind, w: bv32)
    requires Accepts32(e, w)
    ensures !First32(w).NoWide?
  {
    FirstOrShadowed32(e, w);
  }

  predicate SomeAccepts32(w: bv32) {
    exists e :: Accepts32(e, w)
  }

  predicate ReadsByTable32(w: bv32) {
    exists e :: Accepts32(e, w) && DisassembleWide(w) == WideReading(e, w)
  }

  /** The same for whole words. */
  lemma WideUnknown(w: bv32)
    ensures DisassembleWide(w) == Nothing(WIDE) <==> forall e :: !Accepts32(e, w)
    ensures SomeAccepts32(w) ==> ReadsByTable32(w)
  {
    var first := First32(w);
    if first.NoWide? {
      NothingRead32(w);
      forall e ensures !Accepts32(e, w) {
        if Accepts32(e, w) {
          FirstOfAny32(e, w);
        }
      }
    } else {
      FirstAccepts32(w);
      WideReads(first, w);
    }
  }

  /** Words of two halfwords are those whose first one is at least 0xe800. */
  lemma WideTest(lo: bv16)
    ensures IsWide(lo) <==> lo >= 0xe800
  {
  }

  /** The width decides which table it is. */
  lemma Reads(word: bv32)
    ensures Disassemble(word) ==
      if Low16(word) >= 0xe800 then DisassembleWide(word) else DisassembleNarrow(Low16(word))
  {
    WideTest(Low16(word));
  }
}
