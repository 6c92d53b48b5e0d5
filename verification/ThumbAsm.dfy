// The assembler and disassembler of monitor/thumb_asm.c, over instruction specifications.

module ThumbAsm {
  import opened T32Encoding

  datatype Mnemonic =
    | UNKNOWN | ADD | ADDS | ADDW | B | BKPT | BL | BLX | BX | CMP | LDR | NOP | MOV | MOVS | MOVW
    | POP | PUSH | SUB | SUBS | SUBW | SVC | UDF

  datatype Width = AUTO | NARROW | WIDE

  datatype AddressingMode = NONE | OFFSET | PREINDEX | POSTINDEX

  datatype Operand =
    | Reg(reg: bv32)
    | RegList(reglist: bv16)
    | Imm(imm: bv32)
    | SignedImm(simm: bv32)
    | LslShift(shift: bv32)

  /** A thumb_instruction_spec. The condition is the raw enumeration value: 0 is "none" and the
      architectural condition field is one less than the rest (15 is AL). */
  datatype Spec = Spec(
    mnemonic: Mnemonic,
    condition: bv32,
    width: Width,
    mode: AddressingMode,
    operands: seq<Operand>)
  {
    predicate CanBeNarrow() {
      width == AUTO || width == NARROW
    }

    predicate CanBeWide() {
      width == AUTO || width == WIDE
    }
  }

  /** What thumb_assemble returns, with what it stored on success. */
  datatype AsmResult =
    | BadMnemonic
    | InvalidWidth
    | InvalidOperand
    | NarrowSuccess(half: bv16)
    | WideSuccess(word: bv32)
  {
    predicate Success() {
      NarrowSuccess? || WideSuccess?
    }
  }

  /** thumb_is_wide_instruction: the first halfword decides (ARMv7-M ARM, section A5.3). */
  predicate IsWide(narrow: bv16) {
    (narrow >> 13) == 7 && ((narrow >> 11) & 3) != 0
  }

  // ---- Register lists

  function Has(list: bv16, register: bv16): nat {
    if list & register != 0 then 1 else 0
  }

  /** How many registers a list holds. */
  function CountRegisters(list: bv16): nat {
    Has(list, 1) + Has(list, 2) + Has(list, 4) + Has(list, 8) +
    Has(list, 0x10) + Has(list, 0x20) + Has(list, 0x40) + Has(list, 0x80) +
    Has(list, 0x100) + Has(list, 0x200) + Has(list, 0x400) + Has(list, 0x800) +
    Has(list, 0x1000) + Has(list, 0x2000) + Has(list, 0x4000) + Has(list, 0x8000)
  }

  /** The highest register in a list. */
  function TopBit(x: bv16): bv32 {
    if x >= 0x8000 then 15 else if x >= 0x4000 then 14 else if x >= 0x2000 then 13
    else if x >= 0x1000 then 12 else if x >= 0x800 then 11 else if x >= 0x400 then 10
    else if x >= 0x200 then 9 else if x >= 0x100 then 8 else if x >= 0x80 then 7
    else if x >= 0x40 then 6 else if x >= 0x20 then 5 else if x >= 0x10 then 4
    else if x >= 8 then 3 else if x >= 4 then 2 else if x >= 2 then 1 else 0
  }

  /** `1 << r` stored in a uint16_t. */
  function OneHot(r: bv32): bv16 {
    if r == 0 then 1 else if r == 1 then 2 else if r == 2 then 4 else if r == 3 then 8
    else if r == 4 then 0x10 else if r == 5 then 0x20 else if r == 6 then 0x40
    else if r == 7 then 0x80 else if r == 8 then 0x100 else if r == 9 then 0x200
    else if r == 10 then 0x400 else if r == 11 then 0x800 else if r == 12 then 0x1000
    else if r == 13 then 0x2000 else if r == 14 then 0x4000 else if r == 15 then 0x8000
    else 0
  }

  // ---- Assembling

  /** Assignment to the uint8_t locals of thumb_assemble. */
  function Byte(x: bv32): bv32 {
    x & 0xff
  }

  /** Return the encoder's success, or go on. */
  function Try16(e: Encoded16, otherwise: AsmResult): AsmResult {
    if e.Some16? then NarrowSuccess(e.word) else otherwise
  }

  function Try32(e: Encoded32, otherwise: AsmResult): AsmResult {
    if e.Some32? then WideSuccess(e.word) else otherwise
  }

  /** encoder_to_asm_result */
  function Result16(e: Encoded16): AsmResult {
    Try16(e, InvalidOperand)
  }

  function Result32(e: Encoded32): AsmResult {
    Try32(e, InvalidOperand)
  }

  /** The narrow encoding where the width allows it and it fits, and otherwise the wide result. */
  function Prefer(s: Spec, narrow: Encoded16, wide: AsmResult): AsmResult {
    if s.CanBeNarrow() then Try16(narrow, wide) else wide
  }

  function IfWide(s: Spec, wide: AsmResult): AsmResult {
    if s.CanBeWide() then wide else InvalidWidth
  }

  predicate TwoRegisters(s: Spec) {
    |s.operands| == 3 && s.operands[0].Reg? && s.operands[1].Reg?
  }

  function AssembleAdd(s: Spec): AsmResult {
    if !TwoRegisters(s) then InvalidOperand else
    var rd := Byte(s.operands[0].reg);
    var rn := Byte(s.operands[1].reg);
    match s.operands[2]
    case Imm(_) =>
      if rn == 13 || rn == 15 then InvalidOperand else AssembleAddw(s)
    case Reg(reg) =>
      if s.width == WIDE then InvalidWidth
      else if rd == rn then Result16(EncodeAddRT2(AddRT2(rd, Byte(reg))))
      else InvalidWidth
    case _ => InvalidOperand
  }

  function AssembleAdds(s: Spec): AsmResult {
    if !TwoRegisters(s) then InvalidOperand else
    var rd := Byte(s.operands[0].reg);
    var rn := Byte(s.operands[1].reg);
    match s.operands[2]
    case Imm(immediate) =>
      if s.width == WIDE then InvalidWidth else
      Try16(EncodeAddsIT1(AddsIT1(immediate, rn, rd)),
            if rd == rn then Result16(EncodeAddsIT2(AddsIT2(rd, immediate))) else InvalidWidth)
    case Reg(reg) =>
      if s.width == WIDE then InvalidWidth
      else Result16(EncodeAddsRT1(AddsRT1(Byte(reg), rn, rd)))
    case _ => InvalidOperand
  }

  function AssembleAddw(s: Spec): AsmResult {
    if s.width == NARROW then InvalidWidth
    else if !(TwoRegisters(s) && s.operands[2].Imm?) then InvalidOperand else
    var rd := Byte(s.operands[0].reg);
    var rn := Byte(s.operands[1].reg);
    if rn == 13 || rn == 15 then InvalidOperand
    else Result32(EncodeAddwIT4(AddwIT4(rd, rn, s.operands[2].imm)))
  }

  // A branch operand is relative to the instruction and its field to PC, which the hardware has
  // 4 bytes ahead whatever the width.

  function ToPc(offset: bv32): bv32 {
    offset - 4
  }

  function FromPc(offset: bv32): bv32 {
    offset + 4
  }

  function AssembleB(s: Spec): AsmResult {
    if !(|s.operands| == 1 && s.operands[0].SignedImm?) then InvalidOperand else
    var target := ToPc(s.operands[0].simm);
    if s.condition == 0 then AssembleBranch(s, BT2(target), BT4(target))
    else AssembleConditional(s, BCondT1(s.condition - 1, target), BCondT3(s.condition - 1, target))
  }

  function AssembleBranch(s: Spec, narrow: BT2, wide: BT4): AsmResult {
    Prefer(s, EncodeBT2(narrow), IfWide(s, Result32(EncodeBT4(wide))))
  }

  function AssembleConditional(s: Spec, narrow: BCondT1, wide: BCondT3): AsmResult {
    Prefer(s, EncodeBCondT1(narrow), IfWide(s, Result32(EncodeBCondT3(wide))))
  }

  function AssembleBkpt(s: Spec): AsmResult {
    if s.width == WIDE then InvalidWidth
    else if !(|s.operands| == 1 && s.operands[0].Imm?) then InvalidOperand
    else Result16(EncodeBkptT1(BkptT1(s.operands[0].imm)))
  }

  function AssembleBl(s: Spec): AsmResult {
    if s.width == NARROW then InvalidWidth
    else if !(|s.operands| == 1 && s.operands[0].SignedImm?) then InvalidOperand
    else Result32(EncodeBlT1(BlT1(ToPc(s.operands[0].simm))))
  }

  function AssembleBlx(s: Spec): AsmResult {
    if s.width == WIDE then InvalidWidth
    else if !(|s.operands| == 1 && s.operands[0].Reg?) then InvalidOperand
    else Result16(EncodeBlxT1(BlxT1(s.operands[0].reg)))
  }

  function AssembleBx(s: Spec): AsmResult {
    if s.width == WIDE then InvalidWidth
    else if !(|s.operands| == 1 && s.operands[0].Reg?) then InvalidOperand
    else Result16(EncodeBxT1(BxT1(s.operands[0].reg)))
  }

  function AssembleCmp(s: Spec): AsmResult {
    if s.width == WIDE then InvalidWidth
    else if !(|s.operands| == 2 && s.operands[0].Reg?) then InvalidOperand else
    var rn := Byte(s.operands[0].reg);
    match s.operands[1]
    case Imm(immediate) => Result16(EncodeCmpIT1(CmpIT1(rn, immediate)))
    case Reg(reg) =>
      Try16(EncodeCmpRT1(CmpRT1(Byte(reg), rn)), Result16(EncodeCmpRT2(CmpRT2(rn, Byte(reg)))))
    case _ => InvalidOperand
  }

  function Negated(x: bv32): bv32 {
    0 - x
  }

  function AssembleLdr(s: Spec): AsmResult {
    if |s.operands| < 3 || |s.operands| > 4 || s.mode == NONE ||
       !s.operands[0].Reg? || !s.operands[1].Reg? then InvalidOperand else
    var rt := Byte(s.operands[0].reg);
    var rn := Byte(s.operands[1].reg);
    match s.operands[2]
    case Reg(reg) =>
      if (|s.operands| == 4 && !s.operands[3].LslShift?) || s.mode != OFFSET then InvalidOperand
      else AssembleLdrRegister(s, rt, rn, Byte(reg), if |s.operands| == 4 then s.operands[3].shift else 0)
    case SignedImm(offset) =>
      if |s.operands| != 3 then InvalidOperand
      else AssembleLdrImmediate(s, rt, rn, offset)
    case _ => InvalidOperand
  }

  function AssembleLdrRegister(s: Spec, rt: bv32, rn: bv32, rm: bv32, lslShift: bv32): AsmResult {
    var wide := IfWide(s, Result32(EncodeLdrRT2Lsl(LdrRT2Lsl(rt, lslShift, rm, rn))));
    if lslShift == 0 then Prefer(s, EncodeLdrRT1(LdrRT1(rm, rn, rt)), wide) else wide
  }

  function FirstOf(a: Encoded16, b: Encoded16): Encoded16 {
    if a.Some16? then a else b
  }

  /** SP and PC have encodings of their own, before the general one is tried. */
  function EncodeLdrNarrow(rt: bv32, rn: bv32, offset: bv32): Encoded16 {
    var general := EncodeLdrIT1(LdrIT1(rt, rn, offset));
    if rn == 13 then FirstOf(EncodeLdrIT2Sp(LdrIT2Sp(rt, offset)), general)
    else if rn == 15 then FirstOf(EncodeLdrLitT1(LdrLitT1(rt, offset)), general)
    else general
  }

  /** The encodings tried first only take a base plus an unsigned offset. */
  function AssembleLdrImmediate(s: Spec, rt: bv32, rn: bv32, offset: bv32): AsmResult {
    var signed := AssembleLdrSigned(s, rt, rn, offset);
    if s.mode == OFFSET && !Negative(offset) then
      Prefer(s, EncodeLdrNarrow(rt, rn, offset),
             IfWide(s, Try32(EncodeLdrIT3(LdrIT3(rt, offset, rn)), signed)))
    else IfWide(s, signed)
  }

  function Magnitude(offset: bv32): bv32 {
    if Negative(offset) then Negated(offset) else offset
  }

  /** The sign of the offset becomes the add bit; an unindexed access always writes back. */
  function LdrSignedParts(mode: AddressingMode, rt: bv32, rn: bv32, offset: bv32): LdrIT4 {
    var magnitude := Magnitude(offset);
    var add := if Negative(offset) then 0 else 1;
    match mode
    case PREINDEX => LdrIT4(rt, 1, add, 1, magnitude, rn)
    case POSTINDEX => LdrIT4(rt, 0, add, 1, magnitude, rn)
    case _ => LdrIT4(rt, 1, add, 0, magnitude, rn)
  }

  function AssembleLdrSigned(s: Spec, rt: bv32, rn: bv32, offset: bv32): AsmResult {
    var indexed := Result32(EncodeLdrIT4(LdrSignedParts(s.mode, rt, rn, offset)));
    if rn == 15 && s.mode == OFFSET then
      if Negative(offset) then Try32(EncodeLdrLitT2(LdrLitT2(rt, Negated(offset), 0)), indexed)
      else Try32(EncodeLdrLitT2(LdrLitT2(rt, offset, 1)), indexed)
    else indexed
  }

  function AssembleNop(s: Spec): AsmResult {
    if |s.operands| != 0 then InvalidOperand
    else if s.width == WIDE then Result32(EncodeNopT2())
    else Result16(EncodeNopT1())
  }

  function AssembleMov(s: Spec): AsmResult {
    if !(|s.operands| == 2 && s.operands[0].Reg?) then InvalidOperand else
    var rd := Byte(s.operands[0].reg);
    match s.operands[1]
    case Imm(_) =>
      if rd == 15 || rd == 13 then InvalidOperand else AssembleMovw(s)
    case Reg(reg) =>
      Prefer(s, EncodeMovRT1(MovRT1(Byte(reg), rd)),
             IfWide(s, Result32(EncodeMovRT3(MovRT3(rd, Byte(reg), 0)))))
    case _ => InvalidOperand
  }

  function AssembleMovs(s: Spec): AsmResult {
    if !(|s.operands| == 2 && s.operands[0].Reg?) then InvalidOperand else
    var rd := Byte(s.operands[0].reg);
    match s.operands[1]
    case Imm(immediate) =>
      if rd == 15 || rd == 13 then InvalidOperand
      else Prefer(s, EncodeMovsIT1(MovsIT1(rd, immediate)), InvalidWidth)
    case Reg(reg) =>
      Prefer(s, EncodeMovsRT2(MovsRT2(Byte(reg), rd)),
             IfWide(s, Result32(EncodeMovRT3(MovRT3(rd, Byte(reg), 1)))))
    case _ => InvalidOperand
  }

  function AssembleMovw(s: Spec): AsmResult {
    if s.width == NARROW then InvalidWidth
    else if !(|s.operands| == 2 && s.operands[0].Reg? && s.operands[1].Imm?) then InvalidOperand else
    var rd := s.operands[0].reg;
    if rd == 15 || rd == 13 then InvalidOperand
    else Result32(EncodeMovwIT3(MovwIT3(rd, s.operands[1].imm)))
  }

  /** LR and PC are split from the other registers of a list. */
  function PopPartsOf(list: bv16): PopT2 {
    PopT2(Wide(list >> 15), Wide((list >> 14) & 1), Wide(list & 0x3fff))
  }

  function PushPartsOf(list: bv16): PushT2 {
    PushT2(Wide((list >> 14) & 1), Wide(list & 0xbfff))
  }

  function AssemblePop(s: Spec): AsmResult {
    if !(|s.operands| == 1 && s.operands[0].RegList?) then InvalidOperand else
    var reglist := s.operands[0].reglist;
    var regcount := CountRegisters(reglist);
    if regcount == 0 then InvalidOperand
    else
      AssemblePopParts(s, regcount, PopPartsOf(reglist), reglist & 0x3fff)
  }

  function AssemblePopParts(s: Spec, regcount: nat, p: PopT2, rest: bv16): AsmResult {
    var wide :=
      if regcount == 1 then
        var rt := if p.lr == 1 then 14 else if p.pc == 1 then 15 else TopBit(rest);
        Try32(EncodePopT3(PopT3(rt)), InvalidWidth)
      else Try32(EncodePopT2(p), InvalidWidth);
    if p.lr == 0 then Prefer(s, EncodePopT1(PopT1(p.pc, p.regs)), IfWide(s, wide)) else IfWide(s, wide)
  }

  function AssemblePush(s: Spec): AsmResult {
    if !(|s.operands| == 1 && s.operands[0].RegList?) then InvalidOperand else
    var reglist := s.operands[0].reglist;
    var regcount := CountRegisters(reglist);
    if regcount == 0 then InvalidOperand
    else
      AssemblePushParts(s, regcount, PushPartsOf(reglist), reglist & 0xbfff)
  }

  function AssemblePushParts(s: Spec, regcount: nat, p: PushT2, rest: bv16): AsmResult {
    var wide :=
      if regcount == 1 then
        Try32(EncodePushT3(PushT3(if p.lr == 1 then 14 else TopBit(rest))), InvalidWidth)
      else Try32(EncodePushT2(p), InvalidWidth);
    Prefer(s, EncodePushT1(PushT1(p.lr, p.regs)), IfWide(s, wide))
  }

  function AssembleSub(s: Spec): AsmResult {
    if !TwoRegisters(s) then InvalidOperand else
    var rn := Byte(s.operands[1].reg);
    match s.operands[2]
    case Imm(_) =>
      if rn == 13 || rn == 15 then InvalidOperand else AssembleSubw(s)
    case Reg(_) => InvalidWidth
    case _ => InvalidOperand
  }

  function AssembleSubs(s: Spec): AsmResult {
    if !TwoRegisters(s) then InvalidOperand else
    var rd := Byte(s.operands[0].reg);
    var rn := Byte(s.operands[1].reg);
    match s.operands[2]
    case Imm(immediate) =>
      if s.width == WIDE then InvalidWidth else
      Try16(EncodeSubsIT1(SubsIT1(immediate, rn, rd)),
            if rd == rn then Result16(EncodeSubsIT2(SubsIT2(rd, immediate))) else InvalidWidth)
    case Reg(reg) =>
      if s.width == WIDE then InvalidWidth
      else Result16(EncodeSubsRT1(SubsRT1(Byte(reg), rn, rd)))
    case _ => InvalidOperand
  }

  function AssembleSubw(s: Spec): AsmResult {
    if s.width == NARROW then InvalidWidth
    else if !(TwoRegisters(s) && s.operands[2].Imm?) then InvalidOperand else
    var rd := Byte(s.operands[0].reg);
    var rn := Byte(s.operands[1].reg);
    if rn == 13 || rn == 15 then InvalidOperand
    else Result32(EncodeSubwIT4(SubwIT4(rd, rn, s.operands[2].imm)))
  }

  function AssembleSvc(s: Spec): AsmResult {
    if s.width == WIDE then InvalidWidth
    else if !(|s.operands| == 1 && s.operands[0].Imm?) then InvalidOperand
    else Result16(EncodeSvcT1(SvcT1(s.operands[0].imm)))
  }

  function AssembleUdf(s: Spec): AsmResult {
    if !(|s.operands| == 1 && s.operands[0].Imm?) then InvalidOperand else
    Prefer(s, EncodeUdfT1(UdfT1(s.operands[0].imm)),
           IfWide(s, Result32(EncodeUdfT2(UdfT2(s.operands[0].imm)))))
  }

  /** thumb_assemble */
  function Assemble(s: Spec): AsmResult {
    match s.mnemonic
    case UNKNOWN => BadMnemonic
    case ADD => AssembleAdd(s)
    case ADDS => AssembleAdds(s)
    case ADDW => AssembleAddw(s)
    case B => AssembleB(s)
    case BKPT => AssembleBkpt(s)
    case BL => AssembleBl(s)
    case BLX => AssembleBlx(s)
    case BX => AssembleBx(s)
    case CMP => AssembleCmp(s)
    case LDR => AssembleLdr(s)
    case NOP => AssembleNop(s)
    case MOV => AssembleMov(s)
    case MOVS => AssembleMovs(s)
    case MOVW => AssembleMovw(s)
    case POP => AssemblePop(s)
    case PUSH => AssemblePush(s)
    case SUB => AssembleSub(s)
    case SUBS => AssembleSubs(s)
    case SUBW => AssembleSubw(s)
    case SVC => AssembleSvc(s)
    case UDF => AssembleUdf(s)
  }

  // ---- Disassembling

  /** thumb_disassemble either fills in a specification or runs into its ASSERT_NOT_REACHED. */
  datatype DisResult = Decoded(spec: Spec) | AssertFailed

  function Plain(m: Mnemonic, width: Width, operands: seq<Operand>): DisResult {
    Decoded(Spec(m, 0, width, NONE, operands))
  }

  function Branches(m: Mnemonic, width: Width, offset: bv32): DisResult {
    Plain(m, width, [SignedImm(FromPc(offset))])
  }

  function Conditional(cond: bv32, width: Width, offset: bv32): DisResult {
    Decoded(Spec(B, cond + 1, width, NONE, [SignedImm(FromPc(offset))]))
  }

  function Lists(m: Mnemonic, width: Width, reglist: bv16): DisResult {
    Plain(m, width, [RegList(reglist)])
  }

  function Loads(width: Width, mode: AddressingMode, operands: seq<Operand>): DisResult {
    Decoded(Spec(LDR, 0, width, mode, operands))
  }

  function Signed(magnitude: bv32, add: bv32): Operand {
    SignedImm(if add != 0 then magnitude else Negated(magnitude))
  }

  function DisassembleLdrIT4(p: LdrIT4): DisResult {
    var operands := [Reg(p.rt), Reg(p.rn), Signed(p.imm8, p.add)];
    if p.index != 0 && p.writeback != 0 then Loads(WIDE, PREINDEX, operands)
    else if p.index == 0 && p.writeback != 0 then Loads(WIDE, POSTINDEX, operands)
    else if p.index != 0 && p.writeback == 0 then Loads(WIDE, OFFSET, operands)
    else AssertFailed
  }

  function DisassembleWide(ins: bv32): DisResult
  {
    if MatchUdfT2(ins) then
      Plain(UDF, WIDE, [Imm(DecodeUdfT2(ins).imm16)])
    else if MatchNopT2(ins) then
      Plain(NOP, WIDE, [])
    else if MatchMovwIT3(ins) then
      var p := DecodeMovwIT3(ins);
      Plain(MOVW, WIDE, [Reg(p.rd), Imm(p.imm16)])
    else if MatchMovRT3(ins) then
      var p := DecodeMovRT3(ins);
      Plain(if p.setflags != 0 then MOVS else MOV, WIDE, [Reg(p.rd), Reg(p.rm)])
    else if MatchBT4(ins) then
      Branches(B, WIDE, DecodeBT4(ins).simm25)
    else if MatchBCondT3(ins) then
      var p := DecodeBCondT3(ins);
      Conditional(p.cond, WIDE, p.simm21)
    else if MatchLdrIT3(ins) then
      var p := DecodeLdrIT3(ins);
      Loads(WIDE, OFFSET, [Reg(p.rt), Reg(p.rn), Imm(p.imm12)])
    else if MatchLdrIT4(ins) then
      DisassembleLdrIT4(DecodeLdrIT4(ins))
    else if MatchLdrLitT2(ins) then
      var p := DecodeLdrLitT2(ins);
      Loads(WIDE, OFFSET, [Reg(p.rt), Reg(15), Signed(p.imm12, p.add)])
    else if MatchLdrRT2Lsl(ins) then
      var p := DecodeLdrRT2Lsl(ins);
      Loads(WIDE, OFFSET, [Reg(p.rt), Reg(p.rn), Reg(p.rm), LslShift(p.lslShiftImm2)])
    else if MatchBlT1(ins) then
      Branches(BL, WIDE, DecodeBlT1(ins).simm25)
    else if MatchPopT2(ins) then
      var p := DecodePopT2(ins);
      Lists(POP, WIDE, Low16(p.regs | (p.lr << 14) | (p.pc << 15)))
    else if MatchPopT3(ins) then
      Lists(POP, WIDE, OneHot(DecodePopT3(ins).rt))
    else if MatchPushT2(ins) then
      var p := DecodePushT2(ins);
      Lists(PUSH, WIDE, Low16(p.regs | (p.lr << 14)))
    else if MatchPushT3(ins) then
      Lists(PUSH, WIDE, OneHot(DecodePushT3(ins).rt))
    else if MatchAddwIT4(ins) then
      var p := DecodeAddwIT4(ins);
      Plain(ADDW, WIDE, [Reg(p.rd), Reg(p.rn), Imm(p.imm12)])
    else if MatchSubwIT4(ins) then
      var p := DecodeSubwIT4(ins);
      Plain(SUBW, WIDE, [Reg(p.rd), Reg(p.rn), Imm(p.imm12)])
    else
      Plain(UNKNOWN, WIDE, [])
  }

  function DisassembleNarrow(ins: bv16): DisResult
  {
    if MatchUdfT1(ins) then
      Plain(UDF, NARROW, [Imm(DecodeUdfT1(ins).imm8)])
    else if MatchBkptT1(ins) then
      Plain(BKPT, NARROW, [Imm(DecodeBkptT1(ins).imm8)])
    else if MatchNopT1(ins) then
      Plain(NOP, NARROW, [])
    else if MatchMovsIT1(ins) then
      var p := DecodeMovsIT1(ins);
      Plain(MOVS, NARROW, [Reg(p.rd), Imm(p.imm8)])
    else if MatchMovRT1(ins) then
      var p := DecodeMovRT1(ins);
      Plain(MOV, NARROW, [Reg(p.rd), Reg(p.rm)])
    else if MatchMovsRT2(ins) then
      var p := DecodeMovsRT2(ins);
      Plain(MOVS, NARROW, [Reg(p.rd), Reg(p.rm)])
    else if MatchBxT1(ins) then
      Plain(BX, NARROW, [Reg(DecodeBxT1(ins).rm)])
    else if MatchSvcT1(ins) then
      Plain(SVC, NARROW, [Imm(DecodeSvcT1(ins).imm8)])
    else if MatchBT2(ins) then
      Branches(B, NARROW, DecodeBT2(ins).simm11)
    else if MatchBCondT1(ins) then
      var p := DecodeBCondT1(ins);
      Conditional(p.cond, NARROW, p.simm8)
    else if MatchLdrIT1(ins) then
      var p := DecodeLdrIT1(ins);
      Loads(NARROW, OFFSET, [Reg(p.rt), Reg(p.rn), Imm(p.imm7)])
    else if MatchLdrIT2Sp(ins) then
      var p := DecodeLdrIT2Sp(ins);
      Loads(NARROW, OFFSET, [Reg(p.rt), Reg(13), Imm(p.imm10)])
    else if MatchLdrLitT1(ins) then
      var p := DecodeLdrLitT1(ins);
      Loads(NARROW, OFFSET, [Reg(p.rt), Reg(15), Imm(p.imm10)])
    else if MatchLdrRT1(ins) then
      var p := DecodeLdrRT1(ins);
      Loads(NARROW, OFFSET, [Reg(p.rt), Reg(p.rn), Reg(p.rm)])
    else if MatchBlxT1(ins) then
      Plain(BLX, NARROW, [Reg(DecodeBlxT1(ins).rm)])
    else if MatchPopT1(ins) then
      var p := DecodePopT1(ins);
      Lists(POP, NARROW, Low16(p.regs | (p.pc << 15)))
    else if MatchPushT1(ins) then
      var p := DecodePushT1(ins);
      Lists(PUSH, NARROW, Low16(p.regs | (p.lr << 14)))
    else if MatchCmpIT1(ins) then
      var p := DecodeCmpIT1(ins);
      Plain(CMP, NARROW, [Reg(p.rn), Imm(p.imm8)])
    else if MatchCmpRT1(ins) then
      var p := DecodeCmpRT1(ins);
      Plain(CMP, NARROW, [Reg(p.rn), Reg(p.rm)])
    else if MatchCmpRT2(ins) then
      var p := DecodeCmpRT2(ins);
      Plain(CMP, NARROW, [Reg(p.rn), Reg(p.rm)])
    else if MatchAddsIT1(ins) then
      var p := DecodeAddsIT1(ins);
      Plain(ADDS, NARROW, [Reg(p.rd), Reg(p.rn), Imm(p.imm3)])
    else if MatchAddsIT2(ins) then
      var p := DecodeAddsIT2(ins);
      Plain(ADDS, NARROW, [Reg(p.rdn), Reg(p.rdn), Imm(p.imm8)])
    else if MatchAddsRT1(ins) then
      var p := DecodeAddsRT1(ins);
      Plain(ADDS, NARROW, [Reg(p.rd), Reg(p.rn), Reg(p.rm)])
    else if MatchAddRT2(ins) then
      var p := DecodeAddRT2(ins);
      Plain(ADD, NARROW, [Reg(p.rdn), Reg(p.rdn), Reg(p.rm)])
    else if MatchSubsIT1(ins) then
      var p := DecodeSubsIT1(ins);
      Plain(SUBS, NARROW, [Reg(p.rd), Reg(p.rn), Imm(p.imm3)])
    else if MatchSubsIT2(ins) then
      var p := DecodeSubsIT2(ins);
      Plain(SUBS, NARROW, [Reg(p.rdn), Reg(p.rdn), Imm(p.imm8)])
    else if MatchSubsRT1(ins) then
      var p := DecodeSubsRT1(ins);
      Plain(SUBS, NARROW, [Reg(p.rd), Reg(p.rn), Reg(p.rm)])
    else
      Plain(UNKNOWN, NARROW, [])
  }

  /** One of the first matchers of the chain takes the halfword. */
  predicate ReadsEarly(ins: bv16) {
    || MatchUdfT1(ins) || MatchBkptT1(ins) || MatchNopT1(ins) || MatchMovsIT1(ins) || MatchMovRT1(ins)
    || MatchMovsRT2(ins) || MatchBxT1(ins) || MatchSvcT1(ins) || MatchBT2(ins) || MatchBCondT1(ins)
    || MatchLdrIT1(ins) || MatchLdrIT2Sp(ins) || MatchLdrLitT1(ins) || MatchLdrRT1(ins)
  }

  lemma EarlyDecodes(ins: bv16)
    requires ReadsEarly(ins)
    ensures DisassembleNarrow(ins).Decoded?
  {
  }

  lemma LateDecodes(ins: bv16)
    requires !ReadsEarly(ins)
    ensures DisassembleNarrow(ins).Decoded?
  {
  }

  /** No halfword runs into the assertion, and no word but one of LDR (immediate) T4. */
  lemma NarrowDecodes(ins: bv16)
    ensures DisassembleNarrow(ins).Decoded?
  {
    if ReadsEarly(ins) {
      EarlyDecodes(ins);
    } else {
      LateDecodes(ins);
    }
  }

  lemma OnlyT4Fails(ins: bv32)
    ensures DisassembleWide(ins).AssertFailed? ==> MatchLdrIT4(ins)
  {
  }

  /** thumb_disassemble on the word at the instruction's address. */
  function Disassemble(ins: bv32): DisResult {
    if IsWide(Low16(ins)) then DisassembleWide(ins) else DisassembleNarrow(Low16(ins))
  }

  lemma NarrowWord(word: bv32, lo: bv16)
    requires Low16(word) == lo && !IsWide(lo)
    ensures Disassemble(word) == DisassembleNarrow(lo)
  {
  }
}
