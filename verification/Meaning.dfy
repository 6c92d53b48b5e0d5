// What an instruction specification tells the processor to do, independent of how it is spelt:
// width, and the choice between equivalent mnemonics and operand kinds, do not matter.

module Meaning {
  import opened ThumbAsm
  import opened ReadBack

  datatype Value = Register(r: bv32) | Constant(c: bv32) | NoValue

  datatype Offset = Displacement(d: bv32) | Indexed(rm: bv32, lsl: bv32) | NoOffset

  datatype TrapKind = Breakpoint | Supervisor | Undefined

  datatype Effect =
    | Nothing
    | Move(setFlags: bool, rd: bv32, from: Value)
    | Arith(subtract: bool, setFlags: bool, rd: bv32, rn: bv32, rhs: Value)
    | Compare(rn: bv32, rhs: Value)
    | Branch(condition: bv32, offset: bv32)
    | BranchLink(offset: bv32)
    | BranchTo(link: bool, rm: bv32)
    | Load(rt: bv32, rn: bv32, offset2: Offset, mode: AddressingMode)
    | PushAll(regs: bv16)
    | PopAll(regs: bv16)
    | Trap(kind: TrapKind, imm: bv32)
    | Malformed

  const ALWAYS: bv32 := 15

  function ValueOf(o: Operand): Value {
    match o
    case Reg(r) => Register(r)
    case Imm(c) => Constant(c)
    case _ => NoValue
  }

  /** A signed and an unsigned immediate with the same bits give the same address. */
  function OffsetOf(s: Spec): Offset
    requires |s.operands| >= 3
  {
    match s.operands[2]
    case Imm(d) => if |s.operands| == 3 then Displacement(d) else NoOffset
    case SignedImm(d) => if |s.operands| == 3 then Displacement(d) else NoOffset
    case Reg(rm) =>
      if |s.operands| == 3 then Indexed(rm, 0)
      else if |s.operands| == 4 && s.operands[3].LslShift? then Indexed(rm, s.operands[3].shift)
      else NoOffset
    case _ => NoOffset
  }

  function MeaningOfArith(s: Spec, subtract: bool, setFlags: bool): Effect {
    if TwoRegisters(s)
    then Arith(subtract, setFlags, s.operands[0].reg, s.operands[1].reg, ValueOf(s.operands[2]))
    else Malformed
  }

  function MeaningOfMove(s: Spec, setFlags: bool): Effect {
    if |s.operands| == 2 && s.operands[0].Reg?
    then Move(setFlags, s.operands[0].reg, ValueOf(s.operands[1]))
    else Malformed
  }

  function MeaningOfTrap(s: Spec, kind: TrapKind): Effect {
    if |s.operands| == 1 && s.operands[0].Imm? then Trap(kind, s.operands[0].imm) else Malformed
  }

  /** Popping one register is loading it from SP and stepping SP past it (ARMv7-M ARM, A7.7.99). */
  function MeaningOfPop(regs: bv16): Effect {
    if Single(regs) then Load(TopBit(regs), 13, Displacement(4), POSTINDEX) else PopAll(regs)
  }

  function EffectOf(s: Spec): Effect {
    match s.mnemonic
    case UNKNOWN => Malformed
    case ADD => MeaningOfArith(s, false, false)
    case ADDW => MeaningOfArith(s, false, false)
    case ADDS => MeaningOfArith(s, false, true)
    case SUB => MeaningOfArith(s, true, false)
    case SUBW => MeaningOfArith(s, true, false)
    case SUBS => MeaningOfArith(s, true, true)
    case MOV => MeaningOfMove(s, false)
    case MOVW => MeaningOfMove(s, false)
    case MOVS => MeaningOfMove(s, true)
    case CMP =>
      if |s.operands| == 2 && s.operands[0].Reg?
      then Compare(s.operands[0].reg, ValueOf(s.operands[1])) else Malformed
    case B =>
      if |s.operands| == 1 && s.operands[0].SignedImm?
      then Branch(if s.condition == 0 then ALWAYS else s.condition, s.operands[0].simm) else Malformed
    case BL =>
      if |s.operands| == 1 && s.operands[0].SignedImm? then BranchLink(s.operands[0].simm) else Malformed
    case BLX => if |s.operands| == 1 && s.operands[0].Reg? then BranchTo(true, s.operands[0].reg) else Malformed
    case BX => if |s.operands| == 1 && s.operands[0].Reg? then BranchTo(false, s.operands[0].reg) else Malformed
    case LDR =>
      if |s.operands| >= 3 && s.operands[0].Reg? && s.operands[1].Reg?
      then Load(s.operands[0].reg, s.operands[1].reg, OffsetOf(s), s.mode) else Malformed
    case NOP => Nothing
    case PUSH => if |s.operands| == 1 && s.operands[0].RegList? then PushAll(s.operands[0].reglist) else Malformed
    case POP => if |s.operands| == 1 && s.operands[0].RegList? then MeaningOfPop(s.operands[0].reglist) else Malformed
    case BKPT => MeaningOfTrap(s, Breakpoint)
    case SVC => MeaningOfTrap(s, Supervisor)
    case UDF => MeaningOfTrap(s, Undefined)
  }
}
