// Which encoding the disassembler's first-match chain picks. The matchers overlap in a few places
// only; there the order of the chain decides.

module Disassembly {
  import opened T32Encoding
  import opened ThumbAsm

  /** What a stored instruction is read as, if it is read at the width it was stored with. */
  datatype Reading = OtherWidth | ReadAs(d: DisResult)

  function Reading16(half: bv16): Reading {
    if IsWide(half) then OtherWidth else ReadAs(DisassembleNarrow(half))
  }

  function Reading32(word: bv32): Reading {
    if IsWide(Low16(word)) then ReadAs(DisassembleWide(word)) else OtherWidth
  }

  predicate Reads16(half: bv16, d: DisResult) {
    Reading16(half) == ReadAs(d)
  }

  predicate Reads32(word: bv32, d: DisResult) {
    Reading32(word) == ReadAs(d)
  }

  lemma ChainMoves16(w: bv16)
    ensures MatchNopT1(w) ==> Reads16(w, Plain(NOP, NARROW, []))
    ensures MatchMovsIT1(w) ==>
      var p := DecodeMovsIT1(w); Reads16(w, Plain(MOVS, NARROW, [Reg(p.rd), Imm(p.imm8)]))
    ensures MatchMovRT1(w) ==>
      var p := DecodeMovRT1(w); Reads16(w, Plain(MOV, NARROW, [Reg(p.rd), Reg(p.rm)]))
    ensures MatchMovsRT2(w) ==>
      var p := DecodeMovsRT2(w); Reads16(w, Plain(MOVS, NARROW, [Reg(p.rd), Reg(p.rm)]))
    ensures MatchCmpIT1(w) ==>
      var p := DecodeCmpIT1(w); Reads16(w, Plain(CMP, NARROW, [Reg(p.rn), Imm(p.imm8)]))
    ensures MatchCmpRT1(w) ==>
      var p := DecodeCmpRT1(w); Reads16(w, Plain(CMP, NARROW, [Reg(p.rn), Reg(p.rm)]))
    ensures MatchCmpRT2(w) ==>
      var p := DecodeCmpRT2(w); Reads16(w, Plain(CMP, NARROW, [Reg(p.rn), Reg(p.rm)]))
  {
  }

  lemma ChainAdds16(w: bv16)
    ensures MatchAddsIT1(w) ==>
      var p := DecodeAddsIT1(w); Reads16(w, Plain(ADDS, NARROW, [Reg(p.rd), Reg(p.rn), Imm(p.imm3)]))
    ensures MatchAddsIT2(w) ==>
      var p := DecodeAddsIT2(w); Reads16(w, Plain(ADDS, NARROW, [Reg(p.rdn), Reg(p.rdn), Imm(p.imm8)]))
    ensures MatchAddsRT1(w) ==>
      var p := DecodeAddsRT1(w); Reads16(w, Plain(ADDS, NARROW, [Reg(p.rd), Reg(p.rn), Reg(p.rm)]))
    ensures MatchAddRT2(w) ==>
      var p := DecodeAddRT2(w); Reads16(w, Plain(ADD, NARROW, [Reg(p.rdn), Reg(p.rdn), Reg(p.rm)]))
  {
  }

  lemma ChainSubs16(w: bv16)
    ensures MatchSubsIT1(w) ==>
      var p := DecodeSubsIT1(w); Reads16(w, Plain(SUBS, NARROW, [Reg(p.rd), Reg(p.rn), Imm(p.imm3)]))
    ensures MatchSubsIT2(w) ==>
      var p := DecodeSubsIT2(w); Reads16(w, Plain(SUBS, NARROW, [Reg(p.rdn), Reg(p.rdn), Imm(p.imm8)]))
    ensures MatchSubsRT1(w) ==>
      var p := DecodeSubsRT1(w); Reads16(w, Plain(SUBS, NARROW, [Reg(p.rd), Reg(p.rn), Reg(p.rm)]))
  {
  }

  lemma ChainLoads16(w: bv16)
    ensures MatchLdrIT1(w) ==>
      var p := DecodeLdrIT1(w); Reads16(w, Loads(NARROW, OFFSET, [Reg(p.rt), Reg(p.rn), Imm(p.imm7)]))
    ensures MatchLdrIT2Sp(w) ==>
      var p := DecodeLdrIT2Sp(w); Reads16(w, Loads(NARROW, OFFSET, [Reg(p.rt), Reg(13), Imm(p.imm10)]))
    ensures MatchLdrLitT1(w) ==>
      var p := DecodeLdrLitT1(w); Reads16(w, Loads(NARROW, OFFSET, [Reg(p.rt), Reg(15), Imm(p.imm10)]))
    ensures MatchLdrRT1(w) ==>
      var p := DecodeLdrRT1(w); Reads16(w, Loads(NARROW, OFFSET, [Reg(p.rt), Reg(p.rn), Reg(p.rm)]))
    ensures MatchPopT1(w) ==>
      var p := DecodePopT1(w); Reads16(w, Lists(POP, NARROW, Low16(p.regs | (p.pc << 15))))
    ensures MatchPushT1(w) ==>
      var p := DecodePushT1(w); Reads16(w, Lists(PUSH, NARROW, Low16(p.regs | (p.lr << 14))))
  {
  }

  lemma ChainBranches16(w: bv16)
    ensures MatchUdfT1(w) ==> Reads16(w, Plain(UDF, NARROW, [Imm(DecodeUdfT1(w).imm8)]))
    ensures MatchSvcT1(w) ==> Reads16(w, Plain(SVC, NARROW, [Imm(DecodeSvcT1(w).imm8)]))
    ensures MatchBkptT1(w) ==> Reads16(w, Plain(BKPT, NARROW, [Imm(DecodeBkptT1(w).imm8)]))
    ensures MatchBxT1(w) ==> Reads16(w, Plain(BX, NARROW, [Reg(DecodeBxT1(w).rm)]))
    ensures MatchBlxT1(w) ==> Reads16(w, Plain(BLX, NARROW, [Reg(DecodeBlxT1(w).rm)]))
  {
  }

  lemma ChainBT2(w: bv16)
    requires MatchBT2(w)
    ensures Reads16(w, Branches(B, NARROW, DecodeBT2(w).simm11))
  {
  }

  /** A conditional branch encoding of condition AL or above is a UDF or an SVC instead. */
  lemma ChainBCondT1(w: bv16)
    requires MatchBCondT1(w)
    ensures MatchUdfT1(w) <==> DecodeBCondT1(w).cond == 14
    ensures MatchSvcT1(w) <==> DecodeBCondT1(w).cond == 15
    ensures DecodeBCondT1(w).cond < 14 ==>
      var p := DecodeBCondT1(w); Reads16(w, Conditional(p.cond, NARROW, p.simm8))
  {
  }

  lemma ChainArith32(w: bv32)
    ensures MatchUdfT2(w) ==> Reads32(w, Plain(UDF, WIDE, [Imm(DecodeUdfT2(w).imm16)]))
    ensures MatchNopT2(w) ==> Reads32(w, Plain(NOP, WIDE, []))
    ensures MatchMovwIT3(w) ==>
      var p := DecodeMovwIT3(w); Reads32(w, Plain(MOVW, WIDE, [Reg(p.rd), Imm(p.imm16)]))
    ensures MatchMovRT3(w) ==>
      var p := DecodeMovRT3(w);
      Reads32(w, Plain(if p.setflags != 0 then MOVS else MOV, WIDE, [Reg(p.rd), Reg(p.rm)]))
    ensures MatchAddwIT4(w) ==>
      var p := DecodeAddwIT4(w); Reads32(w, Plain(ADDW, WIDE, [Reg(p.rd), Reg(p.rn), Imm(p.imm12)]))
    ensures MatchSubwIT4(w) ==>
      var p := DecodeSubwIT4(w); Reads32(w, Plain(SUBW, WIDE, [Reg(p.rd), Reg(p.rn), Imm(p.imm12)]))
  {
  }

  lemma ChainBT4(w: bv32)
    requires MatchBT4(w)
    ensures Reads32(w, Branches(B, WIDE, DecodeBT4(w).simm25))
  {
  }

  lemma ChainBlT1(w: bv32)
    requires MatchBlT1(w)
    ensures Reads32(w, Branches(BL, WIDE, DecodeBlT1(w).simm25))
  {
  }

  lemma ChainBCondT3(w: bv32)
    requires MatchBCondT3(w) && !MatchUdfT2(w) && !MatchNopT2(w)
    ensures var p := DecodeBCondT3(w); Reads32(w, Conditional(p.cond, WIDE, p.simm21))
  {
  }

  lemma ChainPopT2(w: bv32)
    requires MatchPopT2(w)
    ensures
      var p := DecodePopT2(w);
      Reads32(w, Lists(POP, WIDE, Low16(p.regs | (p.lr << 14) | (p.pc << 15))))
  {
  }

  lemma ChainPushT2(w: bv32)
    requires MatchPushT2(w)
    ensures var p := DecodePushT2(w); Reads32(w, Lists(PUSH, WIDE, Low16(p.regs | (p.lr << 14))))
  {
  }

  lemma ChainPushT3(w: bv32)
    requires MatchPushT3(w)
    ensures Reads32(w, Lists(PUSH, WIDE, OneHot(DecodePushT3(w).rt)))
  {
  }

  /** POP T3 is never picked: its words are LDR Rt, [SP], #4. A literal load is picked only when it
      reaches back by less than 2048, and a register load only when its base is not PC. */
  lemma ChainLoads32(w: bv32)
    ensures MatchLdrIT3(w) ==>
      var p := DecodeLdrIT3(w); Reads32(w, Loads(WIDE, OFFSET, [Reg(p.rt), Reg(p.rn), Imm(p.imm12)]))
    ensures MatchLdrIT4(w) ==> Reads32(w, DisassembleLdrIT4(DecodeLdrIT4(w)))
    ensures MatchPopT3(w) ==> MatchLdrIT4(w) && DecodeLdrIT4(w) == LdrIT4(DecodePopT3(w).rt, 0, 1, 1, 4, 13)
    ensures MatchLdrLitT2(w) ==>
      var p := DecodeLdrLitT2(w);
      if p.add == 1 then MatchLdrIT3(w)
      else if p.imm12 >= 2048 then MatchLdrIT4(w)
      else Reads32(w, Loads(WIDE, OFFSET, [Reg(p.rt), Reg(15), Signed(p.imm12, 0)]))
    ensures MatchLdrRT2Lsl(w) ==>
      var p := DecodeLdrRT2Lsl(w);
      if p.rn == 15 then MatchLdrLitT2(w)
      else Reads32(w, Loads(WIDE, OFFSET, [Reg(p.rt), Reg(p.rn), Reg(p.rm), LslShift(p.lslShiftImm2)]))
  {
  }
}
