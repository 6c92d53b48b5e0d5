// Each encoder against its matcher and decoder, for all parts and for all words.

module EncodingLaws {
  import opened T32Encoding

  /** -n <= x < n, for x in two's complement. */
  predicate Within(x: bv32, n: bv32) {
    x + n < n + n
  }

  // What a branch field keeps of an offset.

  function Wrap9(x: bv32): bv32 {
    if x & 0x100 != 0 then x | 0xfffffe00 else x & 0x1ff
  }

  function Wrap12(x: bv32): bv32 {
    if x & 0x800 != 0 then x | 0xfffff000 else x & 0xfff
  }

  function Wrap21(x: bv32): bv32 {
    if x & 0x100000 != 0 then x | 0xffe00000 else x & 0x1fffff
  }

  function Wrap25(x: bv32): bv32 {
    if x & 0x1000000 != 0 then x | 0xfe000000 else x & 0x1ffffff
  }

  // The signed fit checks, in arithmetic.

  lemma SignedFits9(x: bv32)
    ensures FitsSigned9(Asr1(x)) <==> Within(x, 0x200)
  {
  }

  lemma SignedFits12(x: bv32)
    ensures FitsSigned12(Asr1(x)) <==> Within(x, 0x1000)
  {
  }

  lemma SignedFits21(x: bv32)
    ensures FitsSigned21(Asr1(x)) <==> Within(x, 0x200000)
  {
  }

  lemma SignedFits25(x: bv32)
    ensures FitsSigned25(Asr1(x)) <==> Within(x, 0x2000000)
  {
  }

  // Where a field keeps all of an offset.

  lemma Wrap9Same(x: bv32)
    ensures Wrap9(x) == x <==> Within(x, 0x100)
  {
    if x & 0x100 != 0 {
    } else {
    }
  }

  lemma Within12(x: bv32)
    ensures Within(x, 0x800) <==> x & 0xfffff800 == 0 || x & 0xfffff800 == 0xfffff800
  {
  }

  lemma Upper12(x: bv32)
    requires x & 0x800 != 0
    ensures Wrap12(x) == x <==> x & 0xfffff800 == 0xfffff800
    ensures x & 0xfffff800 != 0
  {
  }

  lemma Lower12(x: bv32)
    requires x & 0x800 == 0
    ensures Wrap12(x) == x <==> x & 0xfffff800 == 0
    ensures x & 0xfffff800 != 0xfffff800
  {
  }

  lemma Wrap12Same(x: bv32)
    ensures Wrap12(x) == x <==> Within(x, 0x800)
  {
    Within12(x);
    if x & 0x800 != 0 {
      Upper12(x);
    } else {
      Lower12(x);
    }
  }

  lemma Within21(x: bv32)
    ensures Within(x, 0x10_0000) <==> x & 0xfff00000 == 0 || x & 0xfff00000 == 0xfff00000
  {
  }

  lemma Upper21(x: bv32)
    requires x & 0x100000 != 0
    ensures Wrap21(x) == x <==> x & 0xfff00000 == 0xfff00000
    ensures x & 0xfff00000 != 0
  {
  }

  lemma Lower21(x: bv32)
    requires x & 0x100000 == 0
    ensures Wrap21(x) == x <==> x & 0xfff00000 == 0
    ensures x & 0xfff00000 != 0xfff00000
  {
  }

  lemma Wrap21Same(x: bv32)
    ensures Wrap21(x) == x <==> Within(x, 0x10_0000)
  {
    Within21(x);
    if x & 0x100000 != 0 {
      Upper21(x);
    } else {
      Lower21(x);
    }
  }

  lemma Within25(x: bv32)
    ensures Within(x, 0x100_0000) <==> x & 0xff000000 == 0 || x & 0xff000000 == 0xff000000
  {
  }

  lemma Upper25(x: bv32)
    requires x & 0x1000000 != 0
    ensures Wrap25(x) == x <==> x & 0xff000000 == 0xff000000
    ensures x & 0xff000000 != 0
  {
  }

  lemma Lower25(x: bv32)
    requires x & 0x1000000 == 0
    ensures Wrap25(x) == x <==> x & 0xff000000 == 0
    ensures x & 0xff000000 != 0xff000000
  {
  }

  lemma Wrap25Same(x: bv32)
    ensures Wrap25(x) == x <==> Within(x, 0x100_0000)
  {
    Within25(x);
    if x & 0x1000000 != 0 {
      Upper25(x);
    } else {
      Lower25(x);
    }
  }

  lemma Scaled10(x: bv32)
    requires x < 0x1000
    ensures x & 0x3ff == x <==> x < 1024
  {
  }

  lemma Scaled7(x: bv32)
    requires x < 0x200
    ensures x & 0x7f == x <==> x < 128
  {
  }

  lemma AddsIT1Fits(p: AddsIT1)
    ensures EncodeAddsIT1(p).Some16? <==> p.imm3 < 8 && p.rn < 8 && p.rd < 8
  {
  }

  lemma AddsIT1Law(p: AddsIT1)
    ensures EncodeAddsIT1(p).Some16? ==>
      MatchAddsIT1(EncodeAddsIT1(p).word) && DecodeAddsIT1(EncodeAddsIT1(p).word) == p
  {
  }

  lemma AddsIT2Fits(p: AddsIT2)
    ensures EncodeAddsIT2(p).Some16? <==> p.rdn < 8 && p.imm8 < 0x100
  {
  }

  lemma AddsIT2Law(p: AddsIT2)
    ensures EncodeAddsIT2(p).Some16? ==>
      MatchAddsIT2(EncodeAddsIT2(p).word) && DecodeAddsIT2(EncodeAddsIT2(p).word) == p
  {
  }

  lemma AddwIT4Fits(p: AddwIT4)
    ensures EncodeAddwIT4(p).Some32? <==> p.imm12 < 0x1000 && p.rd < 16 && p.rn < 16
  {
  }

  lemma AddwIT4Law(p: AddwIT4)
    ensures EncodeAddwIT4(p).Some32? ==>
      MatchAddwIT4(EncodeAddwIT4(p).word) && DecodeAddwIT4(EncodeAddwIT4(p).word) == p
  {
  }

  lemma AddsRT1Fits(p: AddsRT1)
    ensures EncodeAddsRT1(p).Some16? <==> p.rm < 8 && p.rn < 8 && p.rd < 8
  {
  }

  lemma AddsRT1Law(p: AddsRT1)
    ensures EncodeAddsRT1(p).Some16? ==>
      MatchAddsRT1(EncodeAddsRT1(p).word) && DecodeAddsRT1(EncodeAddsRT1(p).word) == p
  {
  }

  lemma AddRT2Fits(p: AddRT2)
    ensures EncodeAddRT2(p).Some16? <==> p.rdn < 16 && p.rm < 16
  {
  }

  lemma AddRT2Law(p: AddRT2)
    ensures EncodeAddRT2(p).Some16? ==>
      MatchAddRT2(EncodeAddRT2(p).word) && DecodeAddRT2(EncodeAddRT2(p).word) == p
  {
  }

  lemma BCondT1Fits(p: BCondT1)
    ensures EncodeBCondT1(p).Some16? <==> p.simm8 & 1 == 0 && Within(p.simm8, 0x200) && p.cond < 16
  {
    SignedFits9(p.simm8);
  }

  lemma BCondT1Law(p: BCondT1)
    ensures EncodeBCondT1(p).Some16? ==>
      MatchBCondT1(EncodeBCondT1(p).word) && DecodeBCondT1(EncodeBCondT1(p).word) == BCondT1(p.cond, Wrap9(p.simm8))
  {
    if p.simm8 & 0x100 != 0 {
    } else {
    }
  }

  lemma BT2Fits(p: BT2)
    ensures EncodeBT2(p).Some16? <==> p.simm11 & 1 == 0 && Within(p.simm11, 0x1000)
  {
    SignedFits12(p.simm11);
  }

  lemma BT2Law(p: BT2)
    ensures EncodeBT2(p).Some16? ==>
      MatchBT2(EncodeBT2(p).word) && DecodeBT2(EncodeBT2(p).word) == BT2(Wrap12(p.simm11))
  {
    if p.simm11 & 0x800 != 0 {
    } else {
    }
  }

  lemma BCondT3Fits(p: BCondT3)
    ensures EncodeBCondT3(p).Some32? <==> p.simm21 & 1 == 0 && Within(p.simm21, 0x200000) && p.cond < 16
  {
    SignedFits21(p.simm21);
  }

  lemma BCondT3Law(p: BCondT3)
    ensures EncodeBCondT3(p).Some32? ==>
      MatchBCondT3(EncodeBCondT3(p).word) && DecodeBCondT3(EncodeBCondT3(p).word) == BCondT3(p.cond, Wrap21(p.simm21))
  {
    if p.simm21 & 0x100000 != 0 {
    } else {
    }
  }

  lemma BT4Fits(p: BT4)
    ensures EncodeBT4(p).Some32? <==> p.simm25 & 1 == 0 && Within(p.simm25, 0x2000000)
  {
    SignedFits25(p.simm25);
  }

  lemma BT4Law(p: BT4)
    ensures EncodeBT4(p).Some32? ==>
      MatchBT4(EncodeBT4(p).word) && DecodeBT4(EncodeBT4(p).word) == BT4(Wrap25(p.simm25))
  {
    if p.simm25 & 0x1000000 != 0 {
    } else {
    }
  }

  lemma BkptT1Fits(p: BkptT1)
    ensures EncodeBkptT1(p).Some16? <==> p.imm8 < 0x100
  {
  }

  lemma BkptT1Law(p: BkptT1)
    ensures EncodeBkptT1(p).Some16? ==>
      MatchBkptT1(EncodeBkptT1(p).word) && DecodeBkptT1(EncodeBkptT1(p).word) == p
  {
  }

  lemma BlT1Fits(p: BlT1)
    ensures EncodeBlT1(p).Some32? <==> p.simm25 & 1 == 0 && Within(p.simm25, 0x2000000)
  {
    SignedFits25(p.simm25);
  }

  lemma BlT1Law(p: BlT1)
    ensures EncodeBlT1(p).Some32? ==>
      MatchBlT1(EncodeBlT1(p).word) && DecodeBlT1(EncodeBlT1(p).word) == BlT1(Wrap25(p.simm25))
  {
    if p.simm25 & 0x1000000 != 0 {
    } else {
    }
  }

  lemma BlxT1Fits(p: BlxT1)
    ensures EncodeBlxT1(p).Some16? <==> p.rm < 16
  {
  }

  lemma BlxT1Law(p: BlxT1)
    ensures EncodeBlxT1(p).Some16? ==>
      MatchBlxT1(EncodeBlxT1(p).word) && DecodeBlxT1(EncodeBlxT1(p).word) == p
  {
  }

  lemma BxT1Fits(p: BxT1)
    ensures EncodeBxT1(p).Some16? <==> p.rm < 16
  {
  }

  lemma BxT1Law(p: BxT1)
    ensures EncodeBxT1(p).Some16? ==>
      MatchBxT1(EncodeBxT1(p).word) && DecodeBxT1(EncodeBxT1(p).word) == p
  {
  }

  lemma CmpIT1Fits(p: CmpIT1)
    ensures EncodeCmpIT1(p).Some16? <==> p.rn < 8 && p.imm8 < 0x100
  {
  }

  lemma CmpIT1Law(p: CmpIT1)
    ensures EncodeCmpIT1(p).Some16? ==>
      MatchCmpIT1(EncodeCmpIT1(p).word) && DecodeCmpIT1(EncodeCmpIT1(p).word) == p
  {
  }

  lemma CmpRT1Fits(p: CmpRT1)
    ensures EncodeCmpRT1(p).Some16? <==> p.rm < 8 && p.rn < 8
  {
  }

  lemma CmpRT1Law(p: CmpRT1)
    ensures EncodeCmpRT1(p).Some16? ==>
      MatchCmpRT1(EncodeCmpRT1(p).word) && DecodeCmpRT1(EncodeCmpRT1(p).word) == p
  {
  }

  lemma CmpRT2Fits(p: CmpRT2)
    ensures EncodeCmpRT2(p).Some16? <==> p.rn < 16 && p.rm < 16
  {
  }

  lemma CmpRT2Law(p: CmpRT2)
    ensures EncodeCmpRT2(p).Some16? ==>
      MatchCmpRT2(EncodeCmpRT2(p).word) && DecodeCmpRT2(EncodeCmpRT2(p).word) == p
  {
  }

  lemma LdrIT1Fits(p: LdrIT1)
    ensures EncodeLdrIT1(p).Some16? <==> p.imm7 & 3 == 0 && p.imm7 < 0x200 && p.rn < 8 && p.rt < 8
  {
  }

  lemma LdrIT1Law(p: LdrIT1)
    ensures EncodeLdrIT1(p).Some16? ==>
      MatchLdrIT1(EncodeLdrIT1(p).word) && DecodeLdrIT1(EncodeLdrIT1(p).word) == LdrIT1(p.rt, p.rn, p.imm7 & 0x7f)
  {
  }

  lemma LdrIT2SpFits(p: LdrIT2Sp)
    ensures EncodeLdrIT2Sp(p).Some16? <==> p.imm10 & 3 == 0 && p.imm10 < 0x1000 && p.rt < 8
  {
  }

  lemma LdrIT2SpLaw(p: LdrIT2Sp)
    ensures EncodeLdrIT2Sp(p).Some16? ==>
      MatchLdrIT2Sp(EncodeLdrIT2Sp(p).word) && DecodeLdrIT2Sp(EncodeLdrIT2Sp(p).word) == LdrIT2Sp(p.rt, p.imm10 & 0x3ff)
  {
  }

  lemma LdrIT3Fits(p: LdrIT3)
    ensures EncodeLdrIT3(p).Some32? <==> p.rt < 16 && p.imm12 < 0x1000 && p.rn < 16
  {
  }

  lemma LdrIT3Law(p: LdrIT3)
    ensures EncodeLdrIT3(p).Some32? ==>
      MatchLdrIT3(EncodeLdrIT3(p).word) && DecodeLdrIT3(EncodeLdrIT3(p).word) == p
  {
  }

  lemma LdrIT4Fits(p: LdrIT4)
    ensures EncodeLdrIT4(p).Some32? <==>
      p.rt < 16 && p.index < 2 && p.add < 2 && p.writeback < 2 && p.imm8 < 0x100 && p.rn < 16
  {
  }

  lemma LdrIT4Law(p: LdrIT4)
    ensures EncodeLdrIT4(p).Some32? ==>
      MatchLdrIT4(EncodeLdrIT4(p).word) && DecodeLdrIT4(EncodeLdrIT4(p).word) == p
  {
  }

  lemma LdrLitT1Fits(p: LdrLitT1)
    ensures EncodeLdrLitT1(p).Some16? <==> p.imm10 & 3 == 0 && p.imm10 < 0x1000 && p.rt < 8
  {
  }

  lemma LdrLitT1Law(p: LdrLitT1)
    ensures EncodeLdrLitT1(p).Some16? ==>
      MatchLdrLitT1(EncodeLdrLitT1(p).word) && DecodeLdrLitT1(EncodeLdrLitT1(p).word) == LdrLitT1(p.rt, p.imm10 & 0x3ff)
  {
  }

  lemma LdrLitT2Fits(p: LdrLitT2)
    ensures EncodeLdrLitT2(p).Some32? <==> p.rt < 16 && p.imm12 < 0x1000 && p.add < 2
  {
  }

  lemma LdrLitT2Law(p: LdrLitT2)
    ensures EncodeLdrLitT2(p).Some32? ==>
      MatchLdrLitT2(EncodeLdrLitT2(p).word) && DecodeLdrLitT2(EncodeLdrLitT2(p).word) == p
  {
  }

  lemma LdrRT1Fits(p: LdrRT1)
    ensures EncodeLdrRT1(p).Some16? <==> p.rm < 8 && p.rn < 8 && p.rt < 8
  {
  }

  lemma LdrRT1Law(p: LdrRT1)
    ensures EncodeLdrRT1(p).Some16? ==>
      MatchLdrRT1(EncodeLdrRT1(p).word) && DecodeLdrRT1(EncodeLdrRT1(p).word) == p
  {
  }

  lemma LdrRT2LslFits(p: LdrRT2Lsl)
    ensures EncodeLdrRT2Lsl(p).Some32? <==> p.rt < 16 && p.lslShiftImm2 < 4 && p.rm < 16 && p.rn < 16
  {
  }

  lemma LdrRT2LslLaw(p: LdrRT2Lsl)
    ensures EncodeLdrRT2Lsl(p).Some32? ==>
      MatchLdrRT2Lsl(EncodeLdrRT2Lsl(p).word) && DecodeLdrRT2Lsl(EncodeLdrRT2Lsl(p).word) == p
  {
  }

  lemma MovsIT1Fits(p: MovsIT1)
    ensures EncodeMovsIT1(p).Some16? <==> p.rd < 8 && p.imm8 < 0x100
  {
  }

  lemma MovsIT1Law(p: MovsIT1)
    ensures EncodeMovsIT1(p).Some16? ==>
      MatchMovsIT1(EncodeMovsIT1(p).word) && DecodeMovsIT1(EncodeMovsIT1(p).word) == p
  {
  }

  lemma MovwIT3Fits(p: MovwIT3)
    ensures EncodeMovwIT3(p).Some32? <==> p.imm16 < 0x10000 && p.rd < 16
  {
  }

  lemma MovwIT3Law(p: MovwIT3)
    ensures EncodeMovwIT3(p).Some32? ==>
      MatchMovwIT3(EncodeMovwIT3(p).word) && DecodeMovwIT3(EncodeMovwIT3(p).word) == p
  {
  }

  lemma MovRT1Fits(p: MovRT1)
    ensures EncodeMovRT1(p).Some16? <==> p.rd < 16 && p.rm < 16
  {
  }

  lemma MovRT1Law(p: MovRT1)
    ensures EncodeMovRT1(p).Some16? ==>
      MatchMovRT1(EncodeMovRT1(p).word) && DecodeMovRT1(EncodeMovRT1(p).word) == p
  {
  }

  lemma MovsRT2Fits(p: MovsRT2)
    ensures EncodeMovsRT2(p).Some16? <==> p.rm < 8 && p.rd < 8
  {
  }

  lemma MovsRT2Law(p: MovsRT2)
    ensures EncodeMovsRT2(p).Some16? ==>
      MatchMovsRT2(EncodeMovsRT2(p).word) && DecodeMovsRT2(EncodeMovsRT2(p).word) == p
  {
  }

  lemma MovRT3Fits(p: MovRT3)
    ensures EncodeMovRT3(p).Some32? <==> p.rd < 16 && p.rm < 16 && p.setflags < 2
  {
  }

  lemma MovRT3Law(p: MovRT3)
    ensures EncodeMovRT3(p).Some32? ==>
      MatchMovRT3(EncodeMovRT3(p).word) && DecodeMovRT3(EncodeMovRT3(p).word) == p
  {
  }

  lemma PopT1Fits(p: PopT1)
    ensures EncodePopT1(p).Some16? <==> p.pc < 2 && p.regs < 0x100
  {
  }

  lemma PopT1Law(p: PopT1)
    ensures EncodePopT1(p).Some16? ==>
      MatchPopT1(EncodePopT1(p).word) && DecodePopT1(EncodePopT1(p).word) == p
  {
  }

  lemma PopT2Fits(p: PopT2)
    ensures EncodePopT2(p).Some32? <==> p.pc < 2 && p.lr < 2 && p.regs < 0x2000
  {
  }

  lemma PopT2Law(p: PopT2)
    ensures EncodePopT2(p).Some32? ==>
      MatchPopT2(EncodePopT2(p).word) && DecodePopT2(EncodePopT2(p).word) == p
  {
  }

  lemma PopT3Fits(p: PopT3)
    ensures EncodePopT3(p).Some32? <==> p.rt < 16
  {
  }

  lemma PopT3Law(p: PopT3)
    ensures EncodePopT3(p).Some32? ==>
      MatchPopT3(EncodePopT3(p).word) && DecodePopT3(EncodePopT3(p).word) == p
  {
  }

  lemma PushT1Fits(p: PushT1)
    ensures EncodePushT1(p).Some16? <==> p.lr < 2 && p.regs < 0x100
  {
  }

  lemma PushT1Law(p: PushT1)
    ensures EncodePushT1(p).Some16? ==>
      MatchPushT1(EncodePushT1(p).word) && DecodePushT1(EncodePushT1(p).word) == p
  {
  }

  lemma PushT2Fits(p: PushT2)
    ensures EncodePushT2(p).Some32? <==> p.lr < 2 && p.regs < 0x2000
  {
  }

  lemma PushT2Law(p: PushT2)
    ensures EncodePushT2(p).Some32? ==>
      MatchPushT2(EncodePushT2(p).word) && DecodePushT2(EncodePushT2(p).word) == p
  {
  }

  lemma PushT3Fits(p: PushT3)
    ensures EncodePushT3(p).Some32? <==> p.rt < 16
  {
  }

  lemma PushT3Law(p: PushT3)
    ensures EncodePushT3(p).Some32? ==>
      MatchPushT3(EncodePushT3(p).word) && DecodePushT3(EncodePushT3(p).word) == p
  {
  }

  lemma SubsIT1Fits(p: SubsIT1)
    ensures EncodeSubsIT1(p).Some16? <==> p.imm3 < 8 && p.rn < 8 && p.rd < 8
  {
  }

  lemma SubsIT1Law(p: SubsIT1)
    ensures EncodeSubsIT1(p).Some16? ==>
      MatchSubsIT1(EncodeSubsIT1(p).word) && DecodeSubsIT1(EncodeSubsIT1(p).word) == p
  {
  }

  lemma SubsIT2Fits(p: SubsIT2)
    ensures EncodeSubsIT2(p).Some16? <==> p.rdn < 8 && p.imm8 < 0x100
  {
  }

  lemma SubsIT2Law(p: SubsIT2)
    ensures EncodeSubsIT2(p).Some16? ==>
      MatchSubsIT2(EncodeSubsIT2(p).word) && DecodeSubsIT2(EncodeSubsIT2(p).word) == p
  {
  }

  lemma SubwIT4Fits(p: SubwIT4)
    ensures EncodeSubwIT4(p).Some32? <==> p.imm12 < 0x1000 && p.rd < 16 && p.rn < 16
  {
  }

  lemma SubwIT4Law(p: SubwIT4)
    ensures EncodeSubwIT4(p).Some32? ==>
      MatchSubwIT4(EncodeSubwIT4(p).word) && DecodeSubwIT4(EncodeSubwIT4(p).word) == p
  {
  }

  lemma SubsRT1Fits(p: SubsRT1)
    ensures EncodeSubsRT1(p).Some16? <==> p.rm < 8 && p.rn < 8 && p.rd < 8
  {
  }

  lemma SubsRT1Law(p: SubsRT1)
    ensures EncodeSubsRT1(p).Some16? ==>
      MatchSubsRT1(EncodeSubsRT1(p).word) && DecodeSubsRT1(EncodeSubsRT1(p).word) == p
  {
  }

  lemma SvcT1Fits(p: SvcT1)
    ensures EncodeSvcT1(p).Some16? <==> p.imm8 < 0x100
  {
  }

  lemma SvcT1Law(p: SvcT1)
    ensures EncodeSvcT1(p).Some16? ==>
      MatchSvcT1(EncodeSvcT1(p).word) && DecodeSvcT1(EncodeSvcT1(p).word) == p
  {
  }

  lemma UdfT1Fits(p: UdfT1)
    ensures EncodeUdfT1(p).Some16? <==> p.imm8 < 0x100
  {
  }

  lemma UdfT1Law(p: UdfT1)
    ensures EncodeUdfT1(p).Some16? ==>
      MatchUdfT1(EncodeUdfT1(p).word) && DecodeUdfT1(EncodeUdfT1(p).word) == p
  {
  }

  lemma UdfT2Fits(p: UdfT2)
    ensures EncodeUdfT2(p).Some32? <==> p.imm16 < 0x10000
  {
  }

  lemma UdfT2Law(p: UdfT2)
    ensures EncodeUdfT2(p).Some32? ==>
      MatchUdfT2(EncodeUdfT2(p).word) && DecodeUdfT2(EncodeUdfT2(p).word) == p
  {
  }

  lemma AddsIT1Word(field: bv16)
    ensures MatchAddsIT1(field) ==> EncodeAddsIT1(DecodeAddsIT1(field)) == Some16(field)
  {
  }

  lemma AddsIT2Word(field: bv16)
    ensures MatchAddsIT2(field) ==> EncodeAddsIT2(DecodeAddsIT2(field)) == Some16(field)
  {
  }

  lemma AddsRT1Word(field: bv16)
    ensures MatchAddsRT1(field) ==> EncodeAddsRT1(DecodeAddsRT1(field)) == Some16(field)
  {
  }

  lemma AddRT2Word(field: bv16)
    ensures MatchAddRT2(field) ==> EncodeAddRT2(DecodeAddRT2(field)) == Some16(field)
  {
  }

  lemma BCondT1Accepts(field: bv16)
    requires MatchBCondT1(field)
    ensures EncodeBCondT1(DecodeBCondT1(field)).Some16?
  {
    SignedFits9(DecodeBCondT1(field).simm8);
  }

  lemma BCondT1Bits(field: bv16)
    requires MatchBCondT1(field) && EncodeBCondT1(DecodeBCondT1(field)).Some16?
    ensures EncodeBCondT1(DecodeBCondT1(field)).word == field
  {
    if field & 0x80 != 0 {
    } else {
    }
  }

  lemma BCondT1Word(field: bv16)
    ensures MatchBCondT1(field) ==> EncodeBCondT1(DecodeBCondT1(field)) == Some16(field)
  {
    if MatchBCondT1(field) {
      BCondT1Accepts(field);
      BCondT1Bits(field);
    }
  }

  lemma BT2Accepts(field: bv16)
    requires MatchBT2(field)
    ensures EncodeBT2(DecodeBT2(field)).Some16?
  {
    SignedFits12(DecodeBT2(field).simm11);
  }

  lemma BT2Bits(field: bv16)
    requires MatchBT2(field) && EncodeBT2(DecodeBT2(field)).Some16?
    ensures EncodeBT2(DecodeBT2(field)).word == field
  {
    if field & 0x400 != 0 {
    } else {
    }
  }

  lemma BT2Word(field: bv16)
    ensures MatchBT2(field) ==> EncodeBT2(DecodeBT2(field)) == Some16(field)
  {
    if MatchBT2(field) {
      BT2Accepts(field);
      BT2Bits(field);
    }
  }

  lemma BkptT1Word(field: bv16)
    ensures MatchBkptT1(field) ==> EncodeBkptT1(DecodeBkptT1(field)) == Some16(field)
  {
  }

  lemma BlxT1Word(field: bv16)
    ensures MatchBlxT1(field) ==> EncodeBlxT1(DecodeBlxT1(field)) == Some16(field)
  {
  }

  lemma BxT1Word(field: bv16)
    ensures MatchBxT1(field) ==> EncodeBxT1(DecodeBxT1(field)) == Some16(field)
  {
  }

  lemma CmpIT1Word(field: bv16)
    ensures MatchCmpIT1(field) ==> EncodeCmpIT1(DecodeCmpIT1(field)) == Some16(field)
  {
  }

  lemma CmpRT1Word(field: bv16)
    ensures MatchCmpRT1(field) ==> EncodeCmpRT1(DecodeCmpRT1(field)) == Some16(field)
  {
  }

  lemma CmpRT2Word(field: bv16)
    ensures MatchCmpRT2(field) ==> EncodeCmpRT2(DecodeCmpRT2(field)) == Some16(field)
  {
  }

  lemma LdrIT1Word(field: bv16)
    ensures MatchLdrIT1(field) ==> EncodeLdrIT1(DecodeLdrIT1(field)) == Some16(field)
  {
  }

  lemma LdrIT2SpWord(field: bv16)
    ensures MatchLdrIT2Sp(field) ==> EncodeLdrIT2Sp(DecodeLdrIT2Sp(field)) == Some16(field)
  {
  }

  lemma LdrLitT1Word(field: bv16)
    ensures MatchLdrLitT1(field) ==> EncodeLdrLitT1(DecodeLdrLitT1(field)) == Some16(field)
  {
  }

  lemma LdrRT1Word(field: bv16)
    ensures MatchLdrRT1(field) ==> EncodeLdrRT1(DecodeLdrRT1(field)) == Some16(field)
  {
  }

  lemma MovsIT1Word(field: bv16)
    ensures MatchMovsIT1(field) ==> EncodeMovsIT1(DecodeMovsIT1(field)) == Some16(field)
  {
  }

  lemma MovRT1Word(field: bv16)
    ensures MatchMovRT1(field) ==> EncodeMovRT1(DecodeMovRT1(field)) == Some16(field)
  {
  }

  lemma MovsRT2Word(field: bv16)
    ensures MatchMovsRT2(field) ==> EncodeMovsRT2(DecodeMovsRT2(field)) == Some16(field)
  {
  }

  lemma PopT1Word(field: bv16)
    ensures MatchPopT1(field) ==> EncodePopT1(DecodePopT1(field)) == Some16(field)
  {
  }

  lemma PushT1Word(field: bv16)
    ensures MatchPushT1(field) ==> EncodePushT1(DecodePushT1(field)) == Some16(field)
  {
  }

  lemma SubsIT1Word(field: bv16)
    ensures MatchSubsIT1(field) ==> EncodeSubsIT1(DecodeSubsIT1(field)) == Some16(field)
  {
  }

  lemma SubsIT2Word(field: bv16)
    ensures MatchSubsIT2(field) ==> EncodeSubsIT2(DecodeSubsIT2(field)) == Some16(field)
  {
  }

  lemma SubsRT1Word(field: bv16)
    ensures MatchSubsRT1(field) ==> EncodeSubsRT1(DecodeSubsRT1(field)) == Some16(field)
  {
  }

  lemma SvcT1Word(field: bv16)
    ensures MatchSvcT1(field) ==> EncodeSvcT1(DecodeSvcT1(field)) == Some16(field)
  {
  }

  lemma UdfT1Word(field: bv16)
    ensures MatchUdfT1(field) ==> EncodeUdfT1(DecodeUdfT1(field)) == Some16(field)
  {
  }

  lemma AddwIT4Word(field: bv32)
    ensures MatchAddwIT4(field) ==> EncodeAddwIT4(DecodeAddwIT4(field)) == Some32(field)
  {
  }

  lemma BCondT3Accepts(field: bv32)
    requires MatchBCondT3(field)
    ensures EncodeBCondT3(DecodeBCondT3(field)).Some32?
  {
    SignedFits21(DecodeBCondT3(field).simm21);
  }

  lemma BCondT3Bits(field: bv32)
    requires MatchBCondT3(field) && EncodeBCondT3(DecodeBCondT3(field)).Some32?
    ensures EncodeBCondT3(DecodeBCondT3(field)).word == field
  {
    if field & 0x400 != 0 {
    } else {
    }
  }

  lemma BCondT3Word(field: bv32)
    ensures MatchBCondT3(field) ==> EncodeBCondT3(DecodeBCondT3(field)) == Some32(field)
  {
    if MatchBCondT3(field) {
      BCondT3Accepts(field);
      BCondT3Bits(field);
    }
  }

  lemma BT4Accepts(field: bv32)
    requires MatchBT4(field)
    ensures EncodeBT4(DecodeBT4(field)).Some32?
  {
    SignedFits25(DecodeBT4(field).simm25);
  }

  lemma BT4Bits(field: bv32)
    requires MatchBT4(field) && EncodeBT4(DecodeBT4(field)).Some32?
    ensures EncodeBT4(DecodeBT4(field)).word == field
  {
    if field & 0x400 != 0 {
    } else {
    }
  }

  lemma BT4Word(field: bv32)
    ensures MatchBT4(field) ==> EncodeBT4(DecodeBT4(field)) == Some32(field)
  {
    if MatchBT4(field) {
      BT4Accepts(field);
      BT4Bits(field);
    }
  }

  lemma BlT1Accepts(field: bv32)
    requires MatchBlT1(field)
    ensures EncodeBlT1(DecodeBlT1(field)).Some32?
  {
    SignedFits25(DecodeBlT1(field).simm25);
  }

  lemma BlT1Bits(field: bv32)
    requires MatchBlT1(field) && EncodeBlT1(DecodeBlT1(field)).Some32?
    ensures EncodeBlT1(DecodeBlT1(field)).word == field
  {
    if field & 0x400 != 0 {
    } else {
    }
  }

  lemma BlT1Word(field: bv32)
    ensures MatchBlT1(field) ==> EncodeBlT1(DecodeBlT1(field)) == Some32(field)
  {
    if MatchBlT1(field) {
      BlT1Accepts(field);
      BlT1Bits(field);
    }
  }

  lemma LdrIT3Word(field: bv32)
    ensures MatchLdrIT3(field) ==> EncodeLdrIT3(DecodeLdrIT3(field)) == Some32(field)
  {
  }

  lemma LdrIT4Word(field: bv32)
    ensures MatchLdrIT4(field) ==> EncodeLdrIT4(DecodeLdrIT4(field)) == Some32(field)
  {
  }

  lemma LdrLitT2Word(field: bv32)
    ensures MatchLdrLitT2(field) ==> EncodeLdrLitT2(DecodeLdrLitT2(field)) == Some32(field)
  {
  }

  lemma LdrRT2LslWord(field: bv32)
    ensures MatchLdrRT2Lsl(field) ==> EncodeLdrRT2Lsl(DecodeLdrRT2Lsl(field)) == Some32(field)
  {
  }

  lemma MovwIT3Word(field: bv32)
    ensures MatchMovwIT3(field) ==> EncodeMovwIT3(DecodeMovwIT3(field)) == Some32(field)
  {
  }

  lemma MovRT3Word(field: bv32)
    ensures MatchMovRT3(field) ==> EncodeMovRT3(DecodeMovRT3(field)) == Some32(field)
  {
  }

  lemma PopT2Word(field: bv32)
    ensures MatchPopT2(field) ==> EncodePopT2(DecodePopT2(field)) == Some32(field)
  {
  }

  lemma PopT3Word(field: bv32)
    ensures MatchPopT3(field) ==> EncodePopT3(DecodePopT3(field)) == Some32(field)
  {
  }

  lemma PushT2Word(field: bv32)
    ensures MatchPushT2(field) ==> EncodePushT2(DecodePushT2(field)) == Some32(field)
  {
  }

  lemma PushT3Word(field: bv32)
    ensures MatchPushT3(field) ==> EncodePushT3(DecodePushT3(field)) == Some32(field)
  {
  }

  lemma SubwIT4Word(field: bv32)
    ensures MatchSubwIT4(field) ==> EncodeSubwIT4(DecodeSubwIT4(field)) == Some32(field)
  {
  }

  lemma UdfT2Word(field: bv32)
    ensures MatchUdfT2(field) ==> EncodeUdfT2(DecodeUdfT2(field)) == Some32(field)
  {
  }

}
