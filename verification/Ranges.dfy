// The offsets that survive encoding, against those that the fit checks let through.

module Ranges {
  import opened T32Encoding
  import opened EncodingLaws

  /** B T2 accepts 4096 either way and keeps exactly the offsets within 2048. */
  lemma BT2Range(p: BT2)
    ensures EncodeBT2(p).Some16? <==> p.simm11 & 1 == 0 && Within(p.simm11, 0x1000)
    ensures EncodeBT2(p).Some16? ==> (DecodeBT2(EncodeBT2(p).word) == p <==> Within(p.simm11, 0x800))
  {
    BT2Fits(p);
    BT2Law(p);
    Wrap12Same(p.simm11);
  }

  /** B T4 accepts 2^25 either way and keeps exactly the offsets within 2^24. */
  lemma BT4Range(p: BT4)
    ensures EncodeBT4(p).Some32? <==> p.simm25 & 1 == 0 && Within(p.simm25, 0x200_0000)
    ensures EncodeBT4(p).Some32? ==> (DecodeBT4(EncodeBT4(p).word) == p <==> Within(p.simm25, 0x100_0000))
  {
    BT4Fits(p);
    BT4Law(p);
    Wrap25Same(p.simm25);
  }

  lemma BlT1Range(p: BlT1)
    ensures EncodeBlT1(p).Some32? <==> p.simm25 & 1 == 0 && Within(p.simm25, 0x200_0000)
    ensures EncodeBlT1(p).Some32? ==> (DecodeBlT1(EncodeBlT1(p).word) == p <==> Within(p.simm25, 0x100_0000))
  {
    BlT1Fits(p);
    BlT1Law(p);
    Wrap25Same(p.simm25);
  }

  /** Conditional B T1 accepts 512 either way and keeps exactly the offsets within 256. */
  lemma BCondT1Range(p: BCondT1)
    ensures EncodeBCondT1(p).Some16? <==> p.cond < 16 && p.simm8 & 1 == 0 && Within(p.simm8, 0x200)
    ensures EncodeBCondT1(p).Some16? ==> (DecodeBCondT1(EncodeBCondT1(p).word) == p <==> Within(p.simm8, 0x100))
  {
    BCondT1Fits(p);
    BCondT1Law(p);
    Wrap9Same(p.simm8);
  }

  lemma BCondT3Range(p: BCondT3)
    ensures EncodeBCondT3(p).Some32? <==> p.cond < 16 && p.simm21 & 1 == 0 && Within(p.simm21, 0x20_0000)
    ensures EncodeBCondT3(p).Some32? ==>
      (DecodeBCondT3(EncodeBCondT3(p).word) == p <==> Within(p.simm21, 0x10_0000))
  {
    BCondT3Fits(p);
    BCondT3Law(p);
    Wrap21Same(p.simm21);
  }

  /** Scaled loads accept four times what they keep. */
  lemma LdrIT1Range(p: LdrIT1)
    ensures EncodeLdrIT1(p).Some16? <==> p.imm7 & 3 == 0 && p.imm7 < 512 && p.rn < 8 && p.rt < 8
    ensures EncodeLdrIT1(p).Some16? ==> (DecodeLdrIT1(EncodeLdrIT1(p).word) == p <==> p.imm7 < 128)
  {
    LdrIT1Fits(p);
    LdrIT1Law(p);
    if EncodeLdrIT1(p).Some16? {
      Scaled7(p.imm7);
    }
  }

  lemma LdrIT2SpRange(p: LdrIT2Sp)
    ensures EncodeLdrIT2Sp(p).Some16? <==> p.imm10 & 3 == 0 && p.imm10 < 4096 && p.rt < 8
    ensures EncodeLdrIT2Sp(p).Some16? ==> (DecodeLdrIT2Sp(EncodeLdrIT2Sp(p).word) == p <==> p.imm10 < 1024)
  {
    LdrIT2SpFits(p);
    LdrIT2SpLaw(p);
    if EncodeLdrIT2Sp(p).Some16? {
      Scaled10(p.imm10);
    }
  }

  lemma LdrLitT1Range(p: LdrLitT1)
    ensures EncodeLdrLitT1(p).Some16? <==> p.imm10 & 3 == 0 && p.imm10 < 4096 && p.rt < 8
    ensures EncodeLdrLitT1(p).Some16? ==> (DecodeLdrLitT1(EncodeLdrLitT1(p).word) == p <==> p.imm10 < 1024)
  {
    LdrLitT1Fits(p);
    LdrLitT1Law(p);
    if EncodeLdrLitT1(p).Some16? {
      Scaled10(p.imm10);
    }
  }
}
