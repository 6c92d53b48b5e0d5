// The words of every encoding, from the encoding diagrams of the ARMv7-M Architecture Reference
// Manual, section A7.7: the bits that are fixed, and where the numbers in between stand. Fields are
// read off as numbers, so that `v / 8 % 8` is the field of three bits that starts at bit 3.

module Patterns {
  import opened T32Encoding
  import opened Overlaps
  import opened Encodings

  /** The first halfword of a wide instruction is stored first. */
  function First(w: bv32): bv32 {
    w % 0x1_0000
  }

  function Second(w: bv32): bv32 {
    w / 0x1_0000
  }

  // ---- Fixed bits

  predicate HasPattern16(e: Narrow, w: bv16) {
    match e
    case NAddsIT1 => w & 0xfe00 == 0x1c00  // 0001110 imm3 Rn Rd
    case NAddsIT2 => w & 0xf800 == 0x3000  // 00110 Rdn imm8
    case NAddsRT1 => w & 0xfe00 == 0x1800  // 0001100 Rm Rn Rd
    case NAddRT2 => w & 0xff00 == 0x4400  // 01000100 DN Rm Rdn
    case NBCondT1 => w & 0xf000 == 0xd000  // 1101 cond imm8
    case NBT2 => w & 0xf800 == 0xe000  // 11100 imm11
    case NBkptT1 => w & 0xff00 == 0xbe00  // 10111110 imm8
    case NBlxT1 => w & 0xff87 == 0x4780  // 010001111 Rm 000
    case NBxT1 => w & 0xff87 == 0x4700  // 010001110 Rm 000
    case NCmpIT1 => w & 0xf800 == 0x2800  // 00101 Rn imm8
    case NCmpRT1 => w & 0xffc0 == 0x4280  // 0100001010 Rm Rn
    case NCmpRT2 => w & 0xff00 == 0x4500  // 01000101 N Rm Rn
    case NLdrIT1 => w & 0xf800 == 0x6800  // 01101 imm5 Rn Rt
    case NLdrIT2Sp => w & 0xf800 == 0x9800  // 10011 Rt imm8
    case NLdrLitT1 => w & 0xf800 == 0x4800  // 01001 Rt imm8
    case NLdrRT1 => w & 0xfe00 == 0x5800  // 0101100 Rm Rn Rt
    case NMovsIT1 => w & 0xf800 == 0x2000  // 00100 Rd imm8
    case NMovRT1 => w & 0xff00 == 0x4600  // 01000110 D Rm Rd
    case NMovsRT2 => w & 0xffc0 == 0x0000  // 0000000000 Rm Rd
    case NPopT1 => w & 0xfe00 == 0xbc00  // 1011110 P register_list
    case NPushT1 => w & 0xfe00 == 0xb400  // 1011010 M register_list
    case NSubsIT1 => w & 0xfe00 == 0x1e00  // 0001111 imm3 Rn Rd
    case NSubsIT2 => w & 0xf800 == 0x3800  // 00111 Rdn imm8
    case NSubsRT1 => w & 0xfe00 == 0x1a00  // 0001101 Rm Rn Rd
    case NSvcT1 => w & 0xff00 == 0xdf00  // 11011111 imm8
    case NUdfT1 => w & 0xff00 == 0xde00  // 11011110 imm8
    case NNopT1 => w & 0xffff == 0xbf00  // 1011111100000000
    case NoNarrow => false
  }

  predicate HasPattern32(e: WideKind, w: bv32) {
    match e
    case WAddwIT4 =>  // 11110 i 100000 Rn | 0 imm3 Rd imm8
      First(w) & 0xfbf0 == 0xf200 && Second(w) & 0x8000 == 0x0000
    case WBCondT3 =>  // 11110 S cond imm6 | 10 J1 0 J2 imm11
      First(w) & 0xf800 == 0xf000 && Second(w) & 0xd000 == 0x8000
    case WBT4 =>  // 11110 S imm10 | 10 J1 1 J2 imm11
      First(w) & 0xf800 == 0xf000 && Second(w) & 0xd000 == 0x9000
    case WBlT1 =>  // 11110 S imm10 | 11 J1 1 J2 imm11
      First(w) & 0xf800 == 0xf000 && Second(w) & 0xd000 == 0xd000
    case WLdrIT3 =>  // 111110001101 Rn | Rt imm12
      First(w) & 0xfff0 == 0xf8d0
    case WLdrIT4 =>  // 111110000101 Rn | Rt 1 P U W imm8
      First(w) & 0xfff0 == 0xf850 && Second(w) & 0x0800 == 0x0800
    case WLdrLitT2 =>  // 11111000 U 1011111 | Rt imm12
      First(w) & 0xff7f == 0xf85f
    case WLdrRT2Lsl =>  // 111110000101 Rn | Rt 000000 imm2 Rm
      First(w) & 0xfff0 == 0xf850 && Second(w) & 0x0fc0 == 0x0000
    case WMovwIT3 =>  // 11110 i 100100 imm4 | 0 imm3 Rd imm8
      First(w) & 0xfbf0 == 0xf240 && Second(w) & 0x8000 == 0x0000
    case WMovRT3 =>  // 11101010010 S 1111 | 0000 Rd 0000 Rm
      First(w) & 0xffef == 0xea4f && Second(w) & 0xf0f0 == 0x0000
    case WPopT2 =>  // 1110100010111101 | P M 0 register_list
      First(w) & 0xffff == 0xe8bd && Second(w) & 0x2000 == 0x0000
    case WPopT3 =>  // 1111100001011101 | Rt 101100000100
      First(w) & 0xffff == 0xf85d && Second(w) & 0x0fff == 0x0b04
    case WPushT2 =>  // 1110100100101101 | 0 M 0 register_list
      First(w) & 0xffff == 0xe92d && Second(w) & 0xa000 == 0x0000
    case WPushT3 =>  // 1111100001001101 | Rt 110100000100
      First(w) & 0xffff == 0xf84d && Second(w) & 0x0fff == 0x0d04
    case WSubwIT4 =>  // 11110 i 101010 Rn | 0 imm3 Rd imm8
      First(w) & 0xfbf0 == 0xf2a0 && Second(w) & 0x8000 == 0x0000
    case WUdfT2 =>  // 111101111111 imm4 | 1010 imm12
      First(w) & 0xfff0 == 0xf7f0 && Second(w) & 0xf000 == 0xa000
    case WNopT2 =>  // 1111001110101111 | 1000000000000000
      First(w) & 0xffff == 0xf3af && Second(w) & 0xffff == 0x8000
    case NoWide => false
  }

  // ---- Fields

  /** A branch offset whose sign bit stands for -weight. */
  function Branching(magnitude: bv32, sign: bv32, weight: bv32): bv32 {
    if sign == 1 then magnitude - weight else magnitude
  }

  /** S:J2:J1:imm6:imm11:0 */
  function ConditionalOffset(sign: bv32, j1: bv32, j2: bv32, imm6: bv32, imm11: bv32): bv32 {
    Branching((j2 * 0x8_0000) | (j1 * 0x4_0000) | (imm6 * 0x1000) | (imm11 * 2), sign, 0x10_0000)
  }

  /** S:I1:I2:imm10:imm11:0, where I1 and I2 tell whether J1 and J2 agree with the sign. */
  function FarOffset(sign: bv32, j1: bv32, j2: bv32, imm10: bv32, imm11: bv32): bv32 {
    var i1: bv32 := if j1 == sign then 1 else 0;
    var i2: bv32 := if j2 == sign then 1 else 0;
    Branching((i1 * 0x80_0000) | (i2 * 0x40_0000) | (imm10 * 0x1000) | (imm11 * 2), sign, 0x100_0000)
  }

  function FarBranch(h: bv32, k: bv32): bv32 {
    FarOffset(h / 1024 % 2, k / 8192 % 2, k / 2048 % 2, h % 1024, k % 2048)
  }

  function PartsIn16(e: Narrow, w: bv16): NarrowParts
    requires HasPartsNarrow(e)
  {
    var v := Wide(w);
    match e
    case NAddsIT1 => OfAddsIT1(AddsIT1(v / 64 % 8, v / 8 % 8, v % 8))
    case NAddsIT2 => OfAddsIT2(AddsIT2(v / 256 % 8, v % 256))
    case NAddsRT1 => OfAddsRT1(AddsRT1(v / 64 % 8, v / 8 % 8, v % 8))
    case NAddRT2 => OfAddRT2(AddRT2(v / 128 % 2 * 8 + v % 8, v / 8 % 16))
    case NBCondT1 => OfBCondT1(BCondT1(v / 256 % 16, Branching(2 * (v % 128), v / 128 % 2, 0x100)))
    case NBT2 => OfBT2(BT2(Branching(2 * (v % 1024), v / 1024 % 2, 0x800)))
    case NBkptT1 => OfBkptT1(BkptT1(v % 256))
    case NBlxT1 => OfBlxT1(BlxT1(v / 8 % 16))
    case NBxT1 => OfBxT1(BxT1(v / 8 % 16))
    case NCmpIT1 => OfCmpIT1(CmpIT1(v / 256 % 8, v % 256))
    case NCmpRT1 => OfCmpRT1(CmpRT1(v / 8 % 8, v % 8))
    case NCmpRT2 => OfCmpRT2(CmpRT2(v / 128 % 2 * 8 + v % 8, v / 8 % 16))
    case NLdrIT1 => OfLdrIT1(LdrIT1(v % 8, v / 8 % 8, 4 * (v / 64 % 32)))
    case NLdrIT2Sp => OfLdrIT2Sp(LdrIT2Sp(v / 256 % 8, 4 * (v % 256)))
    case NLdrLitT1 => OfLdrLitT1(LdrLitT1(v / 256 % 8, 4 * (v % 256)))
    case NLdrRT1 => OfLdrRT1(LdrRT1(v / 64 % 8, v / 8 % 8, v % 8))
    case NMovsIT1 => OfMovsIT1(MovsIT1(v / 256 % 8, v % 256))
    case NMovRT1 => OfMovRT1(MovRT1(v / 8 % 16, v / 128 % 2 * 8 + v % 8))
    case NMovsRT2 => OfMovsRT2(MovsRT2(v / 8 % 8, v % 8))
    case NPopT1 => OfPopT1(PopT1(v / 256 % 2, v % 256))
    case NPushT1 => OfPushT1(PushT1(v / 256 % 2, v % 256))
    case NSubsIT1 => OfSubsIT1(SubsIT1(v / 64 % 8, v / 8 % 8, v % 8))
    case NSubsIT2 => OfSubsIT2(SubsIT2(v / 256 % 8, v % 256))
    case NSubsRT1 => OfSubsRT1(SubsRT1(v / 64 % 8, v / 8 % 8, v % 8))
    case NSvcT1 => OfSvcT1(SvcT1(v % 256))
    case NUdfT1 => OfUdfT1(UdfT1(v % 256))
  }

  function PartsIn32(e: WideKind, w: bv32): WideParts
    requires HasPartsWide(e)
  {
    var h, k := First(w), Second(w);
    match e
    case WAddwIT4 =>
      OfAddwIT4(AddwIT4(k / 256 % 16, h % 16, h / 1024 % 2 * 2048 + k / 4096 % 8 * 256 + k % 256))
    case WBCondT3 =>
      OfBCondT3(BCondT3(h / 64 % 16, ConditionalOffset(h / 1024 % 2, k / 8192 % 2, k / 2048 % 2, h % 64, k % 2048)))
    case WBT4 => OfBT4(BT4(FarBranch(h, k)))
    case WBlT1 => OfBlT1(BlT1(FarBranch(h, k)))
    case WLdrIT3 => OfLdrIT3(LdrIT3(k / 4096, k % 4096, h % 16))
    case WLdrIT4 => OfLdrIT4(LdrIT4(k / 4096, k / 1024 % 2, k / 512 % 2, k / 256 % 2, k % 256, h % 16))
    case WLdrLitT2 => OfLdrLitT2(LdrLitT2(k / 4096, k % 4096, h / 128 % 2))
    case WLdrRT2Lsl => OfLdrRT2Lsl(LdrRT2Lsl(k / 4096, k / 16 % 4, k % 16, h % 16))
    case WMovwIT3 =>
      OfMovwIT3(MovwIT3(k / 256 % 16, h % 16 * 4096 + h / 1024 % 2 * 2048 + k / 4096 % 8 * 256 + k % 256))
    case WMovRT3 => OfMovRT3(MovRT3(k / 256 % 16, k % 16, h / 16 % 2))
    case WPopT2 => OfPopT2(PopT2(k / 0x8000, k / 0x4000 % 2, k % 0x2000))
    case WPopT3 => OfPopT3(PopT3(k / 4096))
    case WPushT2 => OfPushT2(PushT2(k / 0x4000 % 2, k % 0x2000))
    case WPushT3 => OfPushT3(PushT3(k / 4096))
    case WSubwIT4 =>
      OfSubwIT4(SubwIT4(k / 256 % 16, h % 16, h / 1024 % 2 * 2048 + k / 4096 % 8 * 256 + k % 256))
    case WUdfT2 => OfUdfT2(UdfT2(h % 16 * 4096 + k % 4096))
  }

  // ---- The matchers and decoders agree

  lemma AddsIT1Pattern(w: bv16)
    ensures MatchAddsIT1(w) <==> HasPattern16(NAddsIT1, w)
    ensures OfAddsIT1(DecodeAddsIT1(w)) == PartsIn16(NAddsIT1, w)
  {
  }

  lemma AddsIT2Pattern(w: bv16)
    ensures MatchAddsIT2(w) <==> HasPattern16(NAddsIT2, w)
    ensures OfAddsIT2(DecodeAddsIT2(w)) == PartsIn16(NAddsIT2, w)
  {
  }

  lemma AddsRT1Pattern(w: bv16)
    ensures MatchAddsRT1(w) <==> HasPattern16(NAddsRT1, w)
    ensures OfAddsRT1(DecodeAddsRT1(w)) == PartsIn16(NAddsRT1, w)
  {
  }

  lemma AddRT2Pattern(w: bv16)
    ensures MatchAddRT2(w) <==> HasPattern16(NAddRT2, w)
    ensures OfAddRT2(DecodeAddRT2(w)) == PartsIn16(NAddRT2, w)
  {
  }

  lemma BCondT1Pattern(w: bv16)
    ensures MatchBCondT1(w) <==> HasPattern16(NBCondT1, w)
    ensures OfBCondT1(DecodeBCondT1(w)) == PartsIn16(NBCondT1, w)
  {
  }

  lemma BT2Pattern(w: bv16)
    ensures MatchBT2(w) <==> HasPattern16(NBT2, w)
    ensures OfBT2(DecodeBT2(w)) == PartsIn16(NBT2, w)
  {
  }

  lemma BkptT1Pattern(w: bv16)
    ensures MatchBkptT1(w) <==> HasPattern16(NBkptT1, w)
    ensures OfBkptT1(DecodeBkptT1(w)) == PartsIn16(NBkptT1, w)
  {
  }

  lemma BlxT1Pattern(w: bv16)
    ensures MatchBlxT1(w) <==> HasPattern16(NBlxT1, w)
    ensures OfBlxT1(DecodeBlxT1(w)) == PartsIn16(NBlxT1, w)
  {
  }

  lemma BxT1Pattern(w: bv16)
    ensures MatchBxT1(w) <==> HasPattern16(NBxT1, w)
    ensures OfBxT1(DecodeBxT1(w)) == PartsIn16(NBxT1, w)
  {
  }

  lemma CmpIT1Pattern(w: bv16)
    ensures MatchCmpIT1(w) <==> HasPattern16(NCmpIT1, w)
    ensures OfCmpIT1(DecodeCmpIT1(w)) == PartsIn16(NCmpIT1, w)
  {
  }

  lemma CmpRT1Pattern(w: bv16)
    ensures MatchCmpRT1(w) <==> HasPattern16(NCmpRT1, w)
    ensures OfCmpRT1(DecodeCmpRT1(w)) == PartsIn16(NCmpRT1, w)
  {
  }

  lemma CmpRT2Pattern(w: bv16)
    ensures MatchCmpRT2(w) <==> HasPattern16(NCmpRT2, w)
    ensures OfCmpRT2(DecodeCmpRT2(w)) == PartsIn16(NCmpRT2, w)
  {
  }

  lemma LdrIT1Pattern(w: bv16)
    ensures MatchLdrIT1(w) <==> HasPattern16(NLdrIT1, w)
    ensures OfLdrIT1(DecodeLdrIT1(w)) == PartsIn16(NLdrIT1, w)
  {
  }

  lemma LdrIT2SpPattern(w: bv16)
    ensures MatchLdrIT2Sp(w) <==> HasPattern16(NLdrIT2Sp, w)
    ensures OfLdrIT2Sp(DecodeLdrIT2Sp(w)) == PartsIn16(NLdrIT2Sp, w)
  {
  }

  lemma LdrLitT1Pattern(w: bv16)
    ensures MatchLdrLitT1(w) <==> HasPattern16(NLdrLitT1, w)
    ensures OfLdrLitT1(DecodeLdrLitT1(w)) == PartsIn16(NLdrLitT1, w)
  {
  }

  lemma LdrRT1Pattern(w: bv16)
    ensures MatchLdrRT1(w) <==> HasPattern16(NLdrRT1, w)
    ensures OfLdrRT1(DecodeLdrRT1(w)) == PartsIn16(NLdrRT1, w)
  {
  }

  lemma MovsIT1Pattern(w: bv16)
    ensures MatchMovsIT1(w) <==> HasPattern16(NMovsIT1, w)
    ensures OfMovsIT1(DecodeMovsIT1(w)) == PartsIn16(NMovsIT1, w)
  {
  }

  lemma MovRT1Pattern(w: bv16)
    ensures MatchMovRT1(w) <==> HasPattern16(NMovRT1, w)
    ensures OfMovRT1(DecodeMovRT1(w)) == PartsIn16(NMovRT1, w)
  {
  }

  lemma MovsRT2Pattern(w: bv16)
    ensures MatchMovsRT2(w) <==> HasPattern16(NMovsRT2, w)
    ensures OfMovsRT2(DecodeMovsRT2(w)) == PartsIn16(NMovsRT2, w)
  {
  }

  lemma PopT1Pattern(w: bv16)
    ensures MatchPopT1(w) <==> HasPattern16(NPopT1, w)
    ensures OfPopT1(DecodePopT1(w)) == PartsIn16(NPopT1, w)
  {
  }

  lemma PushT1Pattern(w: bv16)
    ensures MatchPushT1(w) <==> HasPattern16(NPushT1, w)
    ensures OfPushT1(DecodePushT1(w)) == PartsIn16(NPushT1, w)
  {
  }

  lemma SubsIT1Pattern(w: bv16)
    ensures MatchSubsIT1(w) <==> HasPattern16(NSubsIT1, w)
    ensures OfSubsIT1(DecodeSubsIT1(w)) == PartsIn16(NSubsIT1, w)
  {
  }

  lemma SubsIT2Pattern(w: bv16)
    ensures MatchSubsIT2(w) <==> HasPattern16(NSubsIT2, w)
    ensures OfSubsIT2(DecodeSubsIT2(w)) == PartsIn16(NSubsIT2, w)
  {
  }

  lemma SubsRT1Pattern(w: bv16)
    ensures MatchSubsRT1(w) <==> HasPattern16(NSubsRT1, w)
    ensures OfSubsRT1(DecodeSubsRT1(w)) == PartsIn16(NSubsRT1, w)
  {
  }

  lemma SvcT1Pattern(w: bv16)
    ensures MatchSvcT1(w) <==> HasPattern16(NSvcT1, w)
    ensures OfSvcT1(DecodeSvcT1(w)) == PartsIn16(NSvcT1, w)
  {
  }

  lemma UdfT1Pattern(w: bv16)
    ensures MatchUdfT1(w) <==> HasPattern16(NUdfT1, w)
    ensures OfUdfT1(DecodeUdfT1(w)) == PartsIn16(NUdfT1, w)
  {
  }

  lemma NopT1Pattern(w: bv16)
    ensures MatchNopT1(w) <==> HasPattern16(NNopT1, w)
  {
  }

  lemma BranchFields(w: bv32)
    ensures (w >> 10) & 0x1 == First(w) / 1024 % 2
    ensures (w >> 29) & 0x1 == Second(w) / 8192 % 2
    ensures (w >> 27) & 0x1 == Second(w) / 2048 % 2
    ensures w & 0x3ff == First(w) % 1024 && w & 0x3f == First(w) % 64
    ensures (w >> 16) & 0x7ff == Second(w) % 2048
  {
  }

  function Extended24(imm: bv32): bv32 {
    (if imm & 0x80_0000 != 0 then imm | 0xff00_0000 else imm) << 1
  }

  function Extended20(imm: bv32): bv32 {
    (if imm & 0x8_0000 != 0 then imm | 0xfff0_0000 else imm) << 1
  }

  /** The decoders of B T4 and BL, field by field. */
  function DecodedFar(sign: bv32, j1: bv32, j2: bv32, imm10: bv32, imm11: bv32): bv32 {
    var i2 := (!j2 ^ sign) & 0x1;
    var i1 := (!j1 ^ sign) & 0x1;
    Extended24((sign << 23) | (i1 << 22) | (i2 << 21) | (imm10 << 11) | imm11)
  }

  function DecodedConditional(sign: bv32, j1: bv32, j2: bv32, imm6: bv32, imm11: bv32): bv32 {
    Extended20((sign << 19) | (j2 << 18) | (j1 << 17) | (imm6 << 11) | imm11)
  }

  lemma FarDecodes(sign: bv32, j1: bv32, j2: bv32, imm10: bv32, imm11: bv32)
    requires sign < 2 && j1 < 2 && j2 < 2 && imm10 < 1024 && imm11 < 2048
    ensures DecodedFar(sign, j1, j2, imm10, imm11) == FarOffset(sign, j1, j2, imm10, imm11)
  {
    if sign == 0 {
      if j1 == 0 {
        if j2 == 0 {
        } else {
        }
      } else {
        if j2 == 0 {
        } else {
        }
      }
    } else {
      if j1 == 0 {
        if j2 == 0 {
        } else {
        }
      } else {
        if j2 == 0 {
        } else {
        }
      }
    }
  }

  lemma ConditionalDecodes(sign: bv32, j1: bv32, j2: bv32, imm6: bv32, imm11: bv32)
    requires sign < 2 && j1 < 2 && j2 < 2 && imm6 < 64 && imm11 < 2048
    ensures DecodedConditional(sign, j1, j2, imm6, imm11) == ConditionalOffset(sign, j1, j2, imm6, imm11)
  {
    if sign == 0 {
      if j1 == 0 {
        if j2 == 0 {
        } else {
        }
      } else {
        if j2 == 0 {
        } else {
        }
      }
    } else {
      if j1 == 0 {
        if j2 == 0 {
        } else {
        }
      } else {
        if j2 == 0 {
        } else {
        }
      }
    }
  }

  lemma FieldsAreSmall(w: bv32)
    ensures (w >> 10) & 0x1 < 2 && (w >> 29) & 0x1 < 2 && (w >> 27) & 0x1 < 2
    ensures w & 0x3ff < 1024 && w & 0x3f < 64 && (w >> 16) & 0x7ff < 2048
  {
  }

  lemma AddwIT4Pattern(w: bv32)
    ensures MatchAddwIT4(w) <==> HasPattern32(WAddwIT4, w)
    ensures OfAddwIT4(DecodeAddwIT4(w)) == PartsIn32(WAddwIT4, w)
  {
  }

  lemma BCondT3Pattern(w: bv32)
    ensures MatchBCondT3(w) <==> HasPattern32(WBCondT3, w)
    ensures OfBCondT3(DecodeBCondT3(w)) == PartsIn32(WBCondT3, w)
  {
    BranchFields(w);
    FieldsAreSmall(w);
    ConditionalDecodes((w >> 10) & 0x1, (w >> 29) & 0x1, (w >> 27) & 0x1, w & 0x3f, (w >> 16) & 0x7ff);
  }

  lemma BT4Pattern(w: bv32)
    ensures MatchBT4(w) <==> HasPattern32(WBT4, w)
    ensures OfBT4(DecodeBT4(w)) == PartsIn32(WBT4, w)
  {
    BranchFields(w);
    FieldsAreSmall(w);
    FarDecodes((w >> 10) & 0x1, (w >> 29) & 0x1, (w >> 27) & 0x1, w & 0x3ff, (w >> 16) & 0x7ff);
  }

  lemma BlT1Pattern(w: bv32)
    ensures MatchBlT1(w) <==> HasPattern32(WBlT1, w)
    ensures OfBlT1(DecodeBlT1(w)) == PartsIn32(WBlT1, w)
  {
    BranchFields(w);
    FieldsAreSmall(w);
    FarDecodes((w >> 10) & 0x1, (w >> 29) & 0x1, (w >> 27) & 0x1, w & 0x3ff, (w >> 16) & 0x7ff);
  }

  lemma LdrIT3Pattern(w: bv32)
    ensures MatchLdrIT3(w) <==> HasPattern32(WLdrIT3, w)
    ensures OfLdrIT3(DecodeLdrIT3(w)) == PartsIn32(WLdrIT3, w)
  {
  }

  lemma LdrIT4Pattern(w: bv32)
    ensures MatchLdrIT4(w) <==> HasPattern32(WLdrIT4, w)
    ensures OfLdrIT4(DecodeLdrIT4(w)) == PartsIn32(WLdrIT4, w)
  {
  }

  lemma LdrLitT2Pattern(w: bv32)
    ensures MatchLdrLitT2(w) <==> HasPattern32(WLdrLitT2, w)
    ensures OfLdrLitT2(DecodeLdrLitT2(w)) == PartsIn32(WLdrLitT2, w)
  {
  }

  lemma LdrRT2LslPattern(w: bv32)
    ensures MatchLdrRT2Lsl(w) <==> HasPattern32(WLdrRT2Lsl, w)
    ensures OfLdrRT2Lsl(DecodeLdrRT2Lsl(w)) == PartsIn32(WLdrRT2Lsl, w)
  {
  }

  lemma MovwIT3Pattern(w: bv32)
    ensures MatchMovwIT3(w) <==> HasPattern32(WMovwIT3, w)
    ensures OfMovwIT3(DecodeMovwIT3(w)) == PartsIn32(WMovwIT3, w)
  {
  }

  lemma MovRT3Pattern(w: bv32)
    ensures MatchMovRT3(w) <==> HasPattern32(WMovRT3, w)
    ensures OfMovRT3(DecodeMovRT3(w)) == PartsIn32(WMovRT3, w)
  {
  }

  lemma PopT2Pattern(w: bv32)
    ensures MatchPopT2(w) <==> HasPattern32(WPopT2, w)
    ensures OfPopT2(DecodePopT2(w)) == PartsIn32(WPopT2, w)
  {
  }

  lemma PopT3Pattern(w: bv32)
    ensures MatchPopT3(w) <==> HasPattern32(WPopT3, w)
    ensures OfPopT3(DecodePopT3(w)) == PartsIn32(WPopT3, w)
  {
  }

  lemma PushT2Pattern(w: bv32)
    ensures MatchPushT2(w) <==> HasPattern32(WPushT2, w)
    ensures OfPushT2(DecodePushT2(w)) == PartsIn32(WPushT2, w)
  {
  }

  lemma PushT3Pattern(w: bv32)
    ensures MatchPushT3(w) <==> HasPattern32(WPushT3, w)
    ensures OfPushT3(DecodePushT3(w)) == PartsIn32(WPushT3, w)
  {
  }

  lemma SubwIT4Pattern(w: bv32)
    ensures MatchSubwIT4(w) <==> HasPattern32(WSubwIT4, w)
    ensures OfSubwIT4(DecodeSubwIT4(w)) == PartsIn32(WSubwIT4, w)
  {
  }

  lemma UdfT2Pattern(w: bv32)
    ensures MatchUdfT2(w) <==> HasPattern32(WUdfT2, w)
    ensures OfUdfT2(DecodeUdfT2(w)) == PartsIn32(WUdfT2, w)
  {
  }

  lemma NopT2Pattern(w: bv32)
    ensures MatchNopT2(w) <==> HasPattern32(WNopT2, w)
  {
  }

  lemma EarlyNarrow(e: Narrow, w: bv16)
    requires
      e.NAddsIT1? || e.NAddsIT2? || e.NAddsRT1? || e.NAddRT2? || e.NBCondT1? || e.NBT2? ||
      e.NBkptT1? || e.NBlxT1? || e.NBxT1?
    ensures Accepts16(e, w) <==> HasPattern16(e, w)
    ensures HasPartsNarrow(e) ==> DecodeNarrow(e, w) == PartsIn16(e, w)
  {
    match e
    case NAddsIT1 => AddsIT1Pattern(w);
    case NAddsIT2 => AddsIT2Pattern(w);
    case NAddsRT1 => AddsRT1Pattern(w);
    case NAddRT2 => AddRT2Pattern(w);
    case NBCondT1 => BCondT1Pattern(w);
    case NBT2 => BT2Pattern(w);
    case NBkptT1 => BkptT1Pattern(w);
    case NBlxT1 => BlxT1Pattern(w);
    case NBxT1 => BxT1Pattern(w);
  }

  lemma MiddleNarrow(e: Narrow, w: bv16)
    requires
      e.NCmpIT1? || e.NCmpRT1? || e.NCmpRT2? || e.NLdrIT1? || e.NLdrIT2Sp? || e.NLdrLitT1? ||
      e.NLdrRT1? || e.NMovsIT1? || e.NMovRT1?
    ensures Accepts16(e, w) <==> HasPattern16(e, w)
    ensures HasPartsNarrow(e) ==> DecodeNarrow(e, w) == PartsIn16(e, w)
  {
    match e
    case NCmpIT1 => CmpIT1Pattern(w);
    case NCmpRT1 => CmpRT1Pattern(w);
    case NCmpRT2 => CmpRT2Pattern(w);
    case NLdrIT1 => LdrIT1Pattern(w);
    case NLdrIT2Sp => LdrIT2SpPattern(w);
    case NLdrLitT1 => LdrLitT1Pattern(w);
    case NLdrRT1 => LdrRT1Pattern(w);
    case NMovsIT1 => MovsIT1Pattern(w);
    case NMovRT1 => MovRT1Pattern(w);
  }

  lemma LateNarrow(e: Narrow, w: bv16)
    requires
      e.NMovsRT2? || e.NPopT1? || e.NPushT1? || e.NSubsIT1? || e.NSubsIT2? || e.NSubsRT1? ||
      e.NSvcT1? || e.NUdfT1? || e.NNopT1?
    ensures Accepts16(e, w) <==> HasPattern16(e, w)
    ensures HasPartsNarrow(e) ==> DecodeNarrow(e, w) == PartsIn16(e, w)
  {
    match e
    case NMovsRT2 => MovsRT2Pattern(w);
    case NPopT1 => PopT1Pattern(w);
    case NPushT1 => PushT1Pattern(w);
    case NSubsIT1 => SubsIT1Pattern(w);
    case NSubsIT2 => SubsIT2Pattern(w);
    case NSubsRT1 => SubsRT1Pattern(w);
    case NSvcT1 => SvcT1Pattern(w);
    case NUdfT1 => UdfT1Pattern(w);
    case NNopT1 => NopT1Pattern(w);
  }

  /** Every narrow matcher accepts exactly the words of its diagram, and its decoder reads the numbers off
      their places in it. */
  lemma NarrowDiagrams(e: Narrow, w: bv16)
    ensures Accepts16(e, w) <==> HasPattern16(e, w)
    ensures HasPartsNarrow(e) ==> DecodeNarrow(e, w) == PartsIn16(e, w)
  {
    match e
    case NAddsIT1 => EarlyNarrow(e, w);
    case NAddsIT2 => EarlyNarrow(e, w);
    case NAddsRT1 => EarlyNarrow(e, w);
    case NAddRT2 => EarlyNarrow(e, w);
    case NBCondT1 => EarlyNarrow(e, w);
    case NBT2 => EarlyNarrow(e, w);
    case NBkptT1 => EarlyNarrow(e, w);
    case NBlxT1 => EarlyNarrow(e, w);
    case NBxT1 => EarlyNarrow(e, w);
    case NCmpIT1 => MiddleNarrow(e, w);
    case NCmpRT1 => MiddleNarrow(e, w);
    case NCmpRT2 => MiddleNarrow(e, w);
    case NLdrIT1 => MiddleNarrow(e, w);
    case NLdrIT2Sp => MiddleNarrow(e, w);
    case NLdrLitT1 => MiddleNarrow(e, w);
    case NLdrRT1 => MiddleNarrow(e, w);
    case NMovsIT1 => MiddleNarrow(e, w);
    case NMovRT1 => MiddleNarrow(e, w);
    case NMovsRT2 => LateNarrow(e, w);
    case NPopT1 => LateNarrow(e, w);
    case NPushT1 => LateNarrow(e, w);
    case NSubsIT1 => LateNarrow(e, w);
    case NSubsIT2 => LateNarrow(e, w);
    case NSubsRT1 => LateNarrow(e, w);
    case NSvcT1 => LateNarrow(e, w);
    case NUdfT1 => LateNarrow(e, w);
    case NNopT1 => LateNarrow(e, w);
    case NoNarrow =>
  }

  /** Parts that their fields keep are stored as the one word of the diagram that has them in place. */
  lemma NarrowStores(p: NarrowParts, w: bv16)
    requires KeptNarrow(p)
    ensures EncodeNarrow(p) == Some16(w) <==> FitsNarrow(p, w)
  {
    NarrowDiagrams(KindOfNarrow(p), w);
    if EncodeNarrow(p) == Some16(w) {
      PartsNarrow(p);
    } else if FitsNarrow(p, w) {
      WordsNarrow(KindOfNarrow(p), w);
    }
  }

  predicate FitsNarrow(p: NarrowParts, w: bv16) {
    HasPattern16(KindOfNarrow(p), w) && HasPartsNarrow(KindOfNarrow(p)) && PartsIn16(KindOfNarrow(p), w) == p
  }

  lemma EarlyWide(e: WideKind, w: bv32)
    requires
      e.WAddwIT4? || e.WBCondT3? || e.WBT4? || e.WBlT1? || e.WLdrIT3? || e.WLdrIT4?
    ensures Accepts32(e, w) <==> HasPattern32(e, w)
    ensures HasPartsWide(e) ==> DecodeWide(e, w) == PartsIn32(e, w)
  {
    match e
    case WAddwIT4 => AddwIT4Pattern(w);
    case WBCondT3 => BCondT3Pattern(w);
    case WBT4 => BT4Pattern(w);
    case WBlT1 => BlT1Pattern(w);
    case WLdrIT3 => LdrIT3Pattern(w);
    case WLdrIT4 => LdrIT4Pattern(w);
  }

  lemma MiddleWide(e: WideKind, w: bv32)
    requires
      e.WLdrLitT2? || e.WLdrRT2Lsl? || e.WMovwIT3? || e.WMovRT3? || e.WPopT2? || e.WPopT3?
    ensures Accepts32(e, w) <==> HasPattern32(e, w)
    ensures HasPartsWide(e) ==> DecodeWide(e, w) == PartsIn32(e, w)
  {
    match e
    case WLdrLitT2 => LdrLitT2Pattern(w);
    case WLdrRT2Lsl => LdrRT2LslPattern(w);
    case WMovwIT3 => MovwIT3Pattern(w);
    case WMovRT3 => MovRT3Pattern(w);
    case WPopT2 => PopT2Pattern(w);
    case WPopT3 => PopT3Pattern(w);
  }

  lemma LateWide(e: WideKind, w: bv32)
    requires
      e.WPushT2? || e.WPushT3? || e.WSubwIT4? || e.WUdfT2? || e.WNopT2?
    ensures Accepts32(e, w) <==> HasPattern32(e, w)
    ensures HasPartsWide(e) ==> DecodeWide(e, w) == PartsIn32(e, w)
  {
    match e
    case WPushT2 => PushT2Pattern(w);
    case WPushT3 => PushT3Pattern(w);
    case WSubwIT4 => SubwIT4Pattern(w);
    case WUdfT2 => UdfT2Pattern(w);
    case WNopT2 => NopT2Pattern(w);
  }

  /** Every wide matcher accepts exactly the words of its diagram, and its decoder reads the numbers off
      their places in it. */
  lemma WideDiagrams(e: WideKind, w: bv32)
    ensures Accepts32(e, w) <==> HasPattern32(e, w)
    ensures HasPartsWide(e) ==> DecodeWide(e, w) == PartsIn32(e, w)
  {
    match e
    case WAddwIT4 => EarlyWide(e, w);
    case WBCondT3 => EarlyWide(e, w);
    case WBT4 => EarlyWide(e, w);
    case WBlT1 => EarlyWide(e, w);
    case WLdrIT3 => EarlyWide(e, w);
    case WLdrIT4 => EarlyWide(e, w);
    case WLdrLitT2 => MiddleWide(e, w);
    case WLdrRT2Lsl => MiddleWide(e, w);
    case WMovwIT3 => MiddleWide(e, w);
    case WMovRT3 => MiddleWide(e, w);
    case WPopT2 => MiddleWide(e, w);
    case WPopT3 => MiddleWide(e, w);
    case WPushT2 => LateWide(e, w);
    case WPushT3 => LateWide(e, w);
    case WSubwIT4 => LateWide(e, w);
    case WUdfT2 => LateWide(e, w);
    case WNopT2 => LateWide(e, w);
    case NoWide =>
  }

  /** Parts that their fields keep are stored as the one word of the diagram that has them in place. */
  lemma WideStores(p: WideParts, w: bv32)
    requires KeptWide(p)
    ensures EncodeWide(p) == Some32(w) <==> FitsWide(p, w)
  {
    WideDiagrams(KindOfWide(p), w);
    if EncodeWide(p) == Some32(w) {
      PartsWide(p);
    } else if FitsWide(p, w) {
      WordsWide(KindOfWide(p), w);
    }
  }

  predicate FitsWide(p: WideParts, w: bv32) {
    HasPattern32(KindOfWide(p), w) && HasPartsWide(KindOfWide(p)) && PartsIn32(KindOfWide(p), w) == p
  }
}
