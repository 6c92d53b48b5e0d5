// The Thumb encodings of monitor/autogen_encodings/t32_encoding.c.
//
// Every encoding has a matcher, an encoder and a decoder over the raw instruction: a bv16 for
// the narrow encodings and a bv32 for the wide ones. In a wide instruction the low half is the
// halfword stored first. Struct members are 32-bit in the source, so parts are bv32 here and a
// signed part is held in two's complement.
//
// An encoder that returns 0 without writing is None; one that stores its word and returns 16 or
// 32 is Some. Masks are written out as literals (the complement of a field mask included).

module T32Encoding {
  datatype Encoded16 = None16 | Some16(word: bv16)
  datatype Encoded32 = None32 | Some32(word: bv32)

  /** Assignment to a uint16_t. */
  function Low16(x: bv32): bv16 {
    (x & 0xffff) as bv16
  }

  /** Promotion of a uint16_t. */
  function Wide(x: bv16): bv32 {
    x as bv32
  }

  predicate Negative(x: bv32) {
    x & 0x8000_0000 != 0
  }

  /** `x >> 1` on an int32_t: the sign bit is kept. */
  function Asr1(x: bv32): bv32 {
    (x >> 1) | (x & 0x8000_0000)
  }

  // SIGNED_CHECK_FIT for the four widths that occur.

  predicate FitsSigned9(v: bv32) {
    if Negative(v) then (0 - v - 1) & 0xffffff00 == 0 else v & 0xffffff00 == 0
  }

  predicate FitsSigned12(v: bv32) {
    if Negative(v) then (0 - v - 1) & 0xfffff800 == 0 else v & 0xfffff800 == 0
  }

  predicate FitsSigned21(v: bv32) {
    if Negative(v) then (0 - v - 1) & 0xfff00000 == 0 else v & 0xfff00000 == 0
  }

  predicate FitsSigned25(v: bv32) {
    if Negative(v) then (0 - v - 1) & 0xff000000 == 0 else v & 0xff000000 == 0
  }

  // Struct parts

  datatype AddsIT1 = AddsIT1(imm3: bv32, rn: bv32, rd: bv32)
  datatype AddsIT2 = AddsIT2(rdn: bv32, imm8: bv32)
  datatype AddwIT4 = AddwIT4(rd: bv32, rn: bv32, imm12: bv32)
  datatype AddsRT1 = AddsRT1(rm: bv32, rn: bv32, rd: bv32)
  datatype AddRT2 = AddRT2(rdn: bv32, rm: bv32)
  datatype BCondT1 = BCondT1(cond: bv32, simm8: bv32)
  datatype BT2 = BT2(simm11: bv32)
  datatype BCondT3 = BCondT3(cond: bv32, simm21: bv32)
  datatype BT4 = BT4(simm25: bv32)
  datatype BkptT1 = BkptT1(imm8: bv32)
  datatype BlT1 = BlT1(simm25: bv32)
  datatype BlxT1 = BlxT1(rm: bv32)
  datatype BxT1 = BxT1(rm: bv32)
  datatype CmpIT1 = CmpIT1(rn: bv32, imm8: bv32)
  datatype CmpRT1 = CmpRT1(rm: bv32, rn: bv32)
  datatype CmpRT2 = CmpRT2(rn: bv32, rm: bv32)
  datatype LdrIT1 = LdrIT1(rt: bv32, rn: bv32, imm7: bv32)
  datatype LdrIT2Sp = LdrIT2Sp(rt: bv32, imm10: bv32)
  datatype LdrIT3 = LdrIT3(rt: bv32, imm12: bv32, rn: bv32)
  datatype LdrIT4 = LdrIT4(rt: bv32, index: bv32, add: bv32, writeback: bv32, imm8: bv32, rn: bv32)
  datatype LdrLitT1 = LdrLitT1(rt: bv32, imm10: bv32)
  datatype LdrLitT2 = LdrLitT2(rt: bv32, imm12: bv32, add: bv32)
  datatype LdrRT1 = LdrRT1(rm: bv32, rn: bv32, rt: bv32)
  datatype LdrRT2Lsl = LdrRT2Lsl(rt: bv32, lslShiftImm2: bv32, rm: bv32, rn: bv32)
  datatype MovsIT1 = MovsIT1(rd: bv32, imm8: bv32)
  datatype MovwIT3 = MovwIT3(rd: bv32, imm16: bv32)
  datatype MovRT1 = MovRT1(rm: bv32, rd: bv32)
  datatype MovsRT2 = MovsRT2(rm: bv32, rd: bv32)
  datatype MovRT3 = MovRT3(rd: bv32, rm: bv32, setflags: bv32)
  datatype PopT1 = PopT1(pc: bv32, regs: bv32)
  datatype PopT2 = PopT2(pc: bv32, lr: bv32, regs: bv32)
  datatype PopT3 = PopT3(rt: bv32)
  datatype PushT1 = PushT1(lr: bv32, regs: bv32)
  datatype PushT2 = PushT2(lr: bv32, regs: bv32)
  datatype PushT3 = PushT3(rt: bv32)
  datatype SubsIT1 = SubsIT1(imm3: bv32, rn: bv32, rd: bv32)
  datatype SubsIT2 = SubsIT2(rdn: bv32, imm8: bv32)
  datatype SubwIT4 = SubwIT4(rd: bv32, rn: bv32, imm12: bv32)
  datatype SubsRT1 = SubsRT1(rm: bv32, rn: bv32, rd: bv32)
  datatype SvcT1 = SvcT1(imm8: bv32)
  datatype UdfT1 = UdfT1(imm8: bv32)
  datatype UdfT2 = UdfT2(imm16: bv32)

  predicate MatchAddsIT1(field: bv16) {
    (field >> 9) == 0xE
  }

  function EncodeAddsIT1(p: AddsIT1): Encoded16 {
    if p.imm3 & 0xfffffff8 == 0 && p.rn & 0xfffffff8 == 0 && p.rd & 0xfffffff8 == 0 then
      Some16(0x1c00 | Low16(p.imm3 << 6) | Low16(p.rn << 3) | Low16(p.rd))
    else None16
  }

  function DecodeAddsIT1(field: bv16): AddsIT1 {
    AddsIT1((Wide(field) >> 6) & 0x7, (Wide(field) >> 3) & 0x7, Wide(field) & 0x7)
  }

  predicate MatchAddsIT2(field: bv16) {
    (field >> 11) == 0x6
  }

  function EncodeAddsIT2(p: AddsIT2): Encoded16 {
    if p.rdn & 0xfffffff8 == 0 && p.imm8 & 0xffffff00 == 0 then
      Some16(0x3000 | Low16(p.rdn << 8) | Low16(p.imm8))
    else None16
  }

  function DecodeAddsIT2(field: bv16): AddsIT2 {
    AddsIT2((Wide(field) >> 8) & 0x7, Wide(field) & 0xff)
  }

  predicate MatchAddwIT4(field: bv32) {
    && (field >> 31) == 0x0
    && ((field >> 11) & 0x1f) == 0x1E
    && ((field >> 4) & 0x3f) == 0x20
  }

  function EncodeAddwIT4(p: AddwIT4): Encoded32 {
    if p.imm12 & 0xfffff000 == 0 && p.rd & 0xfffffff0 == 0 && p.rn & 0xfffffff0 == 0 then
      var i := (p.imm12 >> 11) & 0x1;
      var imm3 := (p.imm12 >> 8) & 0x7;
      var imm8 := p.imm12 & 0xff;
      Some32(0xf200 | (imm3 << 28) | (p.rd << 24) | (imm8 << 16) | (i << 10) | p.rn)
    else None32
  }

  function DecodeAddwIT4(field: bv32): AddwIT4 {
    var imm3 := (field >> 28) & 0x7;
    var imm8 := (field >> 16) & 0xff;
    var i := (field >> 10) & 0x1;
    AddwIT4((field >> 24) & 0xf, field & 0xf, (i << 11) | (imm3 << 8) | imm8)
  }

  predicate MatchAddsRT1(field: bv16) {
    (field >> 9) == 0xC
  }

  function EncodeAddsRT1(p: AddsRT1): Encoded16 {
    if p.rm & 0xfffffff8 == 0 && p.rn & 0xfffffff8 == 0 && p.rd & 0xfffffff8 == 0 then
      Some16(0x1800 | Low16(p.rm << 6) | Low16(p.rn << 3) | Low16(p.rd))
    else None16
  }

  function DecodeAddsRT1(field: bv16): AddsRT1 {
    AddsRT1((Wide(field) >> 6) & 0x7, (Wide(field) >> 3) & 0x7, Wide(field) & 0x7)
  }

  predicate MatchAddRT2(field: bv16) {
    (field >> 8) == 0x44
  }

  function EncodeAddRT2(p: AddRT2): Encoded16 {
    if p.rdn & 0xfffffff0 == 0 && p.rm & 0xfffffff0 == 0 then
      var high := (p.rdn >> 3) & 0x1;
      var low := p.rdn & 0x7;
      Some16(0x4400 | Low16(high << 7) | Low16(p.rm << 3) | Low16(low))
    else None16
  }

  function DecodeAddRT2(field: bv16): AddRT2 {
    var high := (Wide(field) >> 7) & 0x1;
    var low := Wide(field) & 0x7;
    AddRT2((high << 3) | low, (Wide(field) >> 3) & 0xf)
  }

  predicate MatchBCondT1(field: bv16) {
    (field >> 12) == 0xD
  }

  function EncodeBCondT1(p: BCondT1): Encoded16 {
    if p.simm8 & 0x1 == 0 && FitsSigned9(Asr1(p.simm8)) && p.cond & 0xfffffff0 == 0 then
      var imm8 := (p.simm8 >> 1) & 0xff;
      Some16(0xd000 | Low16(p.cond << 8) | Low16(imm8))
    else None16
  }

  function DecodeBCondT1(field: bv16): BCondT1 {
    var imm8 := Wide(field) & 0xff;
    BCondT1((Wide(field) >> 8) & 0xf, (if imm8 & 0x80 != 0 then imm8 | 0xffffff00 else imm8) << 1)
  }

  predicate MatchBT2(field: bv16) {
    (field >> 11) == 0x1C
  }

  function EncodeBT2(p: BT2): Encoded16 {
    if p.simm11 & 0x1 == 0 && FitsSigned12(Asr1(p.simm11)) then
      var imm11 := (p.simm11 >> 1) & 0x7ff;
      Some16(0xe000 | Low16(imm11))
    else None16
  }

  function DecodeBT2(field: bv16): BT2 {
    var imm11 := Wide(field) & 0x7ff;
    BT2((if imm11 & 0x400 != 0 then imm11 | 0xfffff800 else imm11) << 1)
  }

  predicate MatchBCondT3(field: bv32) {
    && (field >> 30) == 0x2
    && ((field >> 28) & 0x1) == 0x0
    && ((field >> 11) & 0x1f) == 0x1E
  }

  function EncodeBCondT3(p: BCondT3): Encoded32 {
    if p.simm21 & 0x1 == 0 && FitsSigned21(Asr1(p.simm21)) && p.cond & 0xfffffff0 == 0 then
      var sign := (p.simm21 >> 20) & 0x1;
      var j2 := (p.simm21 >> 19) & 0x1;
      var j1 := (p.simm21 >> 18) & 0x1;
      var imm6 := (p.simm21 >> 12) & 0x3f;
      var imm11 := (p.simm21 >> 1) & 0x7ff;
      Some32(0x8000f000 | (j1 << 29) | (j2 << 27) | (imm11 << 16) | (sign << 10) | (p.cond << 6) | imm6)
    else None32
  }

  function DecodeBCondT3(field: bv32): BCondT3 {
    var j1 := (field >> 29) & 0x1;
    var j2 := (field >> 27) & 0x1;
    var imm11 := (field >> 16) & 0x7ff;
    var sign := (field >> 10) & 0x1;
    var imm6 := field & 0x3f;
    var imm := (sign << 19) | (j2 << 18) | (j1 << 17) | (imm6 << 11) | imm11;
    BCondT3((field >> 6) & 0xf, (if imm & 0x80000 != 0 then imm | 0xfff00000 else imm) << 1)
  }

  predicate MatchBT4(field: bv32) {
    && (field >> 30) == 0x2
    && ((field >> 28) & 0x1) == 0x1
    && ((field >> 11) & 0x1f) == 0x1E
  }

  function EncodeBT4(p: BT4): Encoded32 {
    if p.simm25 & 0x1 == 0 && FitsSigned25(Asr1(p.simm25)) then
      var sign := (p.simm25 >> 24) & 0x1;
      var i1 := (p.simm25 >> 23) & 0x1;
      var i2 := (p.simm25 >> 22) & 0x1;
      var imm10 := (p.simm25 >> 12) & 0x3ff;
      var imm11 := (p.simm25 >> 1) & 0x7ff;
      Some32(0x9000f000 | (((!i1 ^ sign) & 0x1) << 29) | (((!i2 ^ sign) & 0x1) << 27) | (imm11 << 16) |
        (sign << 10) | imm10)
    else None32
  }

  function DecodeBT4(field: bv32): BT4 {
    var imm11 := (field >> 16) & 0x7ff;
    var sign := (field >> 10) & 0x1;
    var imm10 := field & 0x3ff;
    var i2 := (!((field >> 27) & 0x1) ^ sign) & 0x1;
    var i1 := (!((field >> 29) & 0x1) ^ sign) & 0x1;
    var imm := (sign << 23) | (i1 << 22) | (i2 << 21) | (imm10 << 11) | imm11;
    BT4((if imm & 0x800000 != 0 then imm | 0xff000000 else imm) << 1)
  }

  predicate MatchBkptT1(field: bv16) {
    (field >> 8) == 0xBE
  }

  function EncodeBkptT1(p: BkptT1): Encoded16 {
    if p.imm8 & 0xffffff00 == 0 then
      Some16(0xbe00 | Low16(p.imm8))
    else None16
  }

  function DecodeBkptT1(field: bv16): BkptT1 {
    BkptT1(Wide(field) & 0xff)
  }

  predicate MatchBlT1(field: bv32) {
    && (field >> 30) == 0x3
    && ((field >> 28) & 0x1) == 0x1
    && ((field >> 11) & 0x1f) == 0x1E
  }

  function EncodeBlT1(p: BlT1): Encoded32 {
    if p.simm25 & 0x1 == 0 && FitsSigned25(Asr1(p.simm25)) then
      var sign := (p.simm25 >> 24) & 0x1;
      var i1 := (p.simm25 >> 23) & 0x1;
      var i2 := (p.simm25 >> 22) & 0x1;
      var imm10 := (p.simm25 >> 12) & 0x3ff;
      var imm11 := (p.simm25 >> 1) & 0x7ff;
      Some32(0xd000f000 | (((!i1 ^ sign) & 0x1) << 29) | (((!i2 ^ sign) & 0x1) << 27) | (imm11 << 16) |
        (sign << 10) | imm10)
    else None32
  }

  function DecodeBlT1(field: bv32): BlT1 {
    var imm11 := (field >> 16) & 0x7ff;
    var sign := (field >> 10) & 0x1;
    var imm10 := field & 0x3ff;
    var i2 := (!((field >> 27) & 0x1) ^ sign) & 0x1;
    var i1 := (!((field >> 29) & 0x1) ^ sign) & 0x1;
    var imm := (sign << 23) | (i1 << 22) | (i2 << 21) | (imm10 << 11) | imm11;
    BlT1((if imm & 0x800000 != 0 then imm | 0xff000000 else imm) << 1)
  }

  predicate MatchBlxT1(field: bv16) {
    && (field >> 7) == 0x8F
    && (field & 0x7) == 0x0
  }

  function EncodeBlxT1(p: BlxT1): Encoded16 {
    if p.rm & 0xfffffff0 == 0 then
      Some16(0x4780 | Low16(p.rm << 3))
    else None16
  }

  function DecodeBlxT1(field: bv16): BlxT1 {
    BlxT1((Wide(field) >> 3) & 0xf)
  }

  predicate MatchBxT1(field: bv16) {
    && (field >> 7) == 0x8E
    && (field & 0x7) == 0x0
  }

  function EncodeBxT1(p: BxT1): Encoded16 {
    if p.rm & 0xfffffff0 == 0 then
      Some16(0x4700 | Low16(p.rm << 3))
    else None16
  }

  function DecodeBxT1(field: bv16): BxT1 {
    BxT1((Wide(field) >> 3) & 0xf)
  }

  predicate MatchCmpIT1(field: bv16) {
    (field >> 11) == 0x5
  }

  function EncodeCmpIT1(p: CmpIT1): Encoded16 {
    if p.rn & 0xfffffff8 == 0 && p.imm8 & 0xffffff00 == 0 then
      Some16(0x2800 | Low16(p.rn << 8) | Low16(p.imm8))
    else None16
  }

  function DecodeCmpIT1(field: bv16): CmpIT1 {
    CmpIT1((Wide(field) >> 8) & 0x7, Wide(field) & 0xff)
  }

  predicate MatchCmpRT1(field: bv16) {
    (field >> 6) == 0x10A
  }

  function EncodeCmpRT1(p: CmpRT1): Encoded16 {
    if p.rm & 0xfffffff8 == 0 && p.rn & 0xfffffff8 == 0 then
      Some16(0x4280 | Low16(p.rm << 3) | Low16(p.rn))
    else None16
  }

  function DecodeCmpRT1(field: bv16): CmpRT1 {
    CmpRT1((Wide(field) >> 3) & 0x7, Wide(field) & 0x7)
  }

  predicate MatchCmpRT2(field: bv16) {
    (field >> 8) == 0x45
  }

  function EncodeCmpRT2(p: CmpRT2): Encoded16 {
    if p.rn & 0xfffffff0 == 0 && p.rm & 0xfffffff0 == 0 then
      var high := (p.rn >> 3) & 0x1;
      var low := p.rn & 0x7;
      Some16(0x4500 | Low16(high << 7) | Low16(p.rm << 3) | Low16(low))
    else None16
  }

  function DecodeCmpRT2(field: bv16): CmpRT2 {
    var high := (Wide(field) >> 7) & 0x1;
    var low := Wide(field) & 0x7;
    CmpRT2((high << 3) | low, (Wide(field) >> 3) & 0xf)
  }

  predicate MatchLdrIT1(field: bv16) {
    (field >> 11) == 0xD
  }

  function EncodeLdrIT1(p: LdrIT1): Encoded16 {
    if p.imm7 & 0x3 == 0 && (p.imm7 >> 2) & 0xffffff80 == 0 && p.rn & 0xfffffff8 == 0 &&
       p.rt & 0xfffffff8 == 0 then
      var imm5 := (p.imm7 >> 2) & 0x1f;
      Some16(0x6800 | Low16(imm5 << 6) | Low16(p.rn << 3) | Low16(p.rt))
    else None16
  }

  function DecodeLdrIT1(field: bv16): LdrIT1 {
    var imm5 := (Wide(field) >> 6) & 0x1f;
    LdrIT1(Wide(field) & 0x7, (Wide(field) >> 3) & 0x7, imm5 << 2)
  }

  predicate MatchLdrIT2Sp(field: bv16) {
    (field >> 11) == 0x13
  }

  function EncodeLdrIT2Sp(p: LdrIT2Sp): Encoded16 {
    if p.imm10 & 0x3 == 0 && (p.imm10 >> 2) & 0xfffffc00 == 0 && p.rt & 0xfffffff8 == 0 then
      var imm8 := (p.imm10 >> 2) & 0xff;
      Some16(0x9800 | Low16(p.rt << 8) | Low16(imm8))
    else None16
  }

  function DecodeLdrIT2Sp(field: bv16): LdrIT2Sp {
    var imm8 := Wide(field) & 0xff;
    LdrIT2Sp((Wide(field) >> 8) & 0x7, imm8 << 2)
  }

  predicate MatchLdrIT3(field: bv32) {
    ((field >> 4) & 0xfff) == 0xF8D
  }

  function EncodeLdrIT3(p: LdrIT3): Encoded32 {
    if p.rt & 0xfffffff0 == 0 && p.imm12 & 0xfffff000 == 0 && p.rn & 0xfffffff0 == 0 then
      Some32(0xf8d0 | (p.rt << 28) | (p.imm12 << 16) | p.rn)
    else None32
  }

  function DecodeLdrIT3(field: bv32): LdrIT3 {
    LdrIT3(field >> 28, (field >> 16) & 0xfff, field & 0xf)
  }

  predicate MatchLdrIT4(field: bv32) {
    && ((field >> 27) & 0x1) == 0x1
    && ((field >> 4) & 0xfff) == 0xF85
  }

  function EncodeLdrIT4(p: LdrIT4): Encoded32 {
    if p.rt & 0xfffffff0 == 0 && p.index & 0xfffffffe == 0 && p.add & 0xfffffffe == 0 &&
       p.writeback & 0xfffffffe == 0 && p.imm8 & 0xffffff00 == 0 && p.rn & 0xfffffff0 == 0 then
      Some32(0x800f850 | (p.rt << 28) | (p.index << 26) | (p.add << 25) | (p.writeback << 24) |
        (p.imm8 << 16) | p.rn)
    else None32
  }

  function DecodeLdrIT4(field: bv32): LdrIT4 {
    LdrIT4(
      field >> 28,
      (field >> 26) & 0x1,
      (field >> 25) & 0x1,
      (field >> 24) & 0x1,
      (field >> 16) & 0xff,
      field & 0xf)
  }

  predicate MatchLdrLitT1(field: bv16) {
    (field >> 11) == 0x9
  }

  function EncodeLdrLitT1(p: LdrLitT1): Encoded16 {
    if p.imm10 & 0x3 == 0 && (p.imm10 >> 2) & 0xfffffc00 == 0 && p.rt & 0xfffffff8 == 0 then
      var imm8 := (p.imm10 >> 2) & 0xff;
      Some16(0x4800 | Low16(p.rt << 8) | Low16(imm8))
    else None16
  }

  function DecodeLdrLitT1(field: bv16): LdrLitT1 {
    var imm8 := Wide(field) & 0xff;
    LdrLitT1((Wide(field) >> 8) & 0x7, imm8 << 2)
  }

  predicate MatchLdrLitT2(field: bv32) {
    && ((field >> 8) & 0xff) == 0xF8
    && (field & 0x7f) == 0x5F
  }

  function EncodeLdrLitT2(p: LdrLitT2): Encoded32 {
    if p.rt & 0xfffffff0 == 0 && p.imm12 & 0xfffff000 == 0 && p.add & 0xfffffffe == 0 then
      Some32(0xf85f | (p.rt << 28) | (p.imm12 << 16) | (p.add << 7))
    else None32
  }

  function DecodeLdrLitT2(field: bv32): LdrLitT2 {
    LdrLitT2(field >> 28, (field >> 16) & 0xfff, (field >> 7) & 0x1)
  }

  predicate MatchLdrRT1(field: bv16) {
    (field >> 9) == 0x2C
  }

  function EncodeLdrRT1(p: LdrRT1): Encoded16 {
    if p.rm & 0xfffffff8 == 0 && p.rn & 0xfffffff8 == 0 && p.rt & 0xfffffff8 == 0 then
      Some16(0x5800 | Low16(p.rm << 6) | Low16(p.rn << 3) | Low16(p.rt))
    else None16
  }

  function DecodeLdrRT1(field: bv16): LdrRT1 {
    LdrRT1((Wide(field) >> 6) & 0x7, (Wide(field) >> 3) & 0x7, Wide(field) & 0x7)
  }

  predicate MatchLdrRT2Lsl(field: bv32) {
    && ((field >> 22) & 0x3f) == 0x0
    && ((field >> 4) & 0xfff) == 0xF85
  }

  function EncodeLdrRT2Lsl(p: LdrRT2Lsl): Encoded32 {
    if p.rt & 0xfffffff0 == 0 && p.lslShiftImm2 & 0xfffffffc == 0 && p.rm & 0xfffffff0 == 0 &&
       p.rn & 0xfffffff0 == 0 then
      Some32(0xf850 | (p.rt << 28) | (p.lslShiftImm2 << 20) | (p.rm << 16) | p.rn)
    else None32
  }

  function DecodeLdrRT2Lsl(field: bv32): LdrRT2Lsl {
    LdrRT2Lsl(field >> 28, (field >> 20) & 0x3, (field >> 16) & 0xf, field & 0xf)
  }

  predicate MatchNopT1(field: bv16) {
    field == 0xBF00
  }

  function EncodeNopT1(): Encoded16 {
    Some16(0xbf00)
  }

  predicate MatchNopT2(field: bv32) {
    && (field >> 16) == 0x8000
    && (field & 0xffff) == 0xF3AF
  }

  function EncodeNopT2(): Encoded32 {
    Some32(0x8000f3af)
  }

  predicate MatchMovsIT1(field: bv16) {
    (field >> 11) == 0x4
  }

  function EncodeMovsIT1(p: MovsIT1): Encoded16 {
    if p.rd & 0xfffffff8 == 0 && p.imm8 & 0xffffff00 == 0 then
      Some16(0x2000 | Low16(p.rd << 8) | Low16(p.imm8))
    else None16
  }

  function DecodeMovsIT1(field: bv16): MovsIT1 {
    MovsIT1((Wide(field) >> 8) & 0x7, Wide(field) & 0xff)
  }

  predicate MatchMovwIT3(field: bv32) {
    && (field >> 31) == 0x0
    && ((field >> 11) & 0x1f) == 0x1E
    && ((field >> 4) & 0x3f) == 0x24
  }

  function EncodeMovwIT3(p: MovwIT3): Encoded32 {
    if p.imm16 & 0xffff0000 == 0 && p.rd & 0xfffffff0 == 0 then
      var imm4 := (p.imm16 >> 12) & 0xf;
      var i := (p.imm16 >> 11) & 0x1;
      var imm3 := (p.imm16 >> 8) & 0x7;
      var imm8 := p.imm16 & 0xff;
      Some32(0xf240 | (imm3 << 28) | (p.rd << 24) | (imm8 << 16) | (i << 10) | imm4)
    else None32
  }

  function DecodeMovwIT3(field: bv32): MovwIT3 {
    var imm3 := (field >> 28) & 0x7;
    var imm8 := (field >> 16) & 0xff;
    var i := (field >> 10) & 0x1;
    var imm4 := field & 0xf;
    MovwIT3((field >> 24) & 0xf, (imm4 << 12) | (i << 11) | (imm3 << 8) | imm8)
  }

  predicate MatchMovRT1(field: bv16) {
    (field >> 8) == 0x46
  }

  function EncodeMovRT1(p: MovRT1): Encoded16 {
    if p.rd & 0xfffffff0 == 0 && p.rm & 0xfffffff0 == 0 then
      var high := (p.rd >> 3) & 0x1;
      var low := p.rd & 0x7;
      Some16(0x4600 | Low16(high << 7) | Low16(p.rm << 3) | Low16(low))
    else None16
  }

  function DecodeMovRT1(field: bv16): MovRT1 {
    var high := (Wide(field) >> 7) & 0x1;
    var low := Wide(field) & 0x7;
    MovRT1((Wide(field) >> 3) & 0xf, (high << 3) | low)
  }

  predicate MatchMovsRT2(field: bv16) {
    (field >> 6) == 0x0
  }

  function EncodeMovsRT2(p: MovsRT2): Encoded16 {
    if p.rm & 0xfffffff8 == 0 && p.rd & 0xfffffff8 == 0 then
      Some16(0x0 | Low16(p.rm << 3) | Low16(p.rd))
    else None16
  }

  function DecodeMovsRT2(field: bv16): MovsRT2 {
    MovsRT2((Wide(field) >> 3) & 0x7, Wide(field) & 0x7)
  }

  predicate MatchMovRT3(field: bv32) {
    && (field >> 28) == 0x0
    && ((field >> 20) & 0xf) == 0x0
    && ((field >> 5) & 0x7ff) == 0x752
    && (field & 0xf) == 0xF
  }

  function EncodeMovRT3(p: MovRT3): Encoded32 {
    if p.rd & 0xfffffff0 == 0 && p.rm & 0xfffffff0 == 0 && p.setflags & 0xfffffffe == 0 then
      Some32(0xea4f | (p.rd << 24) | (p.rm << 16) | (p.setflags << 4))
    else None32
  }

  function DecodeMovRT3(field: bv32): MovRT3 {
    MovRT3((field >> 24) & 0xf, (field >> 16) & 0xf, (field >> 4) & 0x1)
  }

  predicate MatchPopT1(field: bv16) {
    (field >> 9) == 0x5E
  }

  function EncodePopT1(p: PopT1): Encoded16 {
    if p.pc & 0xfffffffe == 0 && p.regs & 0xffffff00 == 0 then
      Some16(0xbc00 | Low16(p.pc << 8) | Low16(p.regs))
    else None16
  }

  function DecodePopT1(field: bv16): PopT1 {
    PopT1((Wide(field) >> 8) & 0x1, Wide(field) & 0xff)
  }

  predicate MatchPopT2(field: bv32) {
    && ((field >> 29) & 0x1) == 0x0
    && (field & 0xffff) == 0xE8BD
  }

  function EncodePopT2(p: PopT2): Encoded32 {
    if p.pc & 0xfffffffe == 0 && p.lr & 0xfffffffe == 0 && p.regs & 0xffffe000 == 0 then
      Some32(0xe8bd | (p.pc << 31) | (p.lr << 30) | (p.regs << 16))
    else None32
  }

  function DecodePopT2(field: bv32): PopT2 {
    PopT2(field >> 31, (field >> 30) & 0x1, (field >> 16) & 0x1fff)
  }

  predicate MatchPopT3(field: bv32) {
    && ((field >> 16) & 0xfff) == 0xB04
    && (field & 0xffff) == 0xF85D
  }

  function EncodePopT3(p: PopT3): Encoded32 {
    if p.rt & 0xfffffff0 == 0 then
      Some32(0xb04f85d | (p.rt << 28))
    else None32
  }

  function DecodePopT3(field: bv32): PopT3 {
    PopT3(field >> 28)
  }

  predicate MatchPushT1(field: bv16) {
    (field >> 9) == 0x5A
  }

  function EncodePushT1(p: PushT1): Encoded16 {
    if p.lr & 0xfffffffe == 0 && p.regs & 0xffffff00 == 0 then
      Some16(0xb400 | Low16(p.lr << 8) | Low16(p.regs))
    else None16
  }

  function DecodePushT1(field: bv16): PushT1 {
    PushT1((Wide(field) >> 8) & 0x1, Wide(field) & 0xff)
  }

  predicate MatchPushT2(field: bv32) {
    && (field >> 31) == 0x0
    && ((field >> 29) & 0x1) == 0x0
    && (field & 0xffff) == 0xE92D
  }

  function EncodePushT2(p: PushT2): Encoded32 {
    if p.lr & 0xfffffffe == 0 && p.regs & 0xffffe000 == 0 then
      Some32(0xe92d | (p.lr << 30) | (p.regs << 16))
    else None32
  }

  function DecodePushT2(field: bv32): PushT2 {
    PushT2((field >> 30) & 0x1, (field >> 16) & 0x1fff)
  }

  predicate MatchPushT3(field: bv32) {
    && ((field >> 16) & 0xfff) == 0xD04
    && (field & 0xffff) == 0xF84D
  }

  function EncodePushT3(p: PushT3): Encoded32 {
    if p.rt & 0xfffffff0 == 0 then
      Some32(0xd04f84d | (p.rt << 28))
    else None32
  }

  function DecodePushT3(field: bv32): PushT3 {
    PushT3(field >> 28)
  }

  predicate MatchSubsIT1(field: bv16) {
    (field >> 9) == 0xF
  }

  function EncodeSubsIT1(p: SubsIT1): Encoded16 {
    if p.imm3 & 0xfffffff8 == 0 && p.rn & 0xfffffff8 == 0 && p.rd & 0xfffffff8 == 0 then
      Some16(0x1e00 | Low16(p.imm3 << 6) | Low16(p.rn << 3) | Low16(p.rd))
    else None16
  }

  function DecodeSubsIT1(field: bv16): SubsIT1 {
    SubsIT1((Wide(field) >> 6) & 0x7, (Wide(field) >> 3) & 0x7, Wide(field) & 0x7)
  }

  predicate MatchSubsIT2(field: bv16) {
    (field >> 11) == 0x7
  }

  function EncodeSubsIT2(p: SubsIT2): Encoded16 {
    if p.rdn & 0xfffffff8 == 0 && p.imm8 & 0xffffff00 == 0 then
      Some16(0x3800 | Low16(p.rdn << 8) | Low16(p.imm8))
    else None16
  }

  function DecodeSubsIT2(field: bv16): SubsIT2 {
    SubsIT2((Wide(field) >> 8) & 0x7, Wide(field) & 0xff)
  }

  predicate MatchSubwIT4(field: bv32) {
    && (field >> 31) == 0x0
    && ((field >> 11) & 0x1f) == 0x1E
    && ((field >> 4) & 0x3f) == 0x2A
  }

  function EncodeSubwIT4(p: SubwIT4): Encoded32 {
    if p.imm12 & 0xfffff000 == 0 && p.rd & 0xfffffff0 == 0 && p.rn & 0xfffffff0 == 0 then
      var i := (p.imm12 >> 11) & 0x1;
      var imm3 := (p.imm12 >> 8) & 0x7;
      var imm8 := p.imm12 & 0xff;
      Some32(0xf2a0 | (imm3 << 28) | (p.rd << 24) | (imm8 << 16) | (i << 10) | p.rn)
    else None32
  }

  function DecodeSubwIT4(field: bv32): SubwIT4 {
    var imm3 := (field >> 28) & 0x7;
    var imm8 := (field >> 16) & 0xff;
    var i := (field >> 10) & 0x1;
    SubwIT4((field >> 24) & 0xf, field & 0xf, (i << 11) | (imm3 << 8) | imm8)
  }

  predicate MatchSubsRT1(field: bv16) {
    (field >> 9) == 0xD
  }

  function EncodeSubsRT1(p: SubsRT1): Encoded16 {
    if p.rm & 0xfffffff8 == 0 && p.rn & 0xfffffff8 == 0 && p.rd & 0xfffffff8 == 0 then
      Some16(0x1a00 | Low16(p.rm << 6) | Low16(p.rn << 3) | Low16(p.rd))
    else None16
  }

  function DecodeSubsRT1(field: bv16): SubsRT1 {
    SubsRT1((Wide(field) >> 6) & 0x7, (Wide(field) >> 3) & 0x7, Wide(field) & 0x7)
  }

  predicate MatchSvcT1(field: bv16) {
    (field >> 8) == 0xDF
  }

  function EncodeSvcT1(p: SvcT1): Encoded16 {
    if p.imm8 & 0xffffff00 == 0 then
      Some16(0xdf00 | Low16(p.imm8))
    else None16
  }

  function DecodeSvcT1(field: bv16): SvcT1 {
    SvcT1(Wide(field) & 0xff)
  }

  predicate MatchUdfT1(field: bv16) {
    (field >> 8) == 0xDE
  }

  function EncodeUdfT1(p: UdfT1): Encoded16 {
    if p.imm8 & 0xffffff00 == 0 then
      Some16(0xde00 | Low16(p.imm8))
    else None16
  }

  function DecodeUdfT1(field: bv16): UdfT1 {
    UdfT1(Wide(field) & 0xff)
  }

  predicate MatchUdfT2(field: bv32) {
    && (field >> 28) == 0xA
    && ((field >> 4) & 0xfff) == 0xF7F
  }

  function EncodeUdfT2(p: UdfT2): Encoded32 {
    if p.imm16 & 0xffff0000 == 0 then
      var imm4 := (p.imm16 >> 12) & 0xf;
      var imm12 := p.imm16 & 0xfff;
      Some32(0xa000f7f0 | (imm12 << 16) | imm4)
    else None32
  }

  function DecodeUdfT2(field: bv32): UdfT2 {
    var imm12 := (field >> 16) & 0xfff;
    var imm4 := field & 0xf;
    UdfT2((imm4 << 12) | imm12)
  }
}
