// Instructions in memory: thumb_assemble writing through its pointer, the bit loops it runs over
// register lists, and stepping over a stored instruction. Memory is a run of halfwords.

module ThumbMemory {
  import opened T32Encoding
  import opened ThumbAsm
  import opened ReadBack
  import opened AsmRoundTrip

  /** The halfwords a result stores, first one first. */
  function Halves(r: AsmResult): seq<bv16> {
    match r
    case NarrowSuccess(half) => [half]
    case WideSuccess(word) => [Low16(word), High16(word)]
    case _ => []
  }

  function High16(x: bv32): bv16 {
    Low16(x >> 16)
  }

  /** Memory after storing halfwords at a place. */
  function Written(mem: seq<bv16>, at: nat, halves: seq<bv16>): (after: seq<bv16>)
    requires at + |halves| <= |mem|
    ensures |after| == |mem|
  {
    mem[..at] + halves + mem[at + |halves|..]
  }

  function Join(lo: bv16, hi: bv16): bv32 {
    Wide(lo) | (Wide(hi) << 16)
  }

  function HalfAt(mem: seq<bv16>, at: nat): bv16 {
    if at < |mem| then mem[at] else 0
  }

  /** The word at a place. A narrow instruction in the last halfword leaves the rest unused. */
  function WordAt(mem: seq<bv16>, at: nat): bv32 {
    Join(HalfAt(mem, at), HalfAt(mem, at + 1))
  }

  /** thumb_ins_ptr_increment, in halfwords. */
  function Next(mem: seq<bv16>, at: nat): nat {
    if at < |mem| && IsWide(mem[at]) then at + 2 else at + 1
  }

  lemma NothingWritten(mem: seq<bv16>, at: nat)
    requires at <= |mem|
    ensures Written(mem, at, []) == mem
  {
  }

  // ---- Register lists

  lemma ClearedIsLess(list: bv16)
    requires list != 0
    ensures list & (list - 1) < list
  {
  }

  /** thumb_count_register_list: each round clears the lowest register. */
  method CountRegisterList(list: bv16) returns (count: nat)
    ensures count == CountRegisters(list)
  {
    var reglist := list;
    count := 0;
    while reglist != 0
      invariant count + CountRegisters(reglist) == CountRegisters(list)
      decreases reglist
    {
      CountStep(reglist);
      ClearedIsLess(reglist);
      reglist := reglist & (reglist - 1);
      count := count + 1;
    }
  }

  lemma ShiftOnce(x: bv16)
    requires x != 0
    ensures x >> 1 < x
    ensures if x >> 1 == 0 then TopBit(x) == 0 else TopBit(x) == TopBit(x >> 1) + 1
  {
  }

  /** After some shifts of a list whose highest register is top. */
  predicate Shifted(top: bv32, left: bool, leftTop: bv32, shifts: bv32) {
    if left then shifts + leftTop == top else shifts - 1 == top
  }

  lemma ShiftStart(top: bv32)
    ensures Shifted(top, true, top, 0)
  {
  }

  lemma ShiftStep(top: bv32, after: bv32, shifts: bv32)
    requires Shifted(top, true, after + 1, shifts)
    ensures Shifted(top, true, after, shifts + 1)
  {
    assert shifts + (after + 1) == (shifts + 1) + after;
  }

  lemma ShiftLast(top: bv32, after: bv32, shifts: bv32)
    requires Shifted(top, true, 0, shifts)
    ensures Shifted(top, false, after, shifts + 1)
  {
    assert shifts + 0 == shifts && (shifts + 1) - 1 == shifts;
  }

  /** The loop that finds the one register of a list. */
  method RegisterIndex(list: bv16) returns (rt: bv32)
    requires list != 0
    ensures rt == TopBit(list)
  {
    rt := 0;
    var x := list;
    ShiftStart(TopBit(list));
    while x != 0
      invariant Shifted(TopBit(list), x != 0, TopBit(x), rt)
      decreases x
    {
      ShiftOnce(x);
      if x >> 1 == 0 {
        ShiftLast(TopBit(list), TopBit(x >> 1), rt);
      } else {
        ShiftStep(TopBit(list), TopBit(x >> 1), rt);
      }
      x := x >> 1;
      rt := rt + 1;
    }
    rt := rt - 1;
  }

  // ---- Storing

  /** The tail of every narrow encoder: a word is stored only when the parts fit. */
  method StoreNarrow(e: Encoded16, into: array<bv16>, at: nat) returns (bits: nat)
    requires e.Some16? ==> at < into.Length
    modifies into
    ensures bits == if e.Some16? then 16 else 0
    ensures into[..] == if e.Some16? then Written(old(into[..]), at, [e.word]) else old(into[..])
  {
    if e.None16? {
      return 0;
    }
    into[at] := e.word;
    return 16;
  }

  /** The tail of every wide encoder. */
  method StoreWide(e: Encoded32, into: array<bv16>, at: nat) returns (bits: nat)
    requires e.Some32? ==> at + 2 <= into.Length
    modifies into
    ensures bits == if e.Some32? then 32 else 0
    ensures into[..] ==
      if e.Some32? then Written(old(into[..]), at, [Low16(e.word), High16(e.word)]) else old(into[..])
  {
    if e.None32? {
      return 0;
    }
    into[at], into[at + 1] := Low16(e.word), High16(e.word);
    return 32;
  }

  predicate HasRoom(r: AsmResult, into: array<bv16>, at: nat) {
    at + |Halves(r)| <= into.Length
  }

  /** The POP case of thumb_assemble. */
  method PopInto(s: Spec, into: array<bv16>, at: nat) returns (r: AsmResult)
    requires HasRoom(AssemblePop(s), into, at)
    modifies into
    ensures r == AssemblePop(s)
    ensures into[..] == Written(old(into[..]), at, Halves(r))
  {
    NothingWritten(into[..], at);
    if |s.operands| != 1 || !s.operands[0].RegList? {
      ListRefused(s);
      return InvalidOperand;
    }
    var reglist := s.operands[0].reglist;
    var regcount := CountRegisterList(reglist);
    if regcount == 0 {
      ListRefused(s);
      return InvalidOperand;
    }
    var p, rest := PopPartsOf(reglist), reglist & 0x3fff;
    PopByParts(s, reglist, regcount);
    RestOfOne(reglist, regcount);
    r := PopPartsInto(s, regcount, p, rest, into, at);
  }

  /** The one register to pop. */
  method PopRegister(lr: bv32, pc: bv32, rest: bv16) returns (rt: bv32)
    requires lr != 1 && pc != 1 ==> rest != 0
    ensures rt == if lr == 1 then 14 else if pc == 1 then 15 else TopBit(rest)
  {
    if lr == 1 {
      rt := 14;
    } else if pc == 1 {
      rt := 15;
    } else {
      rt := RegisterIndex(rest);
    }
  }

  function PopWide(regcount: nat, p: PopT2, rest: bv16): Encoded32 {
    if regcount == 1 then EncodePopT3(PopT3(if p.lr == 1 then 14 else if p.pc == 1 then 15 else TopBit(rest)))
    else EncodePopT2(p)
  }

  method PopWideInto(regcount: nat, p: PopT2, rest: bv16, into: array<bv16>, at: nat) returns (r: AsmResult)
    requires HasRoom(Try32(PopWide(regcount, p, rest), InvalidWidth), into, at)
    requires p.lr != 1 && p.pc != 1 ==> rest != 0
    modifies into
    ensures r == Try32(PopWide(regcount, p, rest), InvalidWidth)
    ensures into[..] == Written(old(into[..]), at, Halves(r))
  {
    NothingWritten(into[..], at);
    var e;
    if regcount == 1 {
      var rt := PopRegister(p.lr, p.pc, rest);
      e := EncodePopT3(PopT3(rt));
    } else {
      e := EncodePopT2(p);
    }
    var bits := StoreWide(e, into, at);
    if bits != 0 {
      return WideSuccess(e.word);
    }
    return InvalidWidth;
  }

  method PopPartsInto(s: Spec, regcount: nat, p: PopT2, rest: bv16, into: array<bv16>, at: nat)
    returns (r: AsmResult)
    requires HasRoom(AssemblePopParts(s, regcount, p, rest), into, at)
    requires p.lr != 1 && p.pc != 1 ==> rest != 0
    modifies into
    ensures r == AssemblePopParts(s, regcount, p, rest)
    ensures into[..] == Written(old(into[..]), at, Halves(r))
  {
    NothingWritten(into[..], at);
    if s.CanBeNarrow() && p.lr == 0 {
      var e := EncodePopT1(PopT1(p.pc, p.regs));
      var bits := StoreNarrow(e, into, at);
      if bits != 0 {
        return NarrowSuccess(e.word);
      }
    }
    if s.CanBeWide() {
      r := PopWideInto(regcount, p, rest, into, at);
      return r;
    }
    return InvalidWidth;
  }

  lemma RestOfOne(list: bv16, count: nat)
    requires count == CountRegisters(list) && count != 0
    ensures PopPartsOf(list).lr != 1 && PopPartsOf(list).pc != 1 ==> list & 0x3fff != 0
    ensures PushPartsOf(list).lr != 1 ==> list & 0xbfff != 0
  {
    CountZero(list);
  }

  /** The PUSH case of thumb_assemble. */
  method PushInto(s: Spec, into: array<bv16>, at: nat) returns (r: AsmResult)
    requires HasRoom(AssemblePush(s), into, at)
    modifies into
    ensures r == AssemblePush(s)
    ensures into[..] == Written(old(into[..]), at, Halves(r))
  {
    NothingWritten(into[..], at);
    if |s.operands| != 1 || !s.operands[0].RegList? {
      ListRefused(s);
      return InvalidOperand;
    }
    var reglist := s.operands[0].reglist;
    var regcount := CountRegisterList(reglist);
    if regcount == 0 {
      ListRefused(s);
      return InvalidOperand;
    }
    var p, rest := PushPartsOf(reglist), reglist & 0xbfff;
    PushByParts(s, reglist, regcount);
    RestOfOne(reglist, regcount);
    r := PushPartsInto(s, regcount, p, rest, into, at);
  }

  method PushPartsInto(s: Spec, regcount: nat, p: PushT2, rest: bv16, into: array<bv16>, at: nat)
    returns (r: AsmResult)
    requires HasRoom(AssemblePushParts(s, regcount, p, rest), into, at)
    requires p.lr != 1 ==> rest != 0
    modifies into
    ensures r == AssemblePushParts(s, regcount, p, rest)
    ensures into[..] == Written(old(into[..]), at, Halves(r))
  {
    NothingWritten(into[..], at);
    if s.CanBeNarrow() {
      var e := EncodePushT1(PushT1(p.lr, p.regs));
      var bits := StoreNarrow(e, into, at);
      if bits != 0 {
        return NarrowSuccess(e.word);
      }
    }
    if s.CanBeWide() {
      if regcount == 1 {
        var rt := 14;
        if p.lr != 1 {
          rt := RegisterIndex(rest);
        }
        var e := EncodePushT3(PushT3(rt));
        var bits := StoreWide(e, into, at);
        if bits != 0 {
          return WideSuccess(e.word);
        }
      } else {
        var e := EncodePushT2(p);
        var bits := StoreWide(e, into, at);
        if bits != 0 {
          return WideSuccess(e.word);
        }
      }
    }
    return InvalidWidth;
  }

  /** A narrow attempt and, where the width allows, a wide one. */
  method PreferInto(s: Spec, narrow: Encoded16, wide: Encoded32, into: array<bv16>, at: nat) returns (r: AsmResult)
    requires HasRoom(Prefer(s, narrow, IfWide(s, Result32(wide))), into, at)
    modifies into
    ensures r == Prefer(s, narrow, IfWide(s, Result32(wide)))
    ensures into[..] == Written(old(into[..]), at, Halves(r))
  {
    NothingWritten(into[..], at);
    if s.CanBeNarrow() {
      var bits := StoreNarrow(narrow, into, at);
      if bits != 0 {
        return NarrowSuccess(narrow.word);
      }
    }
    if s.CanBeWide() {
      var bits := StoreWide(wide, into, at);
      return if bits != 0 then WideSuccess(wide.word) else InvalidOperand;
    }
    return InvalidWidth;
  }

  /** One narrow attempt after another. */
  method EitherInto(first: Encoded16, second: Encoded16, into: array<bv16>, at: nat) returns (r: AsmResult)
    requires HasRoom(Try16(first, Result16(second)), into, at)
    modifies into
    ensures r == Try16(first, Result16(second))
    ensures into[..] == Written(old(into[..]), at, Halves(r))
  {
    NothingWritten(into[..], at);
    var bits := StoreNarrow(first, into, at);
    if bits != 0 {
      return NarrowSuccess(first.word);
    }
    bits := StoreNarrow(second, into, at);
    return if bits != 0 then NarrowSuccess(second.word) else InvalidOperand;
  }

  /** The attempts for a plain non-negative offset: SP or PC first, then the general narrow one. */
  method LdrNarrowInto(rt: bv32, rn: bv32, offset: bv32, into: array<bv16>, at: nat) returns (bits: nat)
    requires EncodeLdrNarrow(rt, rn, offset).Some16? ==> at < into.Length
    modifies into
    ensures bits == if EncodeLdrNarrow(rt, rn, offset).Some16? then 16 else 0
    ensures into[..] ==
      if EncodeLdrNarrow(rt, rn, offset).Some16?
      then Written(old(into[..]), at, [EncodeLdrNarrow(rt, rn, offset).word]) else old(into[..])
  {
    var general := EncodeLdrIT1(LdrIT1(rt, rn, offset));
    if rn == 13 {
      var special := EncodeLdrIT2Sp(LdrIT2Sp(rt, offset));
      bits := StoreNarrow(special, into, at);
      if bits != 0 {
        return;
      }
    } else if rn == 15 {
      var special := EncodeLdrLitT1(LdrLitT1(rt, offset));
      bits := StoreNarrow(special, into, at);
      if bits != 0 {
        return;
      }
    }
    bits := StoreNarrow(general, into, at);
  }

  /** The attempts that are left once T3 and the narrow ones are out. */
  method LdrSignedInto(s: Spec, rt: bv32, rn: bv32, offset: bv32, into: array<bv16>, at: nat) returns (r: AsmResult)
    requires HasRoom(AssembleLdrSigned(s, rt, rn, offset), into, at)
    modifies into
    ensures r == AssembleLdrSigned(s, rt, rn, offset)
    ensures into[..] == Written(old(into[..]), at, Halves(r))
  {
    NothingWritten(into[..], at);
    var indexed := EncodeLdrIT4(LdrSignedParts(s.mode, rt, rn, offset));
    if rn == 15 && s.mode == OFFSET {
      var literal := EncodeLdrLitT2(
        if Negative(offset) then LdrLitT2(rt, Negated(offset), 0) else LdrLitT2(rt, offset, 1));
      var bits := StoreWide(literal, into, at);
      if bits != 0 {
        return WideSuccess(literal.word);
      }
    }
    var bits := StoreWide(indexed, into, at);
    return if bits != 0 then WideSuccess(indexed.word) else InvalidOperand;
  }

  /** LDR by an immediate: five encodings, tried in the order that the fields allow. */
  method LdrImmediateInto(s: Spec, rt: bv32, rn: bv32, offset: bv32, into: array<bv16>, at: nat)
    returns (r: AsmResult)
    requires HasRoom(AssembleLdrImmediate(s, rt, rn, offset), into, at)
    modifies into
    ensures r == AssembleLdrImmediate(s, rt, rn, offset)
    ensures into[..] == Written(old(into[..]), at, Halves(r))
  {
    NothingWritten(into[..], at);
    if s.mode == OFFSET && !Negative(offset) {
      if s.CanBeNarrow() {
        var bits := LdrNarrowInto(rt, rn, offset, into, at);
        if bits != 0 {
          return NarrowSuccess(EncodeLdrNarrow(rt, rn, offset).word);
        }
      }
      if s.CanBeWide() {
        var e := EncodeLdrIT3(LdrIT3(rt, offset, rn));
        var bits := StoreWide(e, into, at);
        if bits != 0 {
          return WideSuccess(e.word);
        }
      }
    }
    if s.CanBeWide() {
      r := LdrSignedInto(s, rt, rn, offset, into, at);
      return;
    }
    return InvalidWidth;
  }

  method LdrInto(s: Spec, into: array<bv16>, at: nat) returns (r: AsmResult)
    requires HasRoom(AssembleLdr(s), into, at)
    modifies into
    ensures r == AssembleLdr(s)
    ensures into[..] == Written(old(into[..]), at, Halves(r))
  {
    NothingWritten(into[..], at);
    if |s.operands| < 3 || |s.operands| > 4 || s.mode == NONE || !s.operands[0].Reg? || !s.operands[1].Reg? {
      return InvalidOperand;
    }
    var rt := Byte(s.operands[0].reg);
    var rn := Byte(s.operands[1].reg);
    if s.operands[2].Reg? {
      var lslShift := 0;
      if |s.operands| == 4 {
        if !s.operands[3].LslShift? {
          return InvalidOperand;
        }
        lslShift := s.operands[3].shift;
      }
      if s.mode != OFFSET {
        return InvalidOperand;
      }
      var rm := Byte(s.operands[2].reg);
      r := LdrRegisterInto(s, rt, rn, rm, lslShift, into, at);
    } else if s.operands[2].SignedImm? {
      if |s.operands| != 3 {
        return InvalidOperand;
      }
      r := LdrImmediateInto(s, rt, rn, s.operands[2].simm, into, at);
    } else {
      return InvalidOperand;
    }
  }

  method LdrRegisterInto(s: Spec, rt: bv32, rn: bv32, rm: bv32, lslShift: bv32, into: array<bv16>, at: nat)
    returns (r: AsmResult)
    requires HasRoom(AssembleLdrRegister(s, rt, rn, rm, lslShift), into, at)
    modifies into
    ensures r == AssembleLdrRegister(s, rt, rn, rm, lslShift)
    ensures into[..] == Written(old(into[..]), at, Halves(r))
  {
    NothingWritten(into[..], at);
    if s.CanBeNarrow() && lslShift == 0 {
      var narrow := EncodeLdrRT1(LdrRT1(rm, rn, rt));
      var bits := StoreNarrow(narrow, into, at);
      if bits != 0 {
        return NarrowSuccess(narrow.word);
      }
    }
    if s.CanBeWide() {
      var wide := EncodeLdrRT2Lsl(LdrRT2Lsl(rt, lslShift, rm, rn));
      var bits := StoreWide(wide, into, at);
      return if bits != 0 then WideSuccess(wide.word) else InvalidOperand;
    }
    return InvalidWidth;
  }

  /** The B case of thumb_assemble. */
  method BInto(s: Spec, into: array<bv16>, at: nat) returns (r: AsmResult)
    requires HasRoom(AssembleB(s), into, at)
    modifies into
    ensures r == AssembleB(s)
    ensures into[..] == Written(old(into[..]), at, Halves(r))
  {
    if |s.operands| != 1 || !s.operands[0].SignedImm? {
      NothingWritten(into[..], at);
      return InvalidOperand;
    }
    var target := ToPc(s.operands[0].simm);
    if s.condition == 0 {
      r := PreferInto(s, EncodeBT2(BT2(target)), EncodeBT4(BT4(target)), into, at);
    } else {
      var cond := s.condition - 1;
      r := PreferInto(s, EncodeBCondT1(BCondT1(cond, target)), EncodeBCondT3(BCondT3(cond, target)), into, at);
    }
  }

  /** The UDF case of thumb_assemble. */
  method UdfInto(s: Spec, into: array<bv16>, at: nat) returns (r: AsmResult)
    requires HasRoom(AssembleUdf(s), into, at)
    modifies into
    ensures r == AssembleUdf(s)
    ensures into[..] == Written(old(into[..]), at, Halves(r))
  {
    if |s.operands| != 1 || !s.operands[0].Imm? {
      NothingWritten(into[..], at);
      return InvalidOperand;
    }
    r := PreferInto(s, EncodeUdfT1(UdfT1(s.operands[0].imm)), EncodeUdfT2(UdfT2(s.operands[0].imm)), into, at);
  }

  /** MOV and MOVS between registers. */
  method MoveInto(s: Spec, into: array<bv16>, at: nat) returns (r: AsmResult)
    requires s.mnemonic == MOV || s.mnemonic == MOVS
    requires |s.operands| == 2 && s.operands[0].Reg? && s.operands[1].Reg?
    requires HasRoom(Assemble(s), into, at)
    modifies into
    ensures r == Assemble(s)
    ensures into[..] == Written(old(into[..]), at, Halves(r))
  {
    var rd := Byte(s.operands[0].reg);
    var rm := Byte(s.operands[1].reg);
    if s.mnemonic == MOV {
      r := PreferInto(s, EncodeMovRT1(MovRT1(rm, rd)), EncodeMovRT3(MovRT3(rd, rm, 0)), into, at);
    } else {
      r := PreferInto(s, EncodeMovsRT2(MovsRT2(rm, rd)), EncodeMovRT3(MovRT3(rd, rm, 1)), into, at);
    }
  }

  /** ADDS and SUBS of an immediate: the second form only where both registers are the same. */
  method ByImmediateInto(s: Spec, into: array<bv16>, at: nat) returns (r: AsmResult)
    requires s.mnemonic == ADDS || s.mnemonic == SUBS
    requires TwoRegisters(s) && s.operands[2].Imm?
    requires HasRoom(Assemble(s), into, at)
    modifies into
    ensures r == Assemble(s)
    ensures into[..] == Written(old(into[..]), at, Halves(r))
  {
    var rd := Byte(s.operands[0].reg);
    var rn := Byte(s.operands[1].reg);
    var immediate := s.operands[2].imm;
    NothingWritten(into[..], at);
    if s.width == WIDE {
      return InvalidWidth;
    }
    var first := if s.mnemonic == ADDS then EncodeAddsIT1(AddsIT1(immediate, rn, rd))
                 else EncodeSubsIT1(SubsIT1(immediate, rn, rd));
    var second := if s.mnemonic == ADDS then EncodeAddsIT2(AddsIT2(rd, immediate))
                  else EncodeSubsIT2(SubsIT2(rd, immediate));
    if rd == rn {
      r := EitherInto(first, second, into, at);
    } else {
      var bits := StoreNarrow(first, into, at);
      return if bits != 0 then NarrowSuccess(first.word) else InvalidWidth;
    }
  }

  /** CMP of registers: low ones first. */
  method CompareInto(s: Spec, into: array<bv16>, at: nat) returns (r: AsmResult)
    requires s.mnemonic == CMP && |s.operands| == 2 && s.operands[0].Reg? && s.operands[1].Reg?
    requires HasRoom(AssembleCmp(s), into, at)
    modifies into
    ensures r == AssembleCmp(s)
    ensures into[..] == Written(old(into[..]), at, Halves(r))
  {
    if s.width == WIDE {
      NothingWritten(into[..], at);
      return InvalidWidth;
    }
    var rn := Byte(s.operands[0].reg);
    var rm := Byte(s.operands[1].reg);
    r := EitherInto(EncodeCmpRT1(CmpRT1(rm, rn)), EncodeCmpRT2(CmpRT2(rn, rm)), into, at);
  }

  predicate IsPair(s: Spec) {
    |s.operands| == 2 && s.operands[0].Reg? && s.operands[1].Reg?
  }

  /** Where there is one attempt only, its result is stored as it is. */
  method StoreResult(r: AsmResult, into: array<bv16>, at: nat)
    requires HasRoom(r, into, at)
    modifies into
    ensures into[..] == Written(old(into[..]), at, Halves(r))
  {
    if r.NarrowSuccess? {
      var _ := StoreNarrow(Some16(r.half), into, at);
    } else if r.WideSuccess? {
      var _ := StoreWide(Some32(r.word), into, at);
    } else {
      NothingWritten(into[..], at);
    }
  }

  /** thumb_assemble: success writes exactly the encoded halfwords, failure writes nothing. */
  method ThumbAssemble(s: Spec, into: array<bv16>, at: nat) returns (r: AsmResult)
    requires HasRoom(Assemble(s), into, at)
    modifies into
    ensures r == Assemble(s)
    ensures into[..] == Written(old(into[..]), at, Halves(r))
  {
    if s.mnemonic == POP {
      r := PopInto(s, into, at);
    } else if s.mnemonic == PUSH {
      r := PushInto(s, into, at);
    } else if s.mnemonic == LDR {
      r := LdrInto(s, into, at);
    } else if s.mnemonic == B {
      r := BInto(s, into, at);
    } else if s.mnemonic == UDF {
      r := UdfInto(s, into, at);
    } else {
      r := ArithmeticInto(s, into, at);
    }
  }

  /** The cases with registers or immediates only, and those of one attempt. */
  method ArithmeticInto(s: Spec, into: array<bv16>, at: nat) returns (r: AsmResult)
    requires HasRoom(Assemble(s), into, at)
    modifies into
    ensures r == Assemble(s)
    ensures into[..] == Written(old(into[..]), at, Halves(r))
  {
    if (s.mnemonic == MOV || s.mnemonic == MOVS) && IsPair(s) {
      r := MoveInto(s, into, at);
    } else if (s.mnemonic == ADDS || s.mnemonic == SUBS) && TwoRegisters(s) && s.operands[2].Imm? {
      r := ByImmediateInto(s, into, at);
    } else if s.mnemonic == CMP && IsPair(s) {
      r := CompareInto(s, into, at);
    } else {
      r := Assemble(s);
      StoreResult(r, into, at);
    }
  }

  // ---- What was stored

  lemma HalvesJoin(word: bv32)
    ensures Join(Low16(word), High16(word)) == word
  {
  }

  lemma LowOfJoin(lo: bv16, hi: bv16)
    ensures Low16(Join(lo, hi)) == lo
  {
  }

  lemma WordStored(mem: seq<bv16>, at: nat, r: AsmResult)
    requires at + |Halves(r)| <= |mem| && r.Success()
    ensures
      var word := WordAt(Written(mem, at, Halves(r)), at);
      if r.NarrowSuccess? then Low16(word) == r.half else word == r.word
  {
    var after := Written(mem, at, Halves(r));
    assert HalfAt(after, at) == Halves(r)[0];
    if r.WideSuccess? {
      assert HalfAt(after, at + 1) == Halves(r)[1];
      HalvesJoin(r.word);
    } else {
      LowOfJoin(HalfAt(after, at), HalfAt(after, at + 1));
    }
  }

  /** What is disassembled where an instruction was assembled. */
  lemma StoredInstruction(mem: seq<bv16>, at: nat, s: Spec)
    requires Assemble(s).Success() && at + |Halves(Assemble(s))| <= |mem|
    ensures Means(Disassemble(WordAt(Written(mem, at, Halves(Assemble(s))), at)), s) <==> Faithful(s)
  {
    WidthAgreement(s);
    AssembleThenDisassemble(0, s);
    StoredAnywhere(mem, at, Assemble(s));
  }

  /** A result reads the same wherever it is stored. */
  lemma StoredAnywhere(mem: seq<bv16>, at: nat, r: AsmResult)
    requires r.Success() && at + |Halves(r)| <= |mem| && (r.NarrowSuccess? ==> !IsWide(r.half))
    ensures Disassemble(WordAt(Written(mem, at, Halves(r)), at)) == Disassemble(Stored(0, r))
  {
    WordStored(mem, at, r);
    if r.NarrowSuccess? {
      HalfKept(0, r.half);
      assert Disassemble(WordAt(Written(mem, at, Halves(r)), at)) == DisassembleNarrow(r.half);
    }
  }

  /** Stepping over what was assembled moves past exactly the halfwords that were stored. */
  lemma StepsOverStored(mem: seq<bv16>, at: nat, s: Spec)
    requires Assemble(s).Success() && at + |Halves(Assemble(s))| <= |mem|
    ensures Next(Written(mem, at, Halves(Assemble(s))), at) == at + |Halves(Assemble(s))|
  {
    WidthAgreement(s);
  }
}
