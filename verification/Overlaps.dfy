// Which encodings share words. The disassembler tries its matchers one after the other, so the
// order matters exactly for the words that two of them accept.

module Overlaps {
  import opened T32Encoding

  datatype Narrow =
    | NUdfT1 | NBkptT1 | NNopT1 | NMovsIT1 | NMovRT1 | NMovsRT2 | NBxT1 | NSvcT1 | NBT2 | NBCondT1
    | NLdrIT1 | NLdrIT2Sp | NLdrLitT1 | NLdrRT1 | NBlxT1 | NPopT1 | NPushT1 | NCmpIT1 | NCmpRT1
    | NCmpRT2 | NAddsIT1 | NAddsIT2 | NAddsRT1 | NAddRT2 | NSubsIT1 | NSubsIT2 | NSubsRT1 | NoNarrow

  datatype WideKind =
    | WUdfT2 | WNopT2 | WMovwIT3 | WMovRT3 | WBT4 | WBCondT3 | WLdrIT3 | WLdrIT4 | WLdrLitT2
    | WLdrRT2Lsl | WBlT1 | WPopT2 | WPopT3 | WPushT2 | WPushT3 | WAddwIT4 | WSubwIT4 | NoWide

  predicate Accepts16(e: Narrow, w: bv16) {
    match e
    case NUdfT1 => MatchUdfT1(w)
    case NBkptT1 => MatchBkptT1(w)
    case NNopT1 => MatchNopT1(w)
    case NMovsIT1 => MatchMovsIT1(w)
    case NMovRT1 => MatchMovRT1(w)
    case NMovsRT2 => MatchMovsRT2(w)
    case NBxT1 => MatchBxT1(w)
    case NSvcT1 => MatchSvcT1(w)
    case NBT2 => MatchBT2(w)
    case NBCondT1 => MatchBCondT1(w)
    case NLdrIT1 => MatchLdrIT1(w)
    case NLdrIT2Sp => MatchLdrIT2Sp(w)
    case NLdrLitT1 => MatchLdrLitT1(w)
    case NLdrRT1 => MatchLdrRT1(w)
    case NBlxT1 => MatchBlxT1(w)
    case NPopT1 => MatchPopT1(w)
    case NPushT1 => MatchPushT1(w)
    case NCmpIT1 => MatchCmpIT1(w)
    case NCmpRT1 => MatchCmpRT1(w)
    case NCmpRT2 => MatchCmpRT2(w)
    case NAddsIT1 => MatchAddsIT1(w)
    case NAddsIT2 => MatchAddsIT2(w)
    case NAddsRT1 => MatchAddsRT1(w)
    case NAddRT2 => MatchAddRT2(w)
    case NSubsIT1 => MatchSubsIT1(w)
    case NSubsIT2 => MatchSubsIT2(w)
    case NSubsRT1 => MatchSubsRT1(w)
    case NoNarrow => false
  }

  predicate Accepts32(e: WideKind, w: bv32) {
    match e
    case WUdfT2 => MatchUdfT2(w)
    case WNopT2 => MatchNopT2(w)
    case WMovwIT3 => MatchMovwIT3(w)
    case WMovRT3 => MatchMovRT3(w)
    case WBT4 => MatchBT4(w)
    case WBCondT3 => MatchBCondT3(w)
    case WLdrIT3 => MatchLdrIT3(w)
    case WLdrIT4 => MatchLdrIT4(w)
    case WLdrLitT2 => MatchLdrLitT2(w)
    case WLdrRT2Lsl => MatchLdrRT2Lsl(w)
    case WBlT1 => MatchBlT1(w)
    case WPopT2 => MatchPopT2(w)
    case WPopT3 => MatchPopT3(w)
    case WPushT2 => MatchPushT2(w)
    case WPushT3 => MatchPushT3(w)
    case WAddwIT4 => MatchAddwIT4(w)
    case WSubwIT4 => MatchSubwIT4(w)
    case NoWide => false
  }

  /** The first matcher of the narrow chain that accepts. */
  function First16(w: bv16): Narrow {
    if MatchUdfT1(w) then NUdfT1 else if MatchBkptT1(w) then NBkptT1
    else if MatchNopT1(w) then NNopT1 else if MatchMovsIT1(w) then NMovsIT1
    else if MatchMovRT1(w) then NMovRT1 else if MatchMovsRT2(w) then NMovsRT2
    else if MatchBxT1(w) then NBxT1 else if MatchSvcT1(w) then NSvcT1
    else if MatchBT2(w) then NBT2 else if MatchBCondT1(w) then NBCondT1
    else if MatchLdrIT1(w) then NLdrIT1 else if MatchLdrIT2Sp(w) then NLdrIT2Sp
    else if MatchLdrLitT1(w) then NLdrLitT1 else if MatchLdrRT1(w) then NLdrRT1
    else if MatchBlxT1(w) then NBlxT1 else if MatchPopT1(w) then NPopT1
    else if MatchPushT1(w) then NPushT1 else if MatchCmpIT1(w) then NCmpIT1
    else if MatchCmpRT1(w) then NCmpRT1 else if MatchCmpRT2(w) then NCmpRT2
    else if MatchAddsIT1(w) then NAddsIT1 else if MatchAddsIT2(w) then NAddsIT2
    else if MatchAddsRT1(w) then NAddsRT1 else if MatchAddRT2(w) then NAddRT2
    else if MatchSubsIT1(w) then NSubsIT1 else if MatchSubsIT2(w) then NSubsIT2
    else if MatchSubsRT1(w) then NSubsRT1 else NoNarrow
  }

  function First32(w: bv32): WideKind {
    if MatchUdfT2(w) then WUdfT2 else if MatchNopT2(w) then WNopT2
    else if MatchMovwIT3(w) then WMovwIT3 else if MatchMovRT3(w) then WMovRT3
    else if MatchBT4(w) then WBT4 else if MatchBCondT3(w) then WBCondT3
    else if MatchLdrIT3(w) then WLdrIT3 else if MatchLdrIT4(w) then WLdrIT4
    else if MatchLdrLitT2(w) then WLdrLitT2 else if MatchLdrRT2Lsl(w) then WLdrRT2Lsl
    else if MatchBlT1(w) then WBlT1 else if MatchPopT2(w) then WPopT2
    else if MatchPopT3(w) then WPopT3 else if MatchPushT2(w) then WPushT2
    else if MatchPushT3(w) then WPushT3 else if MatchAddwIT4(w) then WAddwIT4
    else if MatchSubwIT4(w) then WSubwIT4 else NoWide
  }

  /** The pairs of encodings that share a word, the one that is tried first on the left. */
  predicate Shadows16(e: Narrow, f: Narrow) {
    (e == NUdfT1 || e == NSvcT1) && f == NBCondT1
  }

  predicate Shadows32(e: WideKind, f: WideKind) {
    || ((e == WUdfT2 || e == WNopT2) && f == WBCondT3)
    || ((e == WLdrIT3 || e == WLdrIT4) && f == WLdrLitT2)
    || (e == WLdrLitT2 && f == WLdrRT2Lsl)
    || (e == WLdrIT4 && f == WPopT3)
  }

  lemma FirstOrShadowed16(e: Narrow, w: bv16)
    requires Accepts16(e, w)
    ensures First16(w) == e || Shadows16(First16(w), e)
  {
    match e
    case NUdfT1 => case NBkptT1 => case NNopT1 => case NMovsIT1 => case NMovRT1 => case NMovsRT2 =>
    case NBxT1 => case NSvcT1 => case NBT2 => case NBCondT1 => case NLdrIT1 => case NLdrIT2Sp =>
    case NLdrLitT1 => case NLdrRT1 => case NBlxT1 => case NPopT1 => case NPushT1 => case NCmpIT1 =>
    case NCmpRT1 => case NCmpRT2 => case NAddsIT1 => case NAddsIT2 => case NAddsRT1 => case NAddRT2 =>
    case NSubsIT1 => case NSubsIT2 => case NSubsRT1 =>
  }

  lemma FirstOrShadowed32(e: WideKind, w: bv32)
    requires Accepts32(e, w)
    ensures First32(w) == e || Shadows32(First32(w), e) || (First32(w).WLdrIT3? && e.WLdrRT2Lsl?)
  {
    match e
    case WUdfT2 => case WNopT2 => case WMovwIT3 => case WMovRT3 => case WBT4 => case WBCondT3 =>
    case WLdrIT3 => case WLdrIT4 => case WLdrLitT2 => case WLdrRT2Lsl => case WBlT1 => case WPopT2 =>
    case WPopT3 => case WPushT2 => case WPushT3 => case WAddwIT4 => case WSubwIT4 =>
  }

  lemma LoadsApart(w: bv32)
    ensures !(MatchLdrLitT2(w) && MatchPopT3(w))
    ensures !(MatchLdrIT3(w) && MatchLdrRT2Lsl(w))
    ensures !(MatchLdrIT4(w) && MatchLdrRT2Lsl(w))
  {
  }

  /** Two narrow encodings share a word only if they are UDF or SVC and B T1. */
  lemma SharedNarrow(e: Narrow, f: Narrow, w: bv16)
    requires e != f && Accepts16(e, w) && Accepts16(f, w)
    ensures Shadows16(e, f) || Shadows16(f, e)
  {
    FirstOrShadowed16(e, w);
    FirstOrShadowed16(f, w);
  }

  /** Two wide encodings share a word only if they are UDF or NOP and B T3, a literal load and
      another load, or POP T3 and LDR T4. */
  lemma SharedWide(e: WideKind, f: WideKind, w: bv32)
    requires e != f && Accepts32(e, w) && Accepts32(f, w)
    ensures Shadows32(e, f) || Shadows32(f, e)
  {
    FirstOrShadowed32(e, w);
    FirstOrShadowed32(f, w);
    LoadsApart(w);
  }

  /** Every one of these pairs does share a word. */

  function Common16(e: Narrow): bv16 {
    if e == NUdfT1 then 0xde00 else 0xdf00
  }

  lemma ShadowedNarrow(e: Narrow, f: Narrow)
    requires Shadows16(e, f)
    ensures Accepts16(e, Common16(e)) && Accepts16(f, Common16(e))
  {
  }

  function Common32(e: WideKind, f: WideKind): bv32 {
    if e == WUdfT2 then 0xa000_f7f0 else if e == WNopT2 then 0x8000_f3af
    else if e == WLdrIT3 then 0x0000_f8df else if e == WLdrLitT2 then 0x0000_f85f
    else if f == WPopT3 then 0x0b04_f85d else 0x0c00_f85f
  }

  lemma ShadowedWide(e: WideKind, f: WideKind)
    requires Shadows32(e, f)
    ensures Accepts32(e, Common32(e, f)) && Accepts32(f, Common32(e, f))
  {
    match f
    case WBCondT3 =>
    case WLdrLitT2 =>
    case WLdrRT2Lsl =>
    case WPopT3 =>
  }
}
