// The encodings taken together: encoding and decoding undo each other between the parts that fit
// their fields and exactly the words that the matcher accepts.

module Encodings {
  import opened T32Encoding
  import opened EncodingLaws
  import opened Overlaps
  import opened Ranges

  datatype NarrowParts =
    | OfAddsIT1(addsIT1: AddsIT1)
    | OfAddsIT2(addsIT2: AddsIT2)
    | OfAddsRT1(addsRT1: AddsRT1)
    | OfAddRT2(addRT2: AddRT2)
    | OfBCondT1(bCondT1: BCondT1)
    | OfBT2(bT2: BT2)
    | OfBkptT1(bkptT1: BkptT1)
    | OfBlxT1(blxT1: BlxT1)
    | OfBxT1(bxT1: BxT1)
    | OfCmpIT1(cmpIT1: CmpIT1)
    | OfCmpRT1(cmpRT1: CmpRT1)
    | OfCmpRT2(cmpRT2: CmpRT2)
    | OfLdrIT1(ldrIT1: LdrIT1)
    | OfLdrIT2Sp(ldrIT2Sp: LdrIT2Sp)
    | OfLdrLitT1(ldrLitT1: LdrLitT1)
    | OfLdrRT1(ldrRT1: LdrRT1)
    | OfMovsIT1(movsIT1: MovsIT1)
    | OfMovRT1(movRT1: MovRT1)
    | OfMovsRT2(movsRT2: MovsRT2)
    | OfPopT1(popT1: PopT1)
    | OfPushT1(pushT1: PushT1)
    | OfSubsIT1(subsIT1: SubsIT1)
    | OfSubsIT2(subsIT2: SubsIT2)
    | OfSubsRT1(subsRT1: SubsRT1)
    | OfSvcT1(svcT1: SvcT1)
    | OfUdfT1(udfT1: UdfT1)

  function KindOfNarrow(p: NarrowParts): Narrow {
    match p
    case OfAddsIT1(_) => NAddsIT1
    case OfAddsIT2(_) => NAddsIT2
    case OfAddsRT1(_) => NAddsRT1
    case OfAddRT2(_) => NAddRT2
    case OfBCondT1(_) => NBCondT1
    case OfBT2(_) => NBT2
    case OfBkptT1(_) => NBkptT1
    case OfBlxT1(_) => NBlxT1
    case OfBxT1(_) => NBxT1
    case OfCmpIT1(_) => NCmpIT1
    case OfCmpRT1(_) => NCmpRT1
    case OfCmpRT2(_) => NCmpRT2
    case OfLdrIT1(_) => NLdrIT1
    case OfLdrIT2Sp(_) => NLdrIT2Sp
    case OfLdrLitT1(_) => NLdrLitT1
    case OfLdrRT1(_) => NLdrRT1
    case OfMovsIT1(_) => NMovsIT1
    case OfMovRT1(_) => NMovRT1
    case OfMovsRT2(_) => NMovsRT2
    case OfPopT1(_) => NPopT1
    case OfPushT1(_) => NPushT1
    case OfSubsIT1(_) => NSubsIT1
    case OfSubsIT2(_) => NSubsIT2
    case OfSubsRT1(_) => NSubsRT1
    case OfSvcT1(_) => NSvcT1
    case OfUdfT1(_) => NUdfT1
  }

  function EncodeNarrow(p: NarrowParts): Encoded16 {
    match p
    case OfAddsIT1(q) => EncodeAddsIT1(q)
    case OfAddsIT2(q) => EncodeAddsIT2(q)
    case OfAddsRT1(q) => EncodeAddsRT1(q)
    case OfAddRT2(q) => EncodeAddRT2(q)
    case OfBCondT1(q) => EncodeBCondT1(q)
    case OfBT2(q) => EncodeBT2(q)
    case OfBkptT1(q) => EncodeBkptT1(q)
    case OfBlxT1(q) => EncodeBlxT1(q)
    case OfBxT1(q) => EncodeBxT1(q)
    case OfCmpIT1(q) => EncodeCmpIT1(q)
    case OfCmpRT1(q) => EncodeCmpRT1(q)
    case OfCmpRT2(q) => EncodeCmpRT2(q)
    case OfLdrIT1(q) => EncodeLdrIT1(q)
    case OfLdrIT2Sp(q) => EncodeLdrIT2Sp(q)
    case OfLdrLitT1(q) => EncodeLdrLitT1(q)
    case OfLdrRT1(q) => EncodeLdrRT1(q)
    case OfMovsIT1(q) => EncodeMovsIT1(q)
    case OfMovRT1(q) => EncodeMovRT1(q)
    case OfMovsRT2(q) => EncodeMovsRT2(q)
    case OfPopT1(q) => EncodePopT1(q)
    case OfPushT1(q) => EncodePushT1(q)
    case OfSubsIT1(q) => EncodeSubsIT1(q)
    case OfSubsIT2(q) => EncodeSubsIT2(q)
    case OfSubsRT1(q) => EncodeSubsRT1(q)
    case OfSvcT1(q) => EncodeSvcT1(q)
    case OfUdfT1(q) => EncodeUdfT1(q)
  }

  predicate HasPartsNarrow(e: Narrow) {
    !(e.NNopT1? || e.NoNarrow?)
  }

  function DecodeNarrow(e: Narrow, w: bv16): NarrowParts
    requires HasPartsNarrow(e)
  {
    match e
    case NAddsIT1 => OfAddsIT1(DecodeAddsIT1(w))
    case NAddsIT2 => OfAddsIT2(DecodeAddsIT2(w))
    case NAddsRT1 => OfAddsRT1(DecodeAddsRT1(w))
    case NAddRT2 => OfAddRT2(DecodeAddRT2(w))
    case NBCondT1 => OfBCondT1(DecodeBCondT1(w))
    case NBT2 => OfBT2(DecodeBT2(w))
    case NBkptT1 => OfBkptT1(DecodeBkptT1(w))
    case NBlxT1 => OfBlxT1(DecodeBlxT1(w))
    case NBxT1 => OfBxT1(DecodeBxT1(w))
    case NCmpIT1 => OfCmpIT1(DecodeCmpIT1(w))
    case NCmpRT1 => OfCmpRT1(DecodeCmpRT1(w))
    case NCmpRT2 => OfCmpRT2(DecodeCmpRT2(w))
    case NLdrIT1 => OfLdrIT1(DecodeLdrIT1(w))
    case NLdrIT2Sp => OfLdrIT2Sp(DecodeLdrIT2Sp(w))
    case NLdrLitT1 => OfLdrLitT1(DecodeLdrLitT1(w))
    case NLdrRT1 => OfLdrRT1(DecodeLdrRT1(w))
    case NMovsIT1 => OfMovsIT1(DecodeMovsIT1(w))
    case NMovRT1 => OfMovRT1(DecodeMovRT1(w))
    case NMovsRT2 => OfMovsRT2(DecodeMovsRT2(w))
    case NPopT1 => OfPopT1(DecodePopT1(w))
    case NPushT1 => OfPushT1(DecodePushT1(w))
    case NSubsIT1 => OfSubsIT1(DecodeSubsIT1(w))
    case NSubsIT2 => OfSubsIT2(DecodeSubsIT2(w))
    case NSubsRT1 => OfSubsRT1(DecodeSubsRT1(w))
    case NSvcT1 => OfSvcT1(DecodeSvcT1(w))
    case NUdfT1 => OfUdfT1(DecodeUdfT1(w))
  }

  /** The offsets that a field keeps. The fit checks of the encoders named here let more through. */
  predicate KeptNarrow(p: NarrowParts) {
    match p
    case OfBCondT1(q) => Within(q.simm8, 0x100)
    case OfBT2(q) => Within(q.simm11, 0x800)
    case OfLdrIT1(q) => q.imm7 < 128
    case OfLdrIT2Sp(q) => q.imm10 < 1024
    case OfLdrLitT1(q) => q.imm10 < 1024
    case _ => true
  }

  lemma PartsBranchesLoads(p: NarrowParts)
    requires
      p.OfBCondT1? || p.OfBT2? || p.OfLdrIT1? || p.OfLdrIT2Sp? || p.OfLdrLitT1?
    requires EncodeNarrow(p).Some16?
    ensures Accepts16(KindOfNarrow(p), EncodeNarrow(p).word)
    ensures DecodeNarrow(KindOfNarrow(p), EncodeNarrow(p).word) == p <==> KeptNarrow(p)
  {
    match p
    case OfBCondT1(q) =>
      BCondT1Law(q);
      BCondT1Range(q);
    case OfBT2(q) =>
      BT2Law(q);
      BT2Range(q);
    case OfLdrIT1(q) =>
      LdrIT1Law(q);
      LdrIT1Range(q);
    case OfLdrIT2Sp(q) =>
      LdrIT2SpLaw(q);
      LdrIT2SpRange(q);
    case OfLdrLitT1(q) =>
      LdrLitT1Law(q);
      LdrLitT1Range(q);
  }

  lemma PartsArithmetic(p: NarrowParts)
    requires
      p.OfAddsIT1? || p.OfAddsIT2? || p.OfAddsRT1? || p.OfAddRT2? || p.OfBkptT1? || p.OfBlxT1? ||
      p.OfBxT1? || p.OfCmpIT1? || p.OfCmpRT1? || p.OfCmpRT2? || p.OfLdrRT1?
    requires EncodeNarrow(p).Some16?
    ensures Accepts16(KindOfNarrow(p), EncodeNarrow(p).word)
    ensures DecodeNarrow(KindOfNarrow(p), EncodeNarrow(p).word) == p <==> KeptNarrow(p)
  {
    match p
    case OfAddsIT1(q) =>
      AddsIT1Law(q);
    case OfAddsIT2(q) =>
      AddsIT2Law(q);
    case OfAddsRT1(q) =>
      AddsRT1Law(q);
    case OfAddRT2(q) =>
      AddRT2Law(q);
    case OfBkptT1(q) =>
      BkptT1Law(q);
    case OfBlxT1(q) =>
      BlxT1Law(q);
    case OfBxT1(q) =>
      BxT1Law(q);
    case OfCmpIT1(q) =>
      CmpIT1Law(q);
    case OfCmpRT1(q) =>
      CmpRT1Law(q);
    case OfCmpRT2(q) =>
      CmpRT2Law(q);
    case OfLdrRT1(q) =>
      LdrRT1Law(q);
  }

  lemma PartsMovesLists(p: NarrowParts)
    requires
      p.OfMovsIT1? || p.OfMovRT1? || p.OfMovsRT2? || p.OfPopT1? || p.OfPushT1?
    requires EncodeNarrow(p).Some16?
    ensures Accepts16(KindOfNarrow(p), EncodeNarrow(p).word)
    ensures DecodeNarrow(KindOfNarrow(p), EncodeNarrow(p).word) == p <==> KeptNarrow(p)
  {
    match p
    case OfMovsIT1(q) =>
      MovsIT1Law(q);
    case OfMovRT1(q) =>
      MovRT1Law(q);
    case OfMovsRT2(q) =>
      MovsRT2Law(q);
    case OfPopT1(q) =>
      PopT1Law(q);
    case OfPushT1(q) =>
      PushT1Law(q);
  }

  lemma PartsSubtraction(p: NarrowParts)
    requires
      p.OfSubsIT1? || p.OfSubsIT2? || p.OfSubsRT1? || p.OfSvcT1? || p.OfUdfT1?
    requires EncodeNarrow(p).Some16?
    ensures Accepts16(KindOfNarrow(p), EncodeNarrow(p).word)
    ensures DecodeNarrow(KindOfNarrow(p), EncodeNarrow(p).word) == p <==> KeptNarrow(p)
  {
    match p
    case OfSubsIT1(q) =>
      SubsIT1Law(q);
    case OfSubsIT2(q) =>
      SubsIT2Law(q);
    case OfSubsRT1(q) =>
      SubsRT1Law(q);
    case OfSvcT1(q) =>
      SvcT1Law(q);
    case OfUdfT1(q) =>
      UdfT1Law(q);
  }

  /** What is encoded is accepted by its matcher, and is decoded to the same parts if and only if
      the fields keep them. */
  lemma PartsNarrow(p: NarrowParts)
    requires EncodeNarrow(p).Some16?
    ensures Accepts16(KindOfNarrow(p), EncodeNarrow(p).word)
    ensures DecodeNarrow(KindOfNarrow(p), EncodeNarrow(p).word) == p <==> KeptNarrow(p)
  {
    match p
    case OfBCondT1(_) => PartsBranchesLoads(p);
    case OfBT2(_) => PartsBranchesLoads(p);
    case OfLdrIT1(_) => PartsBranchesLoads(p);
    case OfLdrIT2Sp(_) => PartsBranchesLoads(p);
    case OfLdrLitT1(_) => PartsBranchesLoads(p);
    case OfAddsIT1(_) => PartsArithmetic(p);
    case OfAddsIT2(_) => PartsArithmetic(p);
    case OfAddsRT1(_) => PartsArithmetic(p);
    case OfAddRT2(_) => PartsArithmetic(p);
    case OfBkptT1(_) => PartsArithmetic(p);
    case OfBlxT1(_) => PartsArithmetic(p);
    case OfBxT1(_) => PartsArithmetic(p);
    case OfCmpIT1(_) => PartsArithmetic(p);
    case OfCmpRT1(_) => PartsArithmetic(p);
    case OfCmpRT2(_) => PartsArithmetic(p);
    case OfLdrRT1(_) => PartsArithmetic(p);
    case OfMovsIT1(_) => PartsMovesLists(p);
    case OfMovRT1(_) => PartsMovesLists(p);
    case OfMovsRT2(_) => PartsMovesLists(p);
    case OfPopT1(_) => PartsMovesLists(p);
    case OfPushT1(_) => PartsMovesLists(p);
    case OfSubsIT1(_) => PartsSubtraction(p);
    case OfSubsIT2(_) => PartsSubtraction(p);
    case OfSubsRT1(_) => PartsSubtraction(p);
    case OfSvcT1(_) => PartsSubtraction(p);
    case OfUdfT1(_) => PartsSubtraction(p);
  }

  lemma WordsSums(e: Narrow, w: bv16)
    requires
      e.NAddsIT1? || e.NAddsIT2? || e.NAddsRT1? || e.NAddRT2?
    requires Accepts16(e, w)
    ensures EncodeNarrow(DecodeNarrow(e, w)) == Some16(w)
  {
    match e
    case NAddsIT1 => AddsIT1Word(w);
    case NAddsIT2 => AddsIT2Word(w);
    case NAddsRT1 => AddsRT1Word(w);
    case NAddRT2 => AddRT2Word(w);
  }

  lemma WordsBranchesTraps(e: Narrow, w: bv16)
    requires
      e.NBCondT1? || e.NBT2? || e.NBkptT1? || e.NBlxT1? || e.NBxT1? || e.NSvcT1? || e.NUdfT1?
    requires Accepts16(e, w)
    ensures EncodeNarrow(DecodeNarrow(e, w)) == Some16(w)
  {
    match e
    case NBCondT1 => BCondT1Word(w);
    case NBT2 => BT2Word(w);
    case NBkptT1 => BkptT1Word(w);
    case NBlxT1 => BlxT1Word(w);
    case NBxT1 => BxT1Word(w);
    case NSvcT1 => SvcT1Word(w);
    case NUdfT1 => UdfT1Word(w);
  }

  lemma WordsComparesLoads(e: Narrow, w: bv16)
    requires
      e.NCmpIT1? || e.NCmpRT1? || e.NCmpRT2? || e.NLdrIT1? || e.NLdrIT2Sp? || e.NLdrLitT1? || e.NLdrRT1?
    requires Accepts16(e, w)
    ensures EncodeNarrow(DecodeNarrow(e, w)) == Some16(w)
  {
    match e
    case NCmpIT1 => CmpIT1Word(w);
    case NCmpRT1 => CmpRT1Word(w);
    case NCmpRT2 => CmpRT2Word(w);
    case NLdrIT1 => LdrIT1Word(w);
    case NLdrIT2Sp => LdrIT2SpWord(w);
    case NLdrLitT1 => LdrLitT1Word(w);
    case NLdrRT1 => LdrRT1Word(w);
  }

  lemma WordsMovesLists(e: Narrow, w: bv16)
    requires
      e.NMovsIT1? || e.NMovRT1? || e.NMovsRT2? || e.NPopT1? || e.NPushT1?
    requires Accepts16(e, w)
    ensures EncodeNarrow(DecodeNarrow(e, w)) == Some16(w)
  {
    match e
    case NMovsIT1 => MovsIT1Word(w);
    case NMovRT1 => MovRT1Word(w);
    case NMovsRT2 => MovsRT2Word(w);
    case NPopT1 => PopT1Word(w);
    case NPushT1 => PushT1Word(w);
  }

  lemma WordsSubtraction(e: Narrow, w: bv16)
    requires
      e.NSubsIT1? || e.NSubsIT2? || e.NSubsRT1?
    requires Accepts16(e, w)
    ensures EncodeNarrow(DecodeNarrow(e, w)) == Some16(w)
  {
    match e
    case NSubsIT1 => SubsIT1Word(w);
    case NSubsIT2 => SubsIT2Word(w);
    case NSubsRT1 => SubsRT1Word(w);
  }

  /** Every word that a matcher accepts is the encoding of what it decodes to. */
  lemma WordsNarrow(e: Narrow, w: bv16)
    requires HasPartsNarrow(e) && Accepts16(e, w)
    ensures EncodeNarrow(DecodeNarrow(e, w)) == Some16(w)
  {
    match e
    case NAddsIT1 => WordsSums(e, w);
    case NAddsIT2 => WordsSums(e, w);
    case NAddsRT1 => WordsSums(e, w);
    case NAddRT2 => WordsSums(e, w);
    case NBCondT1 => WordsBranchesTraps(e, w);
    case NBT2 => WordsBranchesTraps(e, w);
    case NBkptT1 => WordsBranchesTraps(e, w);
    case NBlxT1 => WordsBranchesTraps(e, w);
    case NBxT1 => WordsBranchesTraps(e, w);
    case NSvcT1 => WordsBranchesTraps(e, w);
    case NUdfT1 => WordsBranchesTraps(e, w);
    case NCmpIT1 => WordsComparesLoads(e, w);
    case NCmpRT1 => WordsComparesLoads(e, w);
    case NCmpRT2 => WordsComparesLoads(e, w);
    case NLdrIT1 => WordsComparesLoads(e, w);
    case NLdrIT2Sp => WordsComparesLoads(e, w);
    case NLdrLitT1 => WordsComparesLoads(e, w);
    case NLdrRT1 => WordsComparesLoads(e, w);
    case NMovsIT1 => WordsMovesLists(e, w);
    case NMovRT1 => WordsMovesLists(e, w);
    case NMovsRT2 => WordsMovesLists(e, w);
    case NPopT1 => WordsMovesLists(e, w);
    case NPushT1 => WordsMovesLists(e, w);
    case NSubsIT1 => WordsSubtraction(e, w);
    case NSubsIT2 => WordsSubtraction(e, w);
    case NSubsRT1 => WordsSubtraction(e, w);
  }

  datatype WideParts =
    | OfAddwIT4(addwIT4: AddwIT4)
    | OfBCondT3(bCondT3: BCondT3)
    | OfBT4(bT4: BT4)
    | OfBlT1(blT1: BlT1)
    | OfLdrIT3(ldrIT3: LdrIT3)
    | OfLdrIT4(ldrIT4: LdrIT4)
    | OfLdrLitT2(ldrLitT2: LdrLitT2)
    | OfLdrRT2Lsl(ldrRT2Lsl: LdrRT2Lsl)
    | OfMovwIT3(movwIT3: MovwIT3)
    | OfMovRT3(movRT3: MovRT3)
    | OfPopT2(popT2: PopT2)
    | OfPopT3(popT3: PopT3)
    | OfPushT2(pushT2: PushT2)
    | OfPushT3(pushT3: PushT3)
    | OfSubwIT4(subwIT4: SubwIT4)
    | OfUdfT2(udfT2: UdfT2)

  function KindOfWide(p: WideParts): WideKind {
    match p
    case OfAddwIT4(_) => WAddwIT4
    case OfBCondT3(_) => WBCondT3
    case OfBT4(_) => WBT4
    case OfBlT1(_) => WBlT1
    case OfLdrIT3(_) => WLdrIT3
    case OfLdrIT4(_) => WLdrIT4
    case OfLdrLitT2(_) => WLdrLitT2
    case OfLdrRT2Lsl(_) => WLdrRT2Lsl
    case OfMovwIT3(_) => WMovwIT3
    case OfMovRT3(_) => WMovRT3
    case OfPopT2(_) => WPopT2
    case OfPopT3(_) => WPopT3
    case OfPushT2(_) => WPushT2
    case OfPushT3(_) => WPushT3
    case OfSubwIT4(_) => WSubwIT4
    case OfUdfT2(_) => WUdfT2
  }

  function EncodeWide(p: WideParts): Encoded32 {
    match p
    case OfAddwIT4(q) => EncodeAddwIT4(q)
    case OfBCondT3(q) => EncodeBCondT3(q)
    case OfBT4(q) => EncodeBT4(q)
    case OfBlT1(q) => EncodeBlT1(q)
    case OfLdrIT3(q) => EncodeLdrIT3(q)
    case OfLdrIT4(q) => EncodeLdrIT4(q)
    case OfLdrLitT2(q) => EncodeLdrLitT2(q)
    case OfLdrRT2Lsl(q) => EncodeLdrRT2Lsl(q)
    case OfMovwIT3(q) => EncodeMovwIT3(q)
    case OfMovRT3(q) => EncodeMovRT3(q)
    case OfPopT2(q) => EncodePopT2(q)
    case OfPopT3(q) => EncodePopT3(q)
    case OfPushT2(q) => EncodePushT2(q)
    case OfPushT3(q) => EncodePushT3(q)
    case OfSubwIT4(q) => EncodeSubwIT4(q)
    case OfUdfT2(q) => EncodeUdfT2(q)
  }

  predicate HasPartsWide(e: WideKind) {
    !(e.WNopT2? || e.NoWide?)
  }

  function DecodeWide(e: WideKind, w: bv32): WideParts
    requires HasPartsWide(e)
  {
    match e
    case WAddwIT4 => OfAddwIT4(DecodeAddwIT4(w))
    case WBCondT3 => OfBCondT3(DecodeBCondT3(w))
    case WBT4 => OfBT4(DecodeBT4(w))
    case WBlT1 => OfBlT1(DecodeBlT1(w))
    case WLdrIT3 => OfLdrIT3(DecodeLdrIT3(w))
    case WLdrIT4 => OfLdrIT4(DecodeLdrIT4(w))
    case WLdrLitT2 => OfLdrLitT2(DecodeLdrLitT2(w))
    case WLdrRT2Lsl => OfLdrRT2Lsl(DecodeLdrRT2Lsl(w))
    case WMovwIT3 => OfMovwIT3(DecodeMovwIT3(w))
    case WMovRT3 => OfMovRT3(DecodeMovRT3(w))
    case WPopT2 => OfPopT2(DecodePopT2(w))
    case WPopT3 => OfPopT3(DecodePopT3(w))
    case WPushT2 => OfPushT2(DecodePushT2(w))
    case WPushT3 => OfPushT3(DecodePushT3(w))
    case WSubwIT4 => OfSubwIT4(DecodeSubwIT4(w))
    case WUdfT2 => OfUdfT2(DecodeUdfT2(w))
  }

  /** The offsets that a field keeps. The fit checks of the encoders named here let more through. */
  predicate KeptWide(p: WideParts) {
    match p
    case OfBCondT3(q) => Within(q.simm21, 0x10_0000)
    case OfBT4(q) => Within(q.simm25, 0x100_0000)
    case OfBlT1(q) => Within(q.simm25, 0x100_0000)
    case _ => true
  }

  lemma PartsWideBranches(p: WideParts)
    requires
      p.OfBCondT3? || p.OfBT4? || p.OfBlT1?
    requires EncodeWide(p).Some32?
    ensures Accepts32(KindOfWide(p), EncodeWide(p).word)
    ensures DecodeWide(KindOfWide(p), EncodeWide(p).word) == p <==> KeptWide(p)
  {
    match p
    case OfBCondT3(q) =>
      BCondT3Law(q);
      BCondT3Range(q);
    case OfBT4(q) =>
      BT4Law(q);
      BT4Range(q);
    case OfBlT1(q) =>
      BlT1Law(q);
      BlT1Range(q);
  }

  lemma PartsWideLoads(p: WideParts)
    requires
      p.OfLdrIT3? || p.OfLdrIT4? || p.OfLdrLitT2? || p.OfLdrRT2Lsl? || p.OfPopT2? || p.OfPopT3? ||
      p.OfPushT2? || p.OfPushT3?
    requires EncodeWide(p).Some32?
    ensures Accepts32(KindOfWide(p), EncodeWide(p).word)
    ensures DecodeWide(KindOfWide(p), EncodeWide(p).word) == p <==> KeptWide(p)
  {
    match p
    case OfLdrIT3(q) =>
      LdrIT3Law(q);
    case OfLdrIT4(q) =>
      LdrIT4Law(q);
    case OfLdrLitT2(q) =>
      LdrLitT2Law(q);
    case OfLdrRT2Lsl(q) =>
      LdrRT2LslLaw(q);
    case OfPopT2(q) =>
      PopT2Law(q);
    case OfPopT3(q) =>
      PopT3Law(q);
    case OfPushT2(q) =>
      PushT2Law(q);
    case OfPushT3(q) =>
      PushT3Law(q);
  }

  lemma PartsWideMoves(p: WideParts)
    requires
      p.OfAddwIT4? || p.OfMovwIT3? || p.OfMovRT3? || p.OfSubwIT4? || p.OfUdfT2?
    requires EncodeWide(p).Some32?
    ensures Accepts32(KindOfWide(p), EncodeWide(p).word)
    ensures DecodeWide(KindOfWide(p), EncodeWide(p).word) == p <==> KeptWide(p)
  {
    match p
    case OfAddwIT4(q) =>
      AddwIT4Law(q);
    case OfMovwIT3(q) =>
      MovwIT3Law(q);
    case OfMovRT3(q) =>
      MovRT3Law(q);
    case OfSubwIT4(q) =>
      SubwIT4Law(q);
    case OfUdfT2(q) =>
      UdfT2Law(q);
  }

  /** What is encoded is accepted by its matcher, and is decoded to the same parts if and only if
      the fields keep them. */
  lemma PartsWide(p: WideParts)
    requires EncodeWide(p).Some32?
    ensures Accepts32(KindOfWide(p), EncodeWide(p).word)
    ensures DecodeWide(KindOfWide(p), EncodeWide(p).word) == p <==> KeptWide(p)
  {
    match p
    case OfBCondT3(_) => PartsWideBranches(p);
    case OfBT4(_) => PartsWideBranches(p);
    case OfBlT1(_) => PartsWideBranches(p);
    case OfLdrIT3(_) => PartsWideLoads(p);
    case OfLdrIT4(_) => PartsWideLoads(p);
    case OfLdrLitT2(_) => PartsWideLoads(p);
    case OfLdrRT2Lsl(_) => PartsWideLoads(p);
    case OfPopT2(_) => PartsWideLoads(p);
    case OfPopT3(_) => PartsWideLoads(p);
    case OfPushT2(_) => PartsWideLoads(p);
    case OfPushT3(_) => PartsWideLoads(p);
    case OfAddwIT4(_) => PartsWideMoves(p);
    case OfMovwIT3(_) => PartsWideMoves(p);
    case OfMovRT3(_) => PartsWideMoves(p);
    case OfSubwIT4(_) => PartsWideMoves(p);
    case OfUdfT2(_) => PartsWideMoves(p);
  }

  /** Every word that a matcher accepts is the encoding of what it decodes to. */
  lemma WordsWide(e: WideKind, w: bv32)
    requires HasPartsWide(e) && Accepts32(e, w)
    ensures EncodeWide(DecodeWide(e, w)) == Some32(w)
  {
    match e
    case WAddwIT4 => AddwIT4Word(w);
    case WBCondT3 => BCondT3Word(w);
    case WBT4 => BT4Word(w);
    case WBlT1 => BlT1Word(w);
    case WLdrIT3 => LdrIT3Word(w);
    case WLdrIT4 => LdrIT4Word(w);
    case WLdrLitT2 => LdrLitT2Word(w);
    case WLdrRT2Lsl => LdrRT2LslWord(w);
    case WMovwIT3 => MovwIT3Word(w);
    case WMovRT3 => MovRT3Word(w);
    case WPopT2 => PopT2Word(w);
    case WPopT3 => PopT3Word(w);
    case WPushT2 => PushT2Word(w);
    case WPushT3 => PushT3Word(w);
    case WSubwIT4 => SubwIT4Word(w);
    case WUdfT2 => UdfT2Word(w);
  }
}
