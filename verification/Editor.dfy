// The interactive assembly editor of monitor/monitor_cmds/monitor_assemble.c: a cursor over a
// stream of instructions, with what the menu asks for as an input sequence of commands.
// Addresses and section sizes are counted in halfwords.

module Editor {
  import opened T32Encoding
  import opened ThumbAsm
  import opened Meaning
  import opened AsmRoundTrip
  import opened ThumbMemory
  import opened InstructionStream

  datatype Section = NoSection | Section(size: nat)

  /** What monitor_assemble keeps between prompts. */
  datatype State = State(
    mem: seq<bv16>,
    start: nat,
    cursor: nat,
    end: nat,
    section: Section,
    width: Width)

  datatype Command =
    | Assembles(spec: Spec)
    | SpecifyWidth(width: Width)
    | ToStart
    | ToEnd
    | Up
    | Down
    | Rewind
    | Other

  /** Up and Rewind search for the previous instruction, and the search may never end. */
  datatype Outcome = Ready(state: State) | Hangs

  predicate Shape(v: State) {
    v.start <= v.cursor <= v.end <= |v.mem|
  }

  /** What holds at every prompt of a sound run. */
  predicate Good(v: State) {
    && Shape(v)
    && Boundary(v.mem, v.start, v.cursor)
    && Boundary(v.mem, v.start, v.end)
    && (v.section.Section? ==> v.end - v.start <= v.section.size)
  }

  /** Before the first prompt the address is clamped to the section, if there is one. */
  function Enter(mem: seq<bv16>, address: nat, base: nat, section: Section): State {
    if section.NoSection? then State(mem, address, address, address, NoSection, AUTO)
    else
      var end := base + section.size;
      var cursor := if address < base then base else if address > end then end else address;
      State(mem, base, cursor, end, section, AUTO)
  }

  /** The top of the loop: the end, and with it the section, grows with the cursor. */
  function Settle(v: State): State
    requires v.start <= v.cursor
  {
    if v.cursor > v.end then
      v.(end := v.cursor,
         section := if v.section.Section? then Section(v.cursor - v.start) else NoSection)
    else v
  }

  /** The instruction as the menus fill it in: its width is the one specified last. */
  function Request(v: State, s: Spec): Spec {
    s.(width := v.width)
  }

  function Result(v: State, cmd: Command): AsmResult {
    if cmd.Assembles? then Assemble(Request(v, cmd.spec)) else BadMnemonic
  }

  predicate Fits(v: State, r: AsmResult) {
    v.cursor + |Halves(r)| <= |v.mem|
  }

  predicate Room(v: State, cmd: Command) {
    Fits(v, Result(v, cmd))
  }

  /** assemble_and_show_result: what was assembled is stepped over by reading it back. */
  function AfterAssembly(v: State, r: AsmResult): State
    requires Fits(v, r)
  {
    var mem := Written(v.mem, v.cursor, Halves(r));
    if r.Success() then v.(mem := mem, cursor := Next(mem, v.cursor)) else v.(mem := mem)
  }

  ghost function Step(v: State, cmd: Command): Outcome
    requires Shape(v) && Room(v, cmd)
  {
    match cmd
    case Assembles(_) => Ready(Settle(AfterAssembly(v, Result(v, cmd))))
    case SpecifyWidth(w) => Ready(v.(width := w))
    case ToStart => Ready(v.(cursor := v.start))
    case ToEnd => Ready(v.(cursor := v.end))
    case Up =>
      if v.cursor <= v.start then Ready(v)
      else if !Finds(v.mem, v.start, v.cursor) then Hangs
      else Ready(v.(cursor := Found(v.mem, v.start, v.cursor)))
    case Down =>
      if v.cursor >= v.end then Ready(v) else Ready(Settle(v.(cursor := Next(v.mem, v.cursor))))
    case Rewind =>
      if v.end <= v.start then Ready(v)
      else if !Finds(v.mem, v.start, v.end) then Hangs
      else
        var end := Found(v.mem, v.start, v.end);
        Ready(Rewound(v, end))
    case Other => Ready(v)
  }

  // ---- One command

  /** Where Up goes, and when it hangs. */
  lemma UpStep(v: State)
    requires Shape(v) && v.start < v.cursor
    ensures
      Step(v, Up) ==
      if Boundary(v.mem, v.start, v.cursor) then Ready(v.(cursor := Previous(v.mem, v.start, v.cursor))) else Hangs
  {
    SearchEnds(v.mem, v.start, v.cursor);
    if Finds(v.mem, v.start, v.cursor) {
      SearchFinds(v.mem, v.start, v.cursor);
    }
  }

  function Rewound(v: State, end: nat): State {
    v.(end := end, cursor := if v.cursor > end then end else v.cursor)
  }

  lemma RewindStep(v: State)
    requires Shape(v) && v.start < v.end
    ensures
      Step(v, Rewind) ==
      if Boundary(v.mem, v.start, v.end) then Ready(Rewound(v, Previous(v.mem, v.start, v.end))) else Hangs
  {
    SearchEnds(v.mem, v.start, v.end);
    if Finds(v.mem, v.start, v.end) {
      SearchFinds(v.mem, v.start, v.end);
    }
  }

  /** The exact condition for an assembly to leave a stream that still splits into instructions:
      it reaches the end, or what follows it still leads there. */
  predicate Keeps(v: State, cmd: Command)
    requires Shape(v)
  {
    LeavesWhole(v, Result(v, cmd))
  }

  predicate LeavesWhole(v: State, r: AsmResult)
    requires Shape(v)
  {
    r.Success() ==> LeadsOn(v, v.cursor + |Halves(r)|)
  }

  predicate LeadsOn(v: State, next: nat)
    requires Shape(v)
  {
    next >= v.end || Boundary(v.mem, next, v.end)
  }

  /** A result is read back at the width it was stored with. */
  predicate Honest(r: AsmResult) {
    match r
    case NarrowSuccess(half) => !IsWide(half)
    case WideSuccess(word) => IsWide(Low16(word))
    case _ => true
  }

  lemma HonestResult(v: State, cmd: Command)
    ensures Honest(Result(v, cmd))
  {
    if Result(v, cmd).Success() {
      WidthAgreement(Request(v, cmd.spec));
    }
  }

  lemma FailureKeeps(v: State, r: AsmResult)
    requires Shape(v) && !r.Success()
    ensures Fits(v, r) && Settle(AfterAssembly(v, r)) == v
  {
    NothingWritten(v.mem, v.cursor);
  }

  lemma AssemblyMoves(v: State, r: AsmResult)
    requires Shape(v) && Honest(r) && Fits(v, r) && r.Success()
    ensures
      var w := AfterAssembly(v, r);
      && w == v.(mem := w.mem, cursor := w.cursor)
      && w.cursor == v.cursor + |Halves(r)| <= |w.mem| == |v.mem|
      && Boundary(w.mem, v.cursor, w.cursor) && v.cursor < w.cursor
      && (forall i :: 0 <= i < v.cursor ==> w.mem[i] == v.mem[i])
      && (forall i :: w.cursor <= i < |v.mem| ==> w.mem[i] == v.mem[i])
  {
    var w := AfterAssembly(v, r);
    assert w.mem[v.cursor] == Halves(r)[0];
    assert Boundary(w.mem, w.cursor, w.cursor);
  }

  lemma SplicedGood(v: State, w: State)
    requires Good(v) && w == v.(mem := w.mem, cursor := w.cursor) && v.cursor < w.cursor <= |v.mem| == |w.mem|
    requires Boundary(w.mem, v.cursor, w.cursor)
    requires forall i :: 0 <= i < v.cursor ==> w.mem[i] == v.mem[i]
    requires forall i :: w.cursor <= i < |v.mem| ==> w.mem[i] == v.mem[i]
    ensures Good(Settle(w)) <==> LeadsOn(v, w.cursor)
  {
    BoundaryFrame(v.mem, w.mem, v.start, v.cursor);
    BoundaryJoin(w.mem, v.start, v.cursor, w.cursor);
    if w.cursor < v.end {
      BoundaryFrame(v.mem, w.mem, w.cursor, v.end);
      if Boundary(w.mem, w.cursor, v.end) {
        BoundaryJoin(w.mem, v.start, w.cursor, v.end);
      } else if Boundary(w.mem, v.start, v.end) {
        BoundaryBetween(w.mem, v.start, w.cursor, v.end);
      }
    }
  }

  lemma AssemblyKeepsGood(v: State, r: AsmResult)
    requires Good(v) && Honest(r) && Fits(v, r)
    ensures Good(Settle(AfterAssembly(v, r))) <==> LeavesWhole(v, r)
  {
    if r.Success() {
      AssemblyMoves(v, r);
      SplicedGood(v, AfterAssembly(v, r));
    } else {
      FailureKeeps(v, r);
    }
  }

  /** From a good prompt no command hangs, and the next prompt is good if and only if the command
      keeps the stream. */
  lemma StepKeepsGood(v: State, cmd: Command)
    requires Good(v) && Room(v, cmd)
    ensures Step(v, cmd).Ready?
    ensures Good(Step(v, cmd).state) <==> Keeps(v, cmd)
  {
    match cmd
    case Assembles(_) =>
      HonestResult(v, cmd);
      AssemblyKeepsGood(v, Result(v, cmd));
    case Up =>
      if v.start < v.cursor {
        UpStep(v);
      }
    case Down =>
      if v.cursor < v.end {
        StepInside(v.mem, v.start, v.cursor, v.end);
      }
    case Rewind =>
      if v.start < v.end {
        RewindStep(v);
      }
    case _ =>
  }

  /** Appending, and replacing an instruction by one of the same width, keep the stream. */
  lemma AppendOrReplaceKeeps(v: State, cmd: Command)
    requires Good(v)
    requires v.cursor == v.end || |Halves(Result(v, cmd))| == Next(v.mem, v.cursor) - v.cursor
    ensures Keeps(v, cmd)
  {
    KeepsWhole(v, Result(v, cmd));
  }

  lemma KeepsWhole(v: State, r: AsmResult)
    requires Good(v)
    requires v.cursor == v.end || |Halves(r)| == Next(v.mem, v.cursor) - v.cursor
    ensures LeavesWhole(v, r)
  {
    LeadsOnFrom(v, v.cursor + |Halves(r)|);
  }

  lemma LeadsOnFrom(v: State, next: nat)
    requires Good(v)
    requires (v.cursor == v.end && next >= v.cursor) || next == Next(v.mem, v.cursor)
    ensures LeadsOn(v, next)
  {
    if v.cursor < v.end {
      StepInside(v.mem, v.start, v.cursor, v.end);
      BoundaryBetween(v.mem, v.start, next, v.end);
    }
  }

  // ---- Whole runs

  predicate RoomFor(v: State, commands: nat) {
    Shape(v) && v.end + 2 * commands <= |v.mem|
  }

  lemma AssemblyFits(v: State, r: AsmResult, left: nat)
    requires RoomFor(v, left + 1) && Honest(r)
    ensures Fits(v, r) && RoomFor(Settle(AfterAssembly(v, r)), left)
  {
    if r.Success() {
      AssemblyMoves(v, r);
    } else {
      FailureKeeps(v, r);
    }
  }

  lemma StepFits(v: State, cmd: Command, left: nat)
    requires RoomFor(v, left + 1)
    ensures Room(v, cmd)
    ensures Step(v, cmd).Ready? ==> RoomFor(Step(v, cmd).state, left)
  {
    HonestResult(v, cmd);
    AssemblyFits(v, Result(v, cmd), left);
    match cmd
    case Up => if v.start < v.cursor { UpStep(v); }
    case Rewind => if v.start < v.end { RewindStep(v); }
    case _ =>
  }

  ghost function Run(v: State, cmds: seq<Command>): Outcome
    requires RoomFor(v, |cmds|)
    decreases |cmds|
  {
    if cmds == [] then Ready(v)
    else
      StepFits(v, cmds[0], |cmds| - 1);
      var next := Step(v, cmds[0]);
      if next.Hangs? then Hangs else Run(next.state, cmds[1..])
  }

  /** Every assembly of the run keeps the stream. */
  ghost predicate AllKeep(v: State, cmds: seq<Command>)
    requires RoomFor(v, |cmds|)
    decreases |cmds|
  {
    cmds == [] ||
    (StepFits(v, cmds[0], |cmds| - 1);
     Keeps(v, cmds[0]) &&
     (Step(v, cmds[0]).Ready? ==> AllKeep(Step(v, cmds[0]).state, cmds[1..])))
  }

  /** Every prompt of the run is good, and every command gets to the next prompt. */
  ghost predicate AllGood(v: State, cmds: seq<Command>)
    requires RoomFor(v, |cmds|)
    decreases |cmds|
  {
    Good(v) &&
    (cmds == [] ||
     (StepFits(v, cmds[0], |cmds| - 1);
      Step(v, cmds[0]).Ready? && AllGood(Step(v, cmds[0]).state, cmds[1..])))
  }

  /** In every run from a good prompt, all prompts are good and no search hangs if and only if
      every assembly keeps the stream. */
  lemma {:induction false} EveryRun(v: State, cmds: seq<Command>)
    requires Good(v) && RoomFor(v, |cmds|)
    ensures AllGood(v, cmds) <==> AllKeep(v, cmds)
    decreases |cmds|
  {
    if cmds != [] {
      StepFits(v, cmds[0], |cmds| - 1);
      StepKeepsGood(v, cmds[0]);
      var next := Step(v, cmds[0]).state;
      if Good(next) {
        EveryRun(next, cmds[1..]);
      } else {
        NotAllGood(next, cmds[1..]);
      }
    }
  }

  lemma NotAllGood(v: State, cmds: seq<Command>)
    requires RoomFor(v, |cmds|) && !Good(v)
    ensures !AllGood(v, cmds)
  {
  }

  lemma {:induction false} GoodRunEnds(v: State, cmds: seq<Command>)
    requires RoomFor(v, |cmds|) && AllGood(v, cmds)
    ensures Run(v, cmds).Ready? && Good(Run(v, cmds).state)
    decreases |cmds|
  {
    if cmds != [] {
      StepFits(v, cmds[0], |cmds| - 1);
      GoodRunEnds(Step(v, cmds[0]).state, cmds[1..]);
    }
  }

  /** Looking back from the end hangs if and only if the stream no longer splits. */
  lemma LooksBackForever(v: State)
    requires RoomFor(v, 2) && v.start < v.end
    ensures Run(v, [ToEnd, Up]).Hangs? <==> !Boundary(v.mem, v.start, v.end)
    ensures Run(v, [Rewind]).Hangs? <==> !Boundary(v.mem, v.start, v.end)
  {
    var w := v.(cursor := v.end);
    assert Step(v, ToEnd) == Ready(w);
    assert [ToEnd, Up][1..] == [Up];
    assert [Up][1..] == [] && [Rewind][1..] == [];
    assert Run(v, [ToEnd, Up]) == Run(w, [Up]);
    UpStep(w);
    RewindStep(v);
    if Boundary(v.mem, v.start, v.end) {
      assert Run(w, [Up]).Ready? by {
        StepFits(w, Up, 0);
        assert Run(Step(w, Up).state, []).Ready?;
      }
      assert Run(v, [Rewind]).Ready? by {
        StepFits(v, Rewind, 0);
        assert Run(Step(v, Rewind).state, []).Ready?;
      }
    }
  }

  /** Without a section, and with one that splits and an address on a boundary of it, the first
      prompt is good. */
  lemma EnterGood(mem: seq<bv16>, address: nat, base: nat, section: Section)
    requires section.NoSection? ==> address <= |mem|
    requires section.Section? ==> base + section.size <= |mem| && Boundary(mem, base, base + section.size)
    requires section.Section? && base <= address <= base + section.size ==> Boundary(mem, base, address)
    ensures Good(Enter(mem, address, base, section))
  {
  }

  // ---- Moving about

  lemma UpUndoesDown(v: State)
    requires Good(v) && v.cursor < v.end
    ensures Step(v, Down).Ready? && Good(Step(v, Down).state)
    ensures Step(Step(v, Down).state, Up) == Ready(v)
  {
    var w := v.(cursor := Next(v.mem, v.cursor));
    StepInside(v.mem, v.start, v.cursor, v.end);
    assert Step(v, Down) == Ready(w);
    BoundaryForward(v.mem, v.start, v.cursor);
    UpStep(w);
    OnePredecessor(v.mem, v.start, w.cursor, v.cursor);
  }

  lemma DownUndoesUp(v: State)
    requires Good(v) && v.start < v.cursor
    ensures Step(v, Up).Ready? && Good(Step(v, Up).state)
    ensures Step(Step(v, Up).state, Down) == Ready(v)
  {
    UpStep(v);
  }

  // ---- What is edited

  function Program(v: State): seq<DisResult>
    requires Good(v)
  {
    Listing(v.mem, v.start, v.end)
  }

  /** The instructions before the cursor. */
  function Before(v: State): seq<DisResult>
    requires Good(v)
  {
    Listing(v.mem, v.start, v.cursor)
  }

  lemma ListedAfter(v: State, r: AsmResult)
    requires Good(v) && Honest(r) && Fits(v, r) && r.Success()
    ensures
      var w := AfterAssembly(v, r);
      && Boundary(w.mem, v.start, w.cursor) && w.cursor <= |w.mem|
      && Listing(w.mem, v.start, w.cursor) == Before(v) + [At(w.mem, v.cursor)]
  {
    var w := AfterAssembly(v, r);
    AssemblyMoves(v, r);
    ListingFrame(v.mem, w.mem, v.start, v.cursor);
    ListingOne(w.mem, v.cursor);
    ListingJoin(w.mem, v.start, v.cursor, w.cursor);
  }

  /** The instruction at a place means what was asked for if and only if that was faithful. */
  predicate Shows(d: DisResult, width: Width, s: Spec) {
    Means(d, s) <==> Faithful(s.(width := width))
  }

  /** The width is not part of the meaning. */
  lemma SameEffect(s: Spec, w: Width)
    ensures EffectOf(s.(width := w)) == EffectOf(s)
  {
    match s.mnemonic
    case UNKNOWN => case ADD => case ADDS => case ADDW => case B => case BKPT => case BL => case BLX =>
    case BX => case CMP => case LDR => case NOP => case MOV => case MOVS => case MOVW => case POP =>
    case PUSH => case SUB => case SUBS => case SUBW => case SVC => case UDF =>
  }

  lemma AssembledShows(v: State, s: Spec, r: AsmResult)
    requires Good(v) && r == Assemble(Request(v, s)) && Fits(v, r) && r.Success()
    ensures Shows(At(AfterAssembly(v, r).mem, v.cursor), v.width, s)
  {
    StoredInstruction(v.mem, v.cursor, Request(v, s));
    SameEffect(s, v.width);
  }

  lemma Appended(v: State, r: AsmResult)
    requires Good(v) && v.cursor == v.end && Honest(r) && Fits(v, r) && r.Success()
    ensures
      var w := Settle(AfterAssembly(v, r));
      && Good(w) && w.cursor == w.end
      && Program(w) == Program(v) + [At(w.mem, v.cursor)]
  {
    AssemblyKeepsGood(v, r);
    AssemblyMoves(v, r);
    ListedAfter(v, r);
  }

  /** Assembling at the end adds one instruction to the program and changes no other. */
  lemma AppendAdds(v: State, cmd: Command)
    requires Good(v) && v.cursor == v.end && cmd.Assembles? && Room(v, cmd) && Result(v, cmd).Success()
    ensures
      var w := Step(v, cmd).state;
      && Good(w) && w.cursor == w.end
      && Program(w) == Program(v) + [At(w.mem, v.cursor)]
      && Shows(At(w.mem, v.cursor), v.width, cmd.spec)
  {
    HonestResult(v, cmd);
    Appended(v, Result(v, cmd));
    AssembledShows(v, cmd.spec, Result(v, cmd));
  }

  lemma Replaced(v: State, r: AsmResult)
    requires Good(v) && v.cursor < v.end && Honest(r) && Fits(v, r) && r.Success()
    requires |Halves(r)| == Next(v.mem, v.cursor) - v.cursor
    ensures
      var w := Settle(AfterAssembly(v, r));
      && Good(w) && w.end == v.end && |Before(v)| < |Program(v)|
      && Program(w) == Program(v)[|Before(v)| := At(w.mem, v.cursor)]
  {
    AssemblyKeepsGood(v, r);
    AssemblyMoves(v, r);
    ListedAfter(v, r);
    LeadsOnFrom(v, v.cursor + |Halves(r)|);
    StepInside(v.mem, v.start, v.cursor, v.end);
    var w := AfterAssembly(v, r);
    ListingReplaced(v.mem, w.mem, v.start, v.cursor, w.cursor, v.end, At(w.mem, v.cursor));
  }

  /** Assembling over an instruction of the same width replaces it and changes no other. */
  lemma ReplaceReplaces(v: State, cmd: Command)
    requires Good(v) && v.cursor < v.end && cmd.Assembles? && Room(v, cmd) && Result(v, cmd).Success()
    requires |Halves(Result(v, cmd))| == Next(v.mem, v.cursor) - v.cursor
    ensures
      var w := Step(v, cmd).state;
      && Good(w) && w.end == v.end && |Before(v)| < |Program(v)|
      && Program(w) == Program(v)[|Before(v)| := At(w.mem, v.cursor)]
      && Shows(At(w.mem, v.cursor), v.width, cmd.spec)
  {
    HonestResult(v, cmd);
    Replaced(v, Result(v, cmd));
    AssembledShows(v, cmd.spec, Result(v, cmd));
  }

  /** The state after Rewind, whose end is the last instruction. */
  lemma RewoundGood(v: State, end: nat)
    requires Good(v) && v.start < v.end && end == Previous(v.mem, v.start, v.end)
    ensures Good(Rewound(v, end))
    ensures Program(v) == Program(Rewound(v, end)) + [At(v.mem, end)]
  {
    ListingOne(v.mem, end);
    ListingJoin(v.mem, v.start, end, v.end);
  }

  /** Rewinding takes the last instruction off the program. */
  lemma RewindRemoves(v: State)
    requires Good(v) && v.start < v.end
    ensures Step(v, Rewind).Ready?
    ensures
      var w := Step(v, Rewind).state;
      Good(w) && |Program(v)| > 0 && Program(w) == Program(v)[..|Program(v)| - 1]
  {
    RewindStep(v);
    RewoundGood(v, Previous(v.mem, v.start, v.end));
  }

  /** The cursor as a place in the program. */
  function Index(v: State): nat
    requires Good(v)
  {
    |Before(v)|
  }

  lemma BeforeIsPrefix(v: State)
    requires Good(v)
    ensures Index(v) <= |Program(v)| && Before(v) == Program(v)[..Index(v)]
    ensures Index(v) == |Program(v)| <==> v.cursor == v.end
    ensures Index(v) == 0 <==> v.cursor == v.start
  {
    BoundaryBetween(v.mem, v.start, v.cursor, v.end);
    ListingJoin(v.mem, v.start, v.cursor, v.end);
  }

  lemma OneFurther(mem: seq<bv16>, start: nat, p: nat)
    requires Boundary(mem, start, p) && p < |mem| && Next(mem, p) <= |mem|
    ensures Boundary(mem, start, Next(mem, p))
    ensures Listing(mem, start, Next(mem, p)) == Listing(mem, start, p) + [At(mem, p)]
  {
    ListingOne(mem, p);
    ListingJoin(mem, start, p, Next(mem, p));
  }

  /** What a command leaves alone. Only SpecifyWidth sets the width, only an assembly writes memory or
      resizes the section, and an assembly writes nothing before the cursor. */
  lemma StepFrame(v: State, cmd: Command)
    requires Good(v) && Room(v, cmd) && Step(v, cmd).Ready?
    ensures
      var w := Step(v, cmd).state;
      && w.start == v.start && w.width == (if cmd.SpecifyWidth? then cmd.width else v.width)
      && |w.mem| == |v.mem| && (forall i :: 0 <= i < v.cursor ==> w.mem[i] == v.mem[i])
      && (!cmd.Assembles? ==> w.mem == v.mem && w.section == v.section)
      && (cmd.SpecifyWidth? || cmd.Other? ==> w.cursor == v.cursor && w.end == v.end)
  {
    match cmd
    case Up => if v.start < v.cursor { UpStep(v); }
    case Rewind => if v.start < v.end { RewindStep(v); }
    case Down => if v.cursor < v.end { StepInside(v.mem, v.start, v.cursor, v.end); }
    case _ =>
  }

  /** The first prompt: the place nearest to the address in the section, which is the stretch to edit;
      without a section, an empty stretch at the address. */
  lemma FirstPrompt(mem: seq<bv16>, address: nat, base: nat, section: Section, p: nat)
    ensures
      var v := Enter(mem, address, base, section);
      && v.mem == mem && v.width == AUTO && v.section == section
      && match section
         case NoSection => v.start == v.cursor == v.end == address
         case Section(size) =>
           && v.start == base <= v.cursor <= v.end == base + size
           && (base <= p <= base + size ==> Away(v.cursor, address) <= Away(p, address))
  {
  }

  function Away(p: nat, q: nat): nat {
    if p < q then q - p else p - q
  }

  /** The end never lies before the cursor and is not moved otherwise; a section that is grown past
      ends with it. */
  lemma SettledAt(v: State)
    requires v.start <= v.cursor
    ensures
      var w := Settle(v);
      && w == v.(end := w.end, section := w.section)
      && w.end == (if v.cursor <= v.end then v.end else v.cursor)
      && w.section ==
         if v.section.NoSection? || v.cursor <= v.end then v.section else Section(v.cursor - v.start)
  {
  }

  /** The width specified last, or the one before all commands. */
  function WidthAfter(width: Width, cmds: seq<Command>): Width {
    if cmds == [] then width
    else match cmds[|cmds| - 1] case SpecifyWidth(w) => w case _ => WidthAfter(width, cmds[..|cmds| - 1])
  }

  lemma {:induction false} WidthAfterFirst(width: Width, cmds: seq<Command>)
    requires cmds != []
    ensures WidthAfter(width, cmds) ==
      WidthAfter(if cmds[0].SpecifyWidth? then cmds[0].width else width, cmds[1..])
  {
    var n := |cmds| - 1;
    if n > 0 {
      assert cmds[1..][..n - 1] == cmds[..n][1..];
      WidthAfterFirst(width, cmds[..n]);
    } else {
      assert cmds[..0] == [];
    }
  }

  /** In every sound run the width in force is the one specified last. */
  lemma {:induction false} WidthOfRun(v: State, cmds: seq<Command>)
    requires RoomFor(v, |cmds|) && AllGood(v, cmds)
    ensures Run(v, cmds).Ready? && Run(v, cmds).state.width == WidthAfter(v.width, cmds)
    decreases |cmds|
  {
    if cmds != [] {
      StepFits(v, cmds[0], |cmds| - 1);
      StepFrame(v, cmds[0]);
      WidthOfRun(Step(v, cmds[0]).state, cmds[1..]);
      WidthAfterFirst(v.width, cmds);
    }
  }

  /** Seen as a program and a place in it, the editor moves as a line editor does: no command but an
      assembly or Rewind changes the program, and Rewind pulls the place back with its end. */
  lemma CursorMoves(v: State, cmd: Command)
    requires Good(v) && !cmd.Assembles?
    ensures Room(v, cmd) && Step(v, cmd).Ready? && Good(Step(v, cmd).state)
    ensures
      var w := Step(v, cmd).state;
      var n, i := |Program(v)|, Index(v);
      match cmd
      case ToStart => Program(w) == Program(v) && Index(w) == 0
      case ToEnd => Program(w) == Program(v) && Index(w) == n
      case Up => Program(w) == Program(v) && Index(w) == if i > 0 then i - 1 else 0
      case Down => Program(w) == Program(v) && Index(w) == if i < n then i + 1 else n
      case Rewind =>
        if n == 0 then w == v
        else Program(w) == Program(v)[..n - 1] && Index(w) == if i < n then i else n - 1
      case _ => Program(w) == Program(v) && Index(w) == i
  {
    StepKeepsGood(v, cmd);
    BeforeIsPrefix(v);
    var w := Step(v, cmd).state;
    match cmd
    case Up =>
      if v.start < v.cursor {
        UpStep(v);
        OneFurther(v.mem, v.start, w.cursor);
      }
    case Down =>
      if v.cursor < v.end {
        StepInside(v.mem, v.start, v.cursor, v.end);
        OneFurther(v.mem, v.start, v.cursor);
      }
    case Rewind =>
      if v.start < v.end {
        RewindRemoves(v);
        RewindIndex(v);
      }
    case _ =>
  }

  lemma RewindIndex(v: State)
    requires Good(v) && v.start < v.end
    ensures Step(v, Rewind).Ready? && Good(Step(v, Rewind).state)
    ensures Index(Step(v, Rewind).state) == if v.cursor < v.end then Index(v) else Index(v) - 1
  {
    RewindStep(v);
    RewoundIndex(v, Previous(v.mem, v.start, v.end));
  }

  lemma RewoundIndex(v: State, end: nat)
    requires Good(v) && v.start < v.end && end == Previous(v.mem, v.start, v.end)
    ensures Good(Rewound(v, end))
    ensures Index(Rewound(v, end)) == if v.cursor < v.end then Index(v) else Index(v) - 1
  {
    if v.cursor < v.end {
      StepInside(v.mem, v.start, v.cursor, v.end);
      if end < v.cursor {
        StepInside(v.mem, v.start, end, v.cursor);
      }
    } else {
      OneFurther(v.mem, v.start, end);
    }
  }

  /** Typing in a program. */
  function Typed(specs: seq<Spec>): (cmds: seq<Command>)
    ensures |cmds| == |specs|
  {
    seq(|specs|, i requires 0 <= i < |specs| => Assembles(specs[i]))
  }

  predicate ShowsAll(shown: seq<DisResult>, width: Width, specs: seq<Spec>) {
    |shown| == |specs| && forall i :: 0 <= i < |specs| ==> Shows(shown[i], width, specs[i])
  }

  lemma ShowsFirst(d: DisResult, rest: seq<DisResult>, width: Width, specs: seq<Spec>)
    requires specs != [] && Shows(d, width, specs[0]) && ShowsAll(rest, width, specs[1..])
    ensures ShowsAll([d] + rest, width, specs)
  {
    forall i | 0 <= i < |specs| ensures Shows(([d] + rest)[i], width, specs[i]) {
      if i > 0 {
        assert ([d] + rest)[i] == rest[i - 1] && specs[i] == specs[1..][i - 1];
      }
    }
  }

  predicate Accepted(width: Width, s: Spec) {
    Assemble(s.(width := width)).Success()
  }

  /** Those of some instructions that assemble, in order. */
  function AcceptedOf(width: Width, specs: seq<Spec>): seq<Spec> {
    if specs == [] then []
    else if Accepted(width, specs[0]) then [specs[0]] + AcceptedOf(width, specs[1..])
    else AcceptedOf(width, specs[1..])
  }

  lemma TypedRest(specs: seq<Spec>)
    requires specs != []
    ensures Typed(specs)[0] == Assembles(specs[0]) && Typed(specs)[1..] == Typed(specs[1..])
  {
  }

  /** Typing in instructions appends those that assemble, in order, and the others leave nothing. The
      listing shows each with its meaning if and only if it was faithful. */
  lemma {:induction false} TypedProgram(v: State, specs: seq<Spec>) returns (shown: seq<DisResult>)
    requires Good(v) && v.cursor == v.end && RoomFor(v, |specs|)
    ensures Run(v, Typed(specs)).Ready? && Good(Run(v, Typed(specs)).state)
    ensures Program(Run(v, Typed(specs)).state) == Program(v) + shown
    ensures ShowsAll(shown, v.width, AcceptedOf(v.width, specs))
    decreases |specs|
  {
    shown := [];
    if specs != [] {
      TypedRest(specs);
      if Accepted(v.width, specs[0]) {
        var w, d := TypedOne(v, specs[0], |specs| - 1);
        var rest := TypedProgram(w, specs[1..]);
        RunFirst(v, Assembles(specs[0]), w, Typed(specs));
        shown := [d] + rest;
        Regroup(Program(v), d, rest);
        ShowsFirst(d, rest, v.width, [specs[0]] + AcceptedOf(v.width, specs[1..]));
      } else {
        RefusedOne(v, specs[0], |specs| - 1);
        shown := TypedProgram(v, specs[1..]);
        RunFirst(v, Assembles(specs[0]), v, Typed(specs));
      }
    }
  }

  lemma RefusedOne(v: State, s: Spec, left: nat)
    requires RoomFor(v, left + 1) && !Accepted(v.width, s)
    ensures Room(v, Assembles(s)) && Step(v, Assembles(s)) == Ready(v)
  {
    FailureKeeps(v, Result(v, Assembles(s)));
  }

  /** A width and then a program typed in: those instructions are listed that assemble in that width,
      each with its meaning if and only if it was faithful in that width. */
  lemma WidthThenProgram(v: State, w: Width, specs: seq<Spec>) returns (shown: seq<DisResult>)
    requires Good(v) && v.cursor == v.end && RoomFor(v, 1 + |specs|)
    ensures Run(v, [SpecifyWidth(w)] + Typed(specs)).Ready? && Good(Run(v, [SpecifyWidth(w)] + Typed(specs)).state)
    ensures Program(Run(v, [SpecifyWidth(w)] + Typed(specs)).state) == Program(v) + shown
    ensures ShowsAll(shown, w, AcceptedOf(w, specs))
  {
    var cmds := [SpecifyWidth(w)] + Typed(specs);
    assert cmds[1..] == Typed(specs);
    shown := TypedProgram(v.(width := w), specs);
    RunFirst(v, SpecifyWidth(w), v.(width := w), cmds);
  }

  lemma Regroup<T>(a: seq<T>, x: T, b: seq<T>)
    ensures (a + [x]) + b == a + ([x] + b)
  {
  }

  lemma RunFirst(v: State, cmd: Command, w: State, cmds: seq<Command>)
    requires RoomFor(v, |cmds|) && cmds != [] && cmds[0] == cmd && Room(v, cmd) && Step(v, cmd) == Ready(w)
    ensures RoomFor(w, |cmds| - 1) && Run(v, cmds) == Run(w, cmds[1..])
  {
    StepFits(v, cmd, |cmds| - 1);
  }

  lemma TypedOne(v: State, s: Spec, left: nat) returns (w: State, d: DisResult)
    requires Good(v) && v.cursor == v.end && RoomFor(v, left + 1) && Accepted(v.width, s)
    ensures Room(v, Assembles(s)) && Step(v, Assembles(s)) == Ready(w) && RoomFor(w, left)
    ensures Good(w) && w.cursor == w.end && w.width == v.width
    ensures Program(w) == Program(v) + [d] && Shows(d, v.width, s)
  {
    StepFits(v, Assembles(s), left);
    AppendAdds(v, Assembles(s));
    w := Step(v, Assembles(s)).state;
    d := At(w.mem, v.cursor);
  }
}
