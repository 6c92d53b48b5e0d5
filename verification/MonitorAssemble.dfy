// The command loop of monitor_assemble, changing memory and its own variables step by step.

module MonitorAssemble {
  import opened ThumbAsm
  import opened ThumbMemory
  import opened InstructionStream
  import opened Editor

  class Session {
    const code: array<bv16>
    var startingAddr: nat
    var addr: nat
    var endAddr: nat
    var section: Section
    var widthSpecifier: Width

    ghost function View(): State
      reads this, code
    {
      State(code[..], startingAddr, addr, endAddr, section, widthSpecifier)
    }

    constructor (memory: array<bv16>, address: nat, base: nat, memorySection: Section)
      requires memorySection.NoSection? ==> address <= memory.Length
      requires memorySection.Section? ==> base + memorySection.size <= memory.Length
      ensures code == memory && View() == Enter(memory[..], address, base, memorySection) && Shape(View())
    {
      code := memory;
      startingAddr, addr, endAddr := address, address, address;
      section := memorySection;
      widthSpecifier := AUTO;
      new;
      if section.Section? {
        startingAddr := base;
        endAddr := base + section.size;
        if addr < startingAddr {
          addr := startingAddr;
        } else if addr > endAddr {
          addr := endAddr;
        }
      }
    }

    /** The check at the top of the loop. */
    method TopOfLoop()
      requires startingAddr <= addr
      modifies this`endAddr, this`section
      ensures View() == Settle(old(View()))
    {
      if addr > endAddr {
        endAddr := addr;
        if section.Section? {
          section := Section(endAddr - startingAddr);
        }
      }
    }

    method AssembleAndShowResult(s: Spec) returns (result: AsmResult)
      requires s.width == widthSpecifier
      requires Fits(View(), Assemble(s))
      modifies this`addr, code
      ensures result == Assemble(s)
      ensures View() == AfterAssembly(old(View()), result)
    {
      result := ThumbAssemble(s, code, addr);
      if result.Success() {
        addr := Increment(addr);
      }
    }

    /** thumb_ins_ptr_increment */
    method Increment(at: nat) returns (next: nat)
      ensures next == Next(code[..], at)
    {
      next := if at < code.Length && IsWide(code[at]) then at + 2 else at + 1;
    }

    /** One command and the way to the next prompt. The searches end because Step is ready. */
    method Do(cmd: Command)
      requires Shape(View()) && Room(View(), cmd) && Step(View(), cmd).Ready?
      modifies this, code
      ensures View() == Step(old(View()), cmd).state
    {
      match cmd {
        case Assembles(spec) =>
          var _ := AssembleAndShowResult(spec.(width := widthSpecifier));
          assert View() == AfterAssembly(old(View()), Result(old(View()), cmd));
        case SpecifyWidth(w) => widthSpecifier := w;
        case ToStart => addr := startingAddr;
        case ToEnd => addr := endAddr;
        case Up =>
          if addr > startingAddr {
            addr := PreviousThumbInstruction(code, startingAddr, addr);
          }
        case Down =>
          if addr < endAddr {
            addr := Increment(addr);
          }
        case Rewind =>
          if endAddr > startingAddr {
            endAddr := PreviousThumbInstruction(code, startingAddr, endAddr);
            if addr > endAddr {
              addr := endAddr;
            }
          }
        case Other =>
      }
      TopOfLoop();
    }

    /** A whole session: every search ends and the invariant holds at the last prompt. */
    method Edit(cmds: seq<Command>)
      requires Good(View()) && RoomFor(View(), |cmds|) && AllKeep(View(), cmds)
      modifies this, code
      ensures Good(View()) && Run(old(View()), cmds) == Ready(View())
    {
      EveryRun(View(), cmds);
      GoodRunEnds(View(), cmds);
      var i := 0;
      while i < |cmds|
        invariant 0 <= i <= |cmds|
        invariant RoomFor(View(), |cmds| - i) && AllGood(View(), cmds[i..])
        invariant Run(View(), cmds[i..]) == Run(old(View()), cmds)
      {
        ghost var rest := cmds[i..];
        assert rest[0] == cmds[i] && rest[1..] == cmds[i + 1..];
        StepFits(View(), cmds[i], |rest| - 1);
        Do(cmds[i]);
        i := i + 1;
      }
    }
  }
}
