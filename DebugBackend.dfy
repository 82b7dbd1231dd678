/** `CDebugBackend` as a class: the breakpoint table, the hit marker, the
    command slot and the running flag are fields that the member functions
    update in place, and the traced child is a field holding what ptrace
    sees of it.  Every method is proved to make exactly the state change
    of its namesake in BackendModel, so the lemmas proved there about the
    engine value hold of the object. */
module Backend {
  import opened DebugTypes
  import T = Tracee
  import BM = BackendModel

  class DebugBackend {
    /** The child process as `PTRACE_*` requests see it (`mChildPid`). */
    var tracee: T.Tracee
    /** `mBreakpoints` */
    var breakpoints: seq<Breakpoint>
    /** `mBreakpointHit` */
    var breakpointHit: BM.HitIndex
    /** `mCommand` */
    var command: DebugCommand
    /** `mRunning` */
    var running: bool
    /** Where the child stops next when it is resumed. */
    const exec: T.ExecOracle

    function State(): BM.Engine
      reads this
    {
      BM.Engine(tracee, breakpoints, breakpointHit, command, running)
    }

    /** The constructor: an empty table, no hit, a zeroed command slot
        (`DEBUG_CMD_UNKNOWN`) and not running. */
    constructor(child: T.Tracee, exec: T.ExecOracle)
      ensures State() == BM.Engine(child, [], -1, Unknown, false)
      ensures this.exec == exec
    {
      tracee := child;
      breakpoints := [];
      breakpointHit := -1;
      command := Unknown;
      running := false;
      this.exec := exec;
    }

    // ------------------------------------------------------------ ptrace

    /** `GetData`: the peeked word, and whether errno stayed 0; a failed
        peek returns -1 as a u64. */
    method GetData(a: u64) returns (data: u64, ok: bool)
      ensures ok <==> T.WordAccessible(tracee, a)
      ensures ok ==> T.Peek(tracee, a) == Some(data)
      ensures !ok ==> data == U64_MAX
    {
      match T.Peek(tracee, a)
      case None =>
        data, ok := U64_MAX, false;
      case Some(w) =>
        data, ok := w, true;
    }

    /** `SetData`: `PTRACE_POKEDATA`. */
    method SetData(a: u64, v: u64)
      modifies this
      ensures State() == old(State()).(tracee := T.Poke(old(tracee), a, v))
    {
      tracee := T.Poke(tracee, a, v);
    }

    method GetRegister(r: Register) returns (v: u64)
      ensures v == T.GetRegister(tracee, r)
    {
      if tracee.traced {
        v := tracee.registers[r];
      } else {
        v := 0;
      }
    }

    method SetRegister(r: Register, v: u64) returns (ok: bool)
      modifies this
      ensures (tracee, ok) == T.SetRegister(old(tracee), r, v)
      ensures State() == old(State()).(tracee := tracee)
    {
      if !tracee.traced {
        ok := false;
      } else {
        var regs := tracee.registers;
        regs := regs[r := v];
        tracee := tracee.(registers := regs);
        ok := true;
      }
    }

    /** `PTRACE_CONT` or `PTRACE_SINGLESTEP` and the `waitpid` that follows. */
    method Resume(how: T.Resume)
      modifies this
      ensures State() == old(State()).(tracee := T.ResumeUntilStop(old(tracee), how, exec))
    {
      tracee := T.ResumeUntilStop(tracee, how, exec);
    }

    // ------------------------------------------------------------- table

    method AddBreakpoint(a: u64)
      modifies this
      ensures State() == BM.AddBreakpoint(old(State()), a)
    {
      var data, ok := GetData(a);
      if ok {
        var bp := Breakpoint(a, SavedByteOf(data), true);
        SetData(a, T.WithLowByte(data, SW_INTERRUPT_3));
        breakpoints := breakpoints + [bp];
      }
    }

    method DeleteBreakpoint(i: u64)
      requires i < |breakpoints|
      modifies this
      ensures State() == BM.DeleteBreakpoint(old(State()), i)
    {
      var data, _ := GetData(breakpoints[i].address);
      SetData(breakpoints[i].address, T.WithLowByte(data, breakpoints[i].savedData));
      if breakpointHit == i {
        breakpointHit := -1;
      } else if breakpointHit != -1 && i < breakpointHit {
        breakpointHit := breakpointHit - 1;
      }
      breakpoints := breakpoints[..i] + breakpoints[i + 1..];
    }

    method EnableBreakpoint(i: u64)
      requires i < |breakpoints|
      modifies this
      ensures State() == BM.EnableBreakpoint(old(State()), i)
    {
      if !breakpoints[i].enabled {
        var data, _ := GetData(breakpoints[i].address);
        SetData(breakpoints[i].address, T.WithLowByte(data, SW_INTERRUPT_3));
        breakpoints := breakpoints[i := breakpoints[i].(enabled := true)];
      }
    }

    method DisableBreakpoint(i: u64)
      requires i < |breakpoints|
      modifies this
      ensures State() == BM.DisableBreakpoint(old(State()), i)
    {
      if breakpoints[i].enabled {
        var data, _ := GetData(breakpoints[i].address);
        SetData(breakpoints[i].address, T.WithLowByte(data, breakpoints[i].savedData));
        breakpoints := breakpoints[i := breakpoints[i].(enabled := false)];
      }
    }

    /** The loop over the table; the first entry at `rip - 1` wins. */
    method CheckBreakpoints() returns (k: int)
      requires |breakpoints| < 0x8000_0000
      modifies this
      ensures (State(), k) == BM.CheckBreakpoints(old(State()))
    {
      var ip := GetRegister(REGISTER_RIP);
      var rip := SubWrap(ip, 1);
      var i := 0;
      while i < |breakpoints|
        invariant 0 <= i <= |breakpoints|
        invariant State() == old(State())
        invariant forall j :: 0 <= j < i ==> breakpoints[j].address != rip
      {
        if breakpoints[i].address == rip {
          breakpointHit := i;
          var _ := SetRegister(REGISTER_RIP, rip);
          assert BM.FindAddress(old(breakpoints), rip) == i;
          return i;
        }
        i := i + 1;
      }
      assert BM.FindAddress(breakpoints, rip) == -1;
      return -1;
    }

    /** `Wait`, reduced to its breakpoint check. */
    method Wait()
      requires |breakpoints| < 0x8000_0000
      modifies this
      ensures State() == BM.CheckBreakpoints(old(State())).0
    {
      var bp := CheckBreakpoints();
    }

    // --------------------------------------------------------- execution

    method Continue()
      requires |breakpoints| < 0x8000_0000 && BM.HitValid(State())
      modifies this
      ensures State() == BM.Continue(old(State()), exec)
    {
      if breakpointHit != -1 {
        StepOverBreakpoint();
      }
      Resume(T.Cont);
      Wait();
    }

    method StepSingle()
      requires |breakpoints| < 0x8000_0000 && BM.HitValid(State())
      modifies this
      ensures State() == BM.StepSingle(old(State()), exec)
      decreases if breakpointHit == -1 then 0 else 2
    {
      if breakpointHit != -1 {
        StepOverBreakpoint();
      }
      Resume(T.SingleStep);
      Wait();
    }

    method StepOverBreakpoint()
      requires |breakpoints| < 0x8000_0000 && 0 <= breakpointHit < |breakpoints|
      modifies this
      ensures State() == BM.StepOverBreakpoint(old(State()), exec)
      decreases 1
    {
      var bp := breakpointHit;
      var data, _ := GetData(breakpoints[bp].address);
      SetData(breakpoints[bp].address, T.WithLowByte(data, breakpoints[bp].savedData));
      breakpointHit := -1;
      StepSingle();
      if breakpoints[bp].enabled {
        var data2, _ := GetData(breakpoints[bp].address);
        SetData(breakpoints[bp].address, T.WithLowByte(data2, SW_INTERRUPT_3));
      }
    }

    // ---------------------------------------------------------- commands

    /** `SetCommand`, without the thread join and the mutex. */
    method SetCommand(c: DebugCommand)
      modifies this
      ensures State() == BM.SetCommand(old(State()), c)
    {
      command := c;
      if command.Quit? {
        running := false;
        command := Processed;
      }
    }

    /** `GetCommand`: the kind of the pending command. */
    method GetCommand() returns (k: CommandKind)
      ensures k == command.Kind()
    {
      k := command.Kind();
    }

    method RunCommand() returns (out: BM.Output)
      requires |breakpoints| < 0x8000_0000 - 1
      requires BM.HitValid(State()) && BM.CommandArgumentsValid(State())
      modifies this
      ensures (State(), out) == BM.RunCommand(old(State()), exec)
    {
      out := BM.NoOutput;
      match command {
      case Continue =>
        Continue();
      case StepSingle =>
        StepSingle();
      case ListBreakpoints =>
        out := BM.Listing(breakpoints);
      case SetBreakpoint(a) =>
        AddBreakpoint(a);
      case DeleteBreakpoint(i) =>
        DeleteBreakpoint(i);
      case EnableBreakpoint(i) =>
        EnableBreakpoint(i);
      case DisableBreakpoint(i) =>
        DisableBreakpoint(i);
      case RegisterRead(r) =>
        var v := GetRegister(r);
        out := BM.RegisterValue(r, v);
      case RegisterWrite(r, v) =>
        if r == REGISTER_RIP {
          breakpointHit := -1;
        }
        var _ := SetRegister(r, v);
        out := BM.RegisterWritten(r, v);
      case _ =>
      }
      command := Processed;
    }
  }
}
