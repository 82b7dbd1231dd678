/** The breakpoint engine of `CDebugBackend` as functions of an engine
    value: each function is the state change one member function makes.
    The class in DebugBackend.dfy is proved to perform exactly these
    changes; the lemmas here state what the changes mean. */
module BackendModel {
  import opened DebugTypes
  import opened Tracee

  /** `mBreakpointHit` is an s32 that is -1 or an index into the table. */
  type HitIndex = x: int | -1 <= x < 0x8000_0000

  /** The fields of `CDebugBackend` this model keeps, with the tracee. */
  datatype Engine = Engine(
    tracee: Tracee,
    breakpoints: seq<Breakpoint>,
    hit: HitIndex,
    command: DebugCommand,
    running: bool)

  predicate HitValid(e: Engine) {
    e.hit == -1 || e.hit < |e.breakpoints|
  }

  function Addresses(bps: seq<Breakpoint>): (s: set<u64>)
    ensures forall j :: 0 <= j < |bps| ==> bps[j].address in s
    ensures forall x :: x in s ==> exists j :: 0 <= j < |bps| && bps[j].address == x
  {
    set j | 0 <= j < |bps| :: bps[j].address
  }

  predicate DistinctAddresses(bps: seq<Breakpoint>) {
    forall j, k :: 0 <= j < k < |bps| ==> bps[j].address != bps[k].address
  }

  /** The byte a breakpoint should leave resident at its address. */
  function ExpectedByte(bp: Breakpoint): u8 {
    if bp.enabled then SW_INTERRUPT_3 else bp.savedData
  }

  predicate ResidentAt(t: Tracee, bp: Breakpoint) {
    WordAccessible(t, bp.address) && t.memory[bp.address] == ExpectedByte(bp)
  }

  /** The invariant of the table: addresses are distinct (the code does not
      enforce it), and each entry's word is accessible and holds the trap
      byte when enabled and the saved byte when disabled. */
  predicate Consistent(e: Engine) {
    e.tracee.traced && HitValid(e) && DistinctAddresses(e.breakpoints) &&
    forall j :: 0 <= j < |e.breakpoints| ==> ResidentAt(e.tracee, e.breakpoints[j])
  }

  // ---------------------------------------------------------------- table

  /** `AddBreakpoint`: peek the word; on success remember its low byte,
      poke it back with the trap byte as low byte and append the entry. */
  function AddBreakpoint(e: Engine, a: u64): (r: Engine)
    ensures WordAccessible(e.tracee, a) ==>
      r == e.(tracee := e.tracee.(memory := e.tracee.memory[a := SW_INTERRUPT_3]),
               breakpoints := e.breakpoints + [Breakpoint(a, e.tracee.memory[a], true)])
    ensures !WordAccessible(e.tracee, a) ==> r == e
  {
    match Peek(e.tracee, a)
    case None => e
    case Some(w) =>
      PatchByteFrame(e.tracee, a, SW_INTERRUPT_3);
      e.(tracee := Poke(e.tracee, a, WithLowByte(w, SW_INTERRUPT_3)),
         breakpoints := e.breakpoints + [Breakpoint(a, SavedByteOf(w), true)])
  }

  /** The renumbering of `mBreakpointHit` when entry `i` is erased. */
  function HitAfterDelete(hit: HitIndex, i: nat): (h: HitIndex)
    ensures hit == i ==> h == -1
    ensures hit != -1 && i < hit ==> h == hit - 1
    ensures (hit == -1 || hit < i) ==> h == hit
  {
    if hit == i then -1
    else if hit != -1 && i < hit then hit - 1
    else hit
  }

  /** `DeleteBreakpoint`: restore the saved byte, renumber the hit marker,
      erase entry `i`. */
  function DeleteBreakpoint(e: Engine, i: nat): (r: Engine)
    requires i < |e.breakpoints|
    ensures r.breakpoints == e.breakpoints[..i] + e.breakpoints[i + 1..]
    ensures r.hit == HitAfterDelete(e.hit, i)
    ensures HitValid(e) ==> HitValid(r)
    ensures r.tracee.memory ==
      if WordAccessible(e.tracee, e.breakpoints[i].address)
      then e.tracee.memory[e.breakpoints[i].address := e.breakpoints[i].savedData]
      else e.tracee.memory
    ensures r.tracee.registers == e.tracee.registers && r.tracee.traced == e.tracee.traced
    ensures r.command == e.command && r.running == e.running
  {
    var bp := e.breakpoints[i];
    PatchByteFrame(e.tracee, bp.address, bp.savedData);
    e.(tracee := PatchByte(e.tracee, bp.address, bp.savedData),
       hit := HitAfterDelete(e.hit, i),
       breakpoints := e.breakpoints[..i] + e.breakpoints[i + 1..])
  }

  /** `EnableBreakpoint`: a no-op on an enabled entry. */
  function EnableBreakpoint(e: Engine, i: nat): (r: Engine)
    requires i < |e.breakpoints|
    ensures e.breakpoints[i].enabled ==> r == e
    ensures !e.breakpoints[i].enabled ==>
      r.breakpoints == e.breakpoints[i := e.breakpoints[i].(enabled := true)] &&
      r.tracee.memory == (if WordAccessible(e.tracee, e.breakpoints[i].address)
                          then e.tracee.memory[e.breakpoints[i].address := SW_INTERRUPT_3]
                          else e.tracee.memory)
    ensures r.hit == e.hit && r.tracee.registers == e.tracee.registers && r.tracee.traced == e.tracee.traced
  {
    var bp := e.breakpoints[i];
    if bp.enabled then e
    else
      PatchByteFrame(e.tracee, bp.address, SW_INTERRUPT_3);
      e.(tracee := PatchByte(e.tracee, bp.address, SW_INTERRUPT_3),
         breakpoints := e.breakpoints[i := bp.(enabled := true)])
  }

  /** `DisableBreakpoint`: a no-op on a disabled entry. */
  function DisableBreakpoint(e: Engine, i: nat): (r: Engine)
    requires i < |e.breakpoints|
    ensures !e.breakpoints[i].enabled ==> r == e
    ensures e.breakpoints[i].enabled ==>
      r.breakpoints == e.breakpoints[i := e.breakpoints[i].(enabled := false)] &&
      r.tracee.memory == (if WordAccessible(e.tracee, e.breakpoints[i].address)
                          then e.tracee.memory[e.breakpoints[i].address := e.breakpoints[i].savedData]
                          else e.tracee.memory)
    ensures r.hit == e.hit && r.tracee.registers == e.tracee.registers && r.tracee.traced == e.tracee.traced
  {
    var bp := e.breakpoints[i];
    if !bp.enabled then e
    else
      PatchByteFrame(e.tracee, bp.address, bp.savedData);
      e.(tracee := PatchByte(e.tracee, bp.address, bp.savedData),
         breakpoints := e.breakpoints[i := bp.(enabled := false)])
  }

  /** The index of the first entry at address `a`, or -1. */
  function FindAddress(bps: seq<Breakpoint>, a: u64): (k: int)
    ensures -1 <= k < |bps|
    ensures k >= 0 ==> bps[k].address == a
    ensures forall j :: 0 <= j < |bps| && (k == -1 || j < k) ==> bps[j].address != a
  {
    if bps == [] then -1
    else if bps[0].address == a then 0
    else
      var k := FindAddress(bps[1..], a);
      if k == -1 then -1 else k + 1
  }

  /** `CheckBreakpoints`: the instruction pointer minus one (in u64
      arithmetic) is compared with every entry; on the first match the
      engine records the hit, rewinds `rip` to the entry's address and
      returns the index; otherwise it returns -1 and changes nothing. */
  function CheckBreakpoints(e: Engine): (res: (Engine, int))
    requires |e.breakpoints| < 0x8000_0000
    ensures -1 <= res.1 < |e.breakpoints|
    ensures res.1 == -1 ==> res.0 == e
    ensures res.1 == -1 ==> forall j :: 0 <= j < |e.breakpoints| ==>
      e.breakpoints[j].address != SubWrap(GetRegister(e.tracee, REGISTER_RIP), 1)
    ensures res.1 >= 0 ==>
      var bp := e.breakpoints[res.1];
      bp.address == SubWrap(GetRegister(e.tracee, REGISTER_RIP), 1) &&
      (forall j :: 0 <= j < res.1 ==> e.breakpoints[j].address != bp.address) &&
      res.0.hit == res.1 &&
      res.0.breakpoints == e.breakpoints && res.0.tracee.memory == e.tracee.memory &&
      (e.tracee.traced ==> res.0.tracee.registers == e.tracee.registers[REGISTER_RIP := bp.address]) &&
      (!e.tracee.traced ==> res.0.tracee == e.tracee)
  {
    var rip := SubWrap(GetRegister(e.tracee, REGISTER_RIP), 1);
    var i := FindAddress(e.breakpoints, rip);
    if i == -1 then (e, -1)
    else (e.(hit := i, tracee := SetRegister(e.tracee, REGISTER_RIP, rip).0), i)
  }

  // ------------------------------------------------------------ execution

  /** Resume the tracee, wait for its next stop, check for a breakpoint hit
      (`PTRACE_CONT`/`PTRACE_SINGLESTEP` followed by `Wait`). */
  function ResumeAndWait(e: Engine, how: Resume, exec: ExecOracle): (r: Engine)
    requires |e.breakpoints| < 0x8000_0000
    requires HitValid(e)
    ensures HitValid(r)
    ensures r.breakpoints == e.breakpoints && r.tracee.memory == e.tracee.memory
    ensures r.command == e.command && r.running == e.running
    ensures r.tracee.traced ==> e.tracee.traced
  {
    CheckBreakpoints(e.(tracee := ResumeUntilStop(e.tracee, how, exec))).0
  }

  /** `StepSingle`: a pending hit is stepped over first, and then -- there
      is no `else` -- one more single step is taken. */
  function StepSingle(e: Engine, exec: ExecOracle): (r: Engine)
    requires |e.breakpoints| < 0x8000_0000
    requires HitValid(e)
    ensures HitValid(r)
    ensures r.breakpoints == e.breakpoints
    ensures r.command == e.command && r.running == e.running
    ensures r.tracee.traced ==> e.tracee.traced
    ensures e.hit == -1 ==> r.tracee.memory == e.tracee.memory
    decreases if e.hit == -1 then 0 else 2
  {
    var e1 := if e.hit != -1 then StepOverBreakpoint(e, exec) else e;
    ResumeAndWait(e1, SingleStep, exec)
  }

  /** `StepOverBreakpoint`: restore the hit entry's saved byte, clear the
      hit marker, single-step (the nested step sees no hit), then write the
      trap byte back at the same address -- here only while the entry is
      still enabled; `StepOverAsWritten` is the code as written, which
      writes it back unconditionally. */
  function StepOverBreakpoint(e: Engine, exec: ExecOracle): (r: Engine)
    requires |e.breakpoints| < 0x8000_0000
    requires 0 <= e.hit < |e.breakpoints|
    ensures HitValid(r)
    ensures r.breakpoints == e.breakpoints
    ensures r.command == e.command && r.running == e.running
    ensures r.tracee.traced ==> e.tracee.traced
    ensures var a := e.breakpoints[e.hit].address;
      r.tracee.memory ==
        if !WordAccessible(e.tracee, a) then e.tracee.memory
        else if r.tracee.traced && e.breakpoints[e.hit].enabled then e.tracee.memory[a := SW_INTERRUPT_3]
        else e.tracee.memory[a := e.breakpoints[e.hit].savedData]
    decreases 1
  {
    var bp := e.hit;
    var a := e.breakpoints[bp].address;
    var e1 := e.(tracee := PatchByte(e.tracee, a, e.breakpoints[bp].savedData), hit := -1);
    PatchByteFrame(e.tracee, a, e.breakpoints[bp].savedData);
    PatchKeepsAccessible(e.tracee, a, e.breakpoints[bp].savedData, a);
    var e2 := StepSingle(e1, exec);
    PatchByteFrame(e2.tracee, a, SW_INTERRUPT_3);
    AccessibleAgain(e1.tracee, e2.tracee, a);
    if e2.breakpoints[bp].enabled then
      e2.(tracee := PatchByte(e2.tracee, e2.breakpoints[bp].address, SW_INTERRUPT_3))
    else e2
  }

  /** `StepOverBreakpoint` as written: the trap byte is written back whether
      or not the entry is enabled. */
  function StepOverAsWritten(e: Engine, exec: ExecOracle): (r: Engine)
    requires |e.breakpoints| < 0x8000_0000
    requires 0 <= e.hit < |e.breakpoints|
    ensures HitValid(r)
    ensures r.breakpoints == e.breakpoints
    ensures var a := e.breakpoints[e.hit].address;
      r.tracee.memory ==
        if !WordAccessible(e.tracee, a) then e.tracee.memory
        else if r.tracee.traced then e.tracee.memory[a := SW_INTERRUPT_3]
        else e.tracee.memory[a := e.breakpoints[e.hit].savedData]
  {
    var bp := e.hit;
    var a := e.breakpoints[bp].address;
    var e1 := e.(tracee := PatchByte(e.tracee, a, e.breakpoints[bp].savedData), hit := -1);
    PatchByteFrame(e.tracee, a, e.breakpoints[bp].savedData);
    PatchKeepsAccessible(e.tracee, a, e.breakpoints[bp].savedData, a);
    var e2 := StepSingle(e1, exec);
    PatchByteFrame(e2.tracee, a, SW_INTERRUPT_3);
    AccessibleAgain(e1.tracee, e2.tracee, a);
    e2.(tracee := PatchByte(e2.tracee, e2.breakpoints[bp].address, SW_INTERRUPT_3))
  }

  /** With the same memory, a still-traced tracee can access the same words. */
  lemma AccessibleAgain(t1: Tracee, t2: Tracee, a: u64)
    requires t2.memory == t1.memory && (t2.traced ==> t1.traced)
    ensures WordAccessible(t2, a) <==> t2.traced && WordAccessible(t1, a)
  {
  }

  /** `Continue`: step over a pending hit, then `PTRACE_CONT` and `Wait`. */
  function Continue(e: Engine, exec: ExecOracle): (r: Engine)
    requires |e.breakpoints| < 0x8000_0000
    requires HitValid(e)
    ensures HitValid(r)
    ensures r.breakpoints == e.breakpoints
    ensures r.command == e.command && r.running == e.running
    ensures r.tracee.traced ==> e.tracee.traced
  {
    var e1 := if e.hit != -1 then StepOverBreakpoint(e, exec) else e;
    ResumeAndWait(e1, Cont, exec)
  }

  // ------------------------------------------------------------- commands

  /** What `RunCommand` prints, as values instead of format strings. */
  datatype Output =
    | NoOutput
    | Listing(entries: seq<Breakpoint>)
    | RegisterValue(register: Register, value: u64)
    | RegisterWritten(register: Register, value: u64)

  /** What `RunCommand` asserts (or indexes) about the pending command. */
  predicate CommandArgumentsValid(e: Engine) {
    match e.command
    case DeleteBreakpoint(i) => i < |e.breakpoints|
    case EnableBreakpoint(i) => i < |e.breakpoints|
    case DisableBreakpoint(i) => i < |e.breakpoints|
    case RegisterRead(r) => r < REGISTER_COUNT
    case RegisterWrite(r, _) => r < REGISTER_COUNT
    case _ => true
  }

  /** The effect of one command, before the slot is marked processed. */
  function Dispatch(e: Engine, exec: ExecOracle): (res: (Engine, Output))
    requires |e.breakpoints| < 0x8000_0000 - 1
    requires HitValid(e) && CommandArgumentsValid(e)
    ensures HitValid(res.0)
  {
    match e.command
    case Continue => (Continue(e, exec), NoOutput)
    case StepSingle => (StepSingle(e, exec), NoOutput)
    case ListBreakpoints => (e, Listing(e.breakpoints))
    case SetBreakpoint(a) => (AddBreakpoint(e, a), NoOutput)
    case DeleteBreakpoint(i) => (DeleteBreakpoint(e, i), NoOutput)
    case EnableBreakpoint(i) => (EnableBreakpoint(e, i), NoOutput)
    case DisableBreakpoint(i) => (DisableBreakpoint(e, i), NoOutput)
    case RegisterRead(r) => (e, RegisterValue(r, GetRegister(e.tracee, r)))
    case RegisterWrite(r, v) =>
      var e1 := if r == REGISTER_RIP then e.(hit := -1) else e;
      (e1.(tracee := SetRegister(e1.tracee, r, v).0), RegisterWritten(r, v))
    case _ => (e, NoOutput)
  }

  /** `RunCommand`: dispatch, then set the slot to `DEBUG_CMD_PROCESSED`. */
  function RunCommand(e: Engine, exec: ExecOracle): (res: (Engine, Output))
    requires |e.breakpoints| < 0x8000_0000 - 1
    requires HitValid(e) && CommandArgumentsValid(e)
    ensures res.0.command == Processed && HitValid(res.0)
    ensures e.command.RegisterWrite? && e.command.register == REGISTER_RIP ==> res.0.hit == -1
    ensures res.0.running == e.running
  {
    var (e1, out) := Dispatch(e, exec);
    (e1.(command := Processed), out)
  }

  /** `SetCommand`, slot update only: a quit request stops the engine loop
      and is marked processed at once. */
  function SetCommand(e: Engine, c: DebugCommand): (r: Engine)
    ensures r.command == (if c.Quit? then Processed else c)
    ensures r.running == (e.running && !c.Quit?)
    ensures r.tracee == e.tracee && r.breakpoints == e.breakpoints && r.hit == e.hit
  {
    if c.Quit? then e.(command := Processed, running := false)
    else e.(command := c)
  }
}
