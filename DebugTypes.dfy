/** Fixed-width integers, constants, the debug command union, the register
    layout and the breakpoint record shared by the debugger back end. */
module DebugTypes {

  type u8 = x: int | 0 <= x < 0x100
  type u32 = x: int | 0 <= x < 0x1_0000_0000
  type u64 = x: int | 0 <= x < 0x1_0000_0000_0000_0000

  const U64_MAX: u64 := 0xFFFF_FFFF_FFFF_FFFF

  /** The x86 `int3` opcode written over the first byte of an instruction. */
  const SW_INTERRUPT_3: u8 := 0xcc
  const MAX_COMMAND: int := 1024

  /** Unsigned 64-bit subtraction as the C++ code performs it on `u64`. */
  function SubWrap(a: u64, b: u64): (r: u64)
    ensures (r + b) % 0x1_0000_0000_0000_0000 == a
    ensures a >= b ==> r == a - b
  {
    (a - b) % 0x1_0000_0000_0000_0000
  }

  /** The kinds of `eDebugCommand`, in declaration order. */
  datatype CommandKind =
    | CmdUnknown | CmdContinue | CmdSetBreakpoint | CmdDeleteBreakpoint
    | CmdEnableBreakpoint | CmdDisableBreakpoint | CmdListBreakpoints
    | CmdStepOver | CmdStepInto | CmdStepSingle | CmdRegisterRead
    | CmdRegisterWrite | CmdRun | CmdQuit | CmdProcessed

  /** The enumerator value of each kind (`DEBUG_CMD_COUNT` is 15). */
  function KindOrdinal(k: CommandKind): (n: nat)
    ensures n < 15
  {
    match k
    case CmdUnknown => 0
    case CmdContinue => 1
    case CmdSetBreakpoint => 2
    case CmdDeleteBreakpoint => 3
    case CmdEnableBreakpoint => 4
    case CmdDisableBreakpoint => 5
    case CmdListBreakpoints => 6
    case CmdStepOver => 7
    case CmdStepInto => 8
    case CmdStepSingle => 9
    case CmdRegisterRead => 10
    case CmdRegisterWrite => 11
    case CmdRun => 12
    case CmdQuit => 13
    case CmdProcessed => 14
  }

  function KindOfOrdinal(n: nat): (k: Option<CommandKind>)
    ensures k.Some? <==> n < 15
    ensures k.Some? ==> KindOrdinal(k.value) == n
  {
    if n == 0 then Some(CmdUnknown)
    else if n == 1 then Some(CmdContinue)
    else if n == 2 then Some(CmdSetBreakpoint)
    else if n == 3 then Some(CmdDeleteBreakpoint)
    else if n == 4 then Some(CmdEnableBreakpoint)
    else if n == 5 then Some(CmdDisableBreakpoint)
    else if n == 6 then Some(CmdListBreakpoints)
    else if n == 7 then Some(CmdStepOver)
    else if n == 8 then Some(CmdStepInto)
    else if n == 9 then Some(CmdStepSingle)
    else if n == 10 then Some(CmdRegisterRead)
    else if n == 11 then Some(CmdRegisterWrite)
    else if n == 12 then Some(CmdRun)
    else if n == 13 then Some(CmdQuit)
    else if n == 14 then Some(CmdProcessed)
    else None
  }

  datatype Option<T> = None | Some(value: T)

  /** `TDebugCommand` as a sum type: each kind carries exactly the payload
      member of the union that the back end reads for it. */
  datatype DebugCommand =
    | Unknown
    | Continue
    | SetBreakpoint(address: u64)          // Data.BpAddr
    | DeleteBreakpoint(index: u64)         // Data.BpIdx
    | EnableBreakpoint(index: u64)         // Data.BpIdx
    | DisableBreakpoint(index: u64)        // Data.BpIdx
    | ListBreakpoints
    | StepOver
    | StepInto
    | StepSingle
    | RegisterRead(register: u64)          // Data.Reg.Index
    | RegisterWrite(register: u64, value: u64)  // Data.Reg
    | Run
    | Quit
    | Processed
  {
    function Kind(): CommandKind {
      match this
      case Unknown => CmdUnknown
      case Continue => CmdContinue
      case SetBreakpoint(_) => CmdSetBreakpoint
      case DeleteBreakpoint(_) => CmdDeleteBreakpoint
      case EnableBreakpoint(_) => CmdEnableBreakpoint
      case DisableBreakpoint(_) => CmdDisableBreakpoint
      case ListBreakpoints => CmdListBreakpoints
      case StepOver => CmdStepOver
      case StepInto => CmdStepInto
      case StepSingle => CmdStepSingle
      case RegisterRead(_) => CmdRegisterRead
      case RegisterWrite(_, _) => CmdRegisterWrite
      case Run => CmdRun
      case Quit => CmdQuit
      case Processed => CmdProcessed
    }
  }

  /** The C layout of `TDebugCommand`: the enumerator and the two 64-bit
      words of the union (`Reg.Index`/`Reg.Value`; `BpAddr` and `BpIdx`
      overlay the first word). */
  datatype RawCommand = RawCommand(command: nat, word0: u64, word1: u64)

  function ToRaw(c: DebugCommand): (r: RawCommand)
    ensures r.command == KindOrdinal(c.Kind())
  {
    match c
    case SetBreakpoint(a) => RawCommand(2, a, 0)
    case DeleteBreakpoint(i) => RawCommand(3, i, 0)
    case EnableBreakpoint(i) => RawCommand(4, i, 0)
    case DisableBreakpoint(i) => RawCommand(5, i, 0)
    case RegisterRead(i) => RawCommand(10, i, 0)
    case RegisterWrite(i, v) => RawCommand(11, i, v)
    case _ => RawCommand(KindOrdinal(c.Kind()), 0, 0)
  }

  /** Reads the union member that the kind selects; `None` for a value of
      the enumerator outside `eDebugCommand`. */
  function FromRaw(r: RawCommand): (c: Option<DebugCommand>)
    ensures c.Some? <==> r.command < 15
    ensures c.Some? ==> KindOrdinal(c.value.Kind()) == r.command
  {
    match KindOfOrdinal(r.command)
    case None => None
    case Some(k) =>
      Some(match k
        case CmdUnknown => Unknown
        case CmdContinue => Continue
        case CmdSetBreakpoint => SetBreakpoint(r.word0)
        case CmdDeleteBreakpoint => DeleteBreakpoint(r.word0)
        case CmdEnableBreakpoint => EnableBreakpoint(r.word0)
        case CmdDisableBreakpoint => DisableBreakpoint(r.word0)
        case CmdListBreakpoints => ListBreakpoints
        case CmdStepOver => StepOver
        case CmdStepInto => StepInto
        case CmdStepSingle => StepSingle
        case CmdRegisterRead => RegisterRead(r.word0)
        case CmdRegisterWrite => RegisterWrite(r.word0, r.word1)
        case CmdRun => Run
        case CmdQuit => Quit
        case CmdProcessed => Processed)
  }

  /** Every command survives the trip through the C union layout. */
  lemma RawRoundTrip(c: DebugCommand)
    ensures FromRaw(ToRaw(c)) == Some(c)
  {
  }

  /** The payload a raw command's kind does not select is ignored. */
  lemma RawUnusedWordIgnored(r: RawCommand, w: u64)
    requires r.command < 15 && r.command != 11
    ensures FromRaw(r.(word1 := w)) == FromRaw(r)
  {
  }

  // eRegister: the order of `user_regs_struct` on x86-64.
  const REGISTER_R15: nat := 0
  const REGISTER_R14: nat := 1
  const REGISTER_R13: nat := 2
  const REGISTER_R12: nat := 3
  const REGISTER_RBP: nat := 4
  const REGISTER_RBX: nat := 5
  const REGISTER_R11: nat := 6
  const REGISTER_R10: nat := 7
  const REGISTER_R9: nat := 8
  const REGISTER_R8: nat := 9
  const REGISTER_RAX: nat := 10
  const REGISTER_RCX: nat := 11
  const REGISTER_RDX: nat := 12
  const REGISTER_RSI: nat := 13
  const REGISTER_RDI: nat := 14
  const REGISTER_ORIG_RAX: nat := 15
  const REGISTER_RIP: nat := 16
  const REGISTER_CS: nat := 17
  const REGISTER_EFLAGS: nat := 18
  const REGISTER_RSP: nat := 19
  const REGISTER_SS: nat := 20
  const REGISTER_FS_BASE: nat := 21
  const REGISTER_GS_BASE: nat := 22
  const REGISTER_DS: nat := 23
  const REGISTER_ES: nat := 24
  const REGISTER_FS: nat := 25
  const REGISTER_GS: nat := 26
  const REGISTER_COUNT: nat := 27

  /** `TRegister`: the register struct viewed as `u64 RegArray[REGISTER_COUNT]`. */
  type RegisterFile = s: seq<u64> | |s| == REGISTER_COUNT
    witness seq(27, _ => 0)

  type Register = r: nat | r < REGISTER_COUNT

  /** `TBreakpoint`: `SavedData` is a single byte. */
  datatype Breakpoint = Breakpoint(address: u64, savedData: u8, enabled: bool)

  /** Storing a peeked word in `TBreakpoint.SavedData` keeps its low byte. */
  function SavedByteOf(word: u64): (b: u8)
    ensures (word - b) % 0x100 == 0
  {
    word % 0x100
  }
}
