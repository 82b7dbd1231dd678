/** The traced process as the back end sees it through ptrace: a partial
    byte-addressed memory, the register file, and whether the process is
    still there to answer requests.  On x86-64 a word read at `A` is
    little-endian, so its low byte is the byte at `A`. */
module Tracee {
  import opened DebugTypes

  type Memory = map<u64, u8>

  datatype Tracee = Tracee(memory: Memory, registers: RegisterFile, traced: bool)

  /** How the tracee is resumed: `PTRACE_CONT` or `PTRACE_SINGLESTEP`. */
  datatype Resume = Cont | SingleStep

  /** What running the tracee until its next stop does to the registers;
      `None` when the process exits instead of stopping.  Instructions the
      tracee executes do not write the memory seen here. */
  type ExecOracle = (Resume, Memory, RegisterFile) -> Option<RegisterFile>

  const WORD_BYTES: nat := 8

  function Pow256(n: nat): (p: nat)
    ensures p > 0
  {
    if n == 0 then 1 else 256 * Pow256(n - 1)
  }

  /** The value of little-endian bytes. */
  function LittleEndian(bs: seq<u8>): (v: nat)
    ensures v < Pow256(|bs|)
  {
    if bs == [] then 0 else bs[0] + 256 * LittleEndian(bs[1..])
  }

  /** The `n` low bytes of `w`, least significant first. */
  function BytesOf(w: nat, n: nat): (bs: seq<u8>)
    ensures |bs| == n
  {
    if n == 0 then [] else [w % 256] + BytesOf(w / 256, n - 1)
  }

  lemma {:induction false} BytesOfLittleEndian(bs: seq<u8>)
    ensures BytesOf(LittleEndian(bs), |bs|) == bs
  {
    if bs != [] {
      var v := LittleEndian(bs);
      LowAndHigh(LittleEndian(bs[1..]), bs[0]);
      BytesOfLittleEndian(bs[1..]);
      BytesOfStep(v, |bs|);
      HeadTail(bs);
    }
  }

  lemma LowAndHigh(x: nat, lo: nat)
    requires lo < 256
    ensures (lo + 256 * x) % 256 == lo && (lo + 256 * x) / 256 == x
  {
  }

  lemma BytesOfStep(w: nat, n: nat)
    requires n > 0
    ensures BytesOf(w, n) == [w % 256] + BytesOf(w / 256, n - 1)
  {
  }

  lemma HeadTail<T>(s: seq<T>)
    requires s != []
    ensures [s[0]] + s[1..] == s
  {
  }

  /** The bytes at `a .. a+n-1`, or `None` if one of them is not mapped. */
  function ReadBytes(mem: Memory, a: nat, n: nat): (r: Option<seq<u8>>)
    requires a + n <= U64_MAX + 1
    ensures r.Some? ==> |r.value| == n
    ensures r.Some? && n > 0 ==> a in mem && r.value[0] == mem[a]
    decreases n
  {
    if n == 0 then Some([])
    else if a !in mem then None
    else match ReadBytes(mem, a + 1, n - 1)
      case None => None
      case Some(rest) => Some([mem[a]] + rest)
  }

  function WriteBytes(mem: Memory, a: nat, bs: seq<u8>): (m: Memory)
    requires a + |bs| <= U64_MAX + 1
    decreases |bs|
  {
    if bs == [] then mem else WriteBytes(mem[a := bs[0]], a + 1, bs[1..])
  }

  /** Writing back the bytes that are already there changes nothing. */
  lemma {:induction false} WriteBytesSame(mem: Memory, a: nat, bs: seq<u8>)
    requires a + |bs| <= U64_MAX + 1
    requires ReadBytes(mem, a, |bs|) == Some(bs)
    ensures WriteBytes(mem, a, bs) == mem
    decreases |bs|
  {
    if bs != [] {
      assert a in mem && mem[a] == bs[0];
      assert mem[a := bs[0]] == mem;
      assert ReadBytes(mem, a + 1, |bs| - 1) == Some(bs[1..]);
      WriteBytesSame(mem, a + 1, bs[1..]);
    }
  }

  /** Whether `PTRACE_PEEKDATA`/`PTRACE_POKEDATA` of the word at `a` succeed. */
  predicate WordAccessible(t: Tracee, a: u64) {
    t.traced && a + WORD_BYTES <= U64_MAX + 1 && ReadBytes(t.memory, a, WORD_BYTES).Some?
  }

  /** `PTRACE_PEEKDATA`, with the failure reported as `None` (the C code sees
      errno set and a result of -1). */
  function Peek(t: Tracee, a: u64): (r: Option<u64>)
    ensures r.Some? <==> WordAccessible(t, a)
    ensures r.Some? ==> a in t.memory && r.value % 256 == t.memory[a]
  {
    if !WordAccessible(t, a) then None
    else
      var bs := ReadBytes(t.memory, a, WORD_BYTES).value;
      assert Pow256(8) == U64_MAX + 1;
      assert LittleEndian(bs) % 256 == bs[0];
      Some(LittleEndian(bs))
  }

  /** `PTRACE_POKEDATA`: it fails, changing nothing, exactly where a peek fails. */
  function Poke(t: Tracee, a: u64, w: u64): (r: Tracee)
    ensures r.registers == t.registers && r.traced == t.traced
    ensures !WordAccessible(t, a) ==> r == t
  {
    if WordAccessible(t, a) then t.(memory := WriteBytes(t.memory, a, BytesOf(w, WORD_BYTES)))
    else t
  }

  /** `(w & ~0xff) | b` for a byte `b`. */
  function WithLowByte(w: u64, b: u8): (r: u64)
    ensures r % 256 == b && r / 256 == w / 256
  {
    w - w % 256 + b
  }

  /** The read-modify-write the breakpoint code performs at `a`: peek the
      word, replace its low byte with `b`, poke it back. */
  function PatchByte(t: Tracee, a: u64, b: u8): (r: Tracee)
    ensures r.registers == t.registers && r.traced == t.traced
  {
    match Peek(t, a)
    case None => Poke(t, a, WithLowByte(U64_MAX, b))
    case Some(w) => Poke(t, a, WithLowByte(w, b))
  }

  /** The frame property of byte patching: only the byte at `a` changes, and
      only when the word at `a` is accessible; the other seven bytes of the
      word are written back unchanged. */
  lemma PatchByteFrame(t: Tracee, a: u64, b: u8)
    ensures PatchByte(t, a, b).memory ==
      if WordAccessible(t, a) then t.memory[a := b] else t.memory
  {
    if WordAccessible(t, a) {
      var bs := ReadBytes(t.memory, a, WORD_BYTES).value;
      var w := Peek(t, a).value;
      BytesOfLittleEndian(bs);
      assert BytesOf(w, WORD_BYTES) == bs;
      assert BytesOf(WithLowByte(w, b), WORD_BYTES) == [b] + bs[1..] by {
        BytesOfWithLowByte(w, b, WORD_BYTES);
      }
      WriteLowByte(t.memory, a, bs, b);
    }
  }

  lemma BytesOfWithLowByte(w: u64, b: u8, n: nat)
    requires n > 0
    ensures BytesOf(WithLowByte(w, b), n) == [b] + BytesOf(w, n)[1..]
  {
  }

  /** Writing a byte sequence that differs from memory only in its first byte. */
  lemma WriteLowByte(mem: Memory, a: nat, bs: seq<u8>, b: u8)
    requires |bs| > 0 && a + |bs| <= U64_MAX + 1
    requires ReadBytes(mem, a, |bs|) == Some(bs)
    ensures WriteBytes(mem, a, [b] + bs[1..]) == mem[a := b]
  {
    WriteBytesCons(mem, a, b, bs[1..]);
    ReadBytesTail(mem, a, bs);
    ReadBytesUnaffected(mem, a, b, a + 1, |bs| - 1);
    WriteBytesSame(mem[a := b], a + 1, bs[1..]);
  }

  lemma WriteBytesCons(mem: Memory, a: nat, x: u8, s: seq<u8>)
    requires a + 1 + |s| <= U64_MAX + 1
    ensures WriteBytes(mem, a, [x] + s) == WriteBytes(mem[a := x], a + 1, s)
  {
    var c := [x] + s;
    assert c[0] == x && c[1..] == s;
  }

  lemma ReadBytesTail(mem: Memory, a: nat, bs: seq<u8>)
    requires |bs| > 0 && a + |bs| <= U64_MAX + 1
    requires ReadBytes(mem, a, |bs|) == Some(bs)
    ensures ReadBytes(mem, a + 1, |bs| - 1) == Some(bs[1..])
  {
  }

  /** Reading above an updated address ignores the update. */
  lemma {:induction false} ReadBytesUnaffected(mem: Memory, x: u64, v: u8, a: nat, n: nat)
    requires x < a && a + n <= U64_MAX + 1
    ensures ReadBytes(mem[x := v], a, n) == ReadBytes(mem, a, n)
    decreases n
  {
    if n > 0 {
      ReadBytesUnaffected(mem, x, v, a + 1, n - 1);
    }
  }

  /** A patch at `a` leaves accessibility of every word unchanged. */
  lemma PatchKeepsAccessible(t: Tracee, a: u64, b: u8, c: u64)
    ensures WordAccessible(PatchByte(t, a, b), c) == WordAccessible(t, c)
  {
    PatchByteFrame(t, a, b);
    if WordAccessible(t, a) && c + WORD_BYTES <= U64_MAX + 1 {
      ReadBytesDomain(t.memory, a, b, c, WORD_BYTES);
    }
  }

  /** Overwriting a mapped byte leaves accessibility of every word unchanged. */
  lemma UpdateKeepsAccessible(t: Tracee, a: u64, b: u8, c: u64)
    requires a in t.memory
    ensures WordAccessible(t.(memory := t.memory[a := b]), c) == WordAccessible(t, c)
  {
    if c + WORD_BYTES <= U64_MAX + 1 {
      ReadBytesDomain(t.memory, a, b, c, WORD_BYTES);
    }
  }

  /** Readability depends only on which addresses are mapped. */
  lemma {:induction false} ReadBytesDomain(mem: Memory, x: u64, v: u8, a: nat, n: nat)
    requires x in mem && a + n <= U64_MAX + 1
    ensures ReadBytes(mem[x := v], a, n).Some? == ReadBytes(mem, a, n).Some?
    decreases n
  {
    if n > 0 {
      ReadBytesDomain(mem, x, v, a + 1, n - 1);
    }
  }

  /** `GetRegister`: the slot's value, or 0 when `PTRACE_GETREGS` fails. */
  function GetRegister(t: Tracee, r: Register): (v: u64)
    ensures t.traced ==> v == t.registers[r]
    ensures !t.traced ==> v == 0
  {
    if t.traced then t.registers[r] else 0
  }

  /** `SetRegister`: fetch all registers, change slot `r`, store all back;
      true iff both requests succeed. */
  function SetRegister(t: Tracee, r: Register, v: u64): (res: (Tracee, bool))
    ensures res.1 == t.traced
    ensures res.0.memory == t.memory && res.0.traced == t.traced
    ensures res.1 ==> res.0.registers[r] == v
    ensures forall j :: 0 <= j < REGISTER_COUNT && j != r ==> res.0.registers[j] == t.registers[j]
    ensures !res.1 ==> res.0 == t
  {
    if !t.traced then (t, false)
    else (t.(registers := t.registers[r := v]), true)
  }

  /** `PTRACE_CONT`/`PTRACE_SINGLESTEP` followed by `waitpid`: the oracle
      decides the next stop; a request to a process that is gone fails. */
  function ResumeUntilStop(t: Tracee, how: Resume, exec: ExecOracle): (r: Tracee)
    ensures r.memory == t.memory
    ensures !t.traced ==> r == t
    ensures r.traced ==> t.traced
  {
    if !t.traced then t
    else match exec(how, t.memory, t.registers)
      case None => t.(traced := false)
      case Some(regs) => t.(registers := regs)
  }
}
