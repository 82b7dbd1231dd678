/** The older stand-alone console debugger: its prompt parser `GetCommand`
    (trim the newline, split the line in place at spaces, classify the
    first word) and its global breakpoint list, whose entries remember the
    whole peeked word and whose check does not rewind `rip`. */
module ConsoleDebugger {
  import DT = DebugTypes
  import T = Tracee

  type u8 = DT.u8
  type u64 = DT.u64

  const NUL: char := '\0'
  const MAX_COMMAND: nat := 1024

  /** This program's own, shorter `eDebugCommand`. */
  datatype Command = Unknown | Continue | SetBreakpoint | StepOver | StepInto | StepSingle | Quit

  // ------------------------------------------------------------ the line

  /** One trailing newline is cut off.  (At length 0 the program reads
      `input[-1]`; the model treats that line as having no newline.) */
  function Trim(line: string): (s: string)
    ensures |line| > 0 && line[|line| - 1] == '\n' ==> line == s + ['\n']
    ensures !(|line| > 0 && line[|line| - 1] == '\n') ==> s == line
  {
    if |line| > 0 && line[|line| - 1] == '\n' then line[..|line| - 1] else line
  }

  /** The characters before the first space. */
  function FirstWord(t: string): (w: string)
    ensures |w| <= |t| && w == t[..|w|]
    ensures forall k :: 0 <= k < |w| ==> w[k] != ' '
    ensures |w| < |t| ==> t[|w|] == ' '
    ensures t != [] && t[0] != ' ' ==> |w| > 0
    decreases |t|
  {
    if t == [] || t[0] == ' ' then [] else [t[0]] + FirstWord(t[1..])
  }

  /** The words the split loop collects after the first one while it
      scans `t`; `push` is its flag "the previous character was a space". */
  function Scan(t: string, push: bool): seq<string>
    decreases |t|
  {
    if t == [] then []
    else if t[0] == ' ' then Scan(t[1..], true)
    else if push then [FirstWord(t)] + Scan(t[1..], false)
    else Scan(t[1..], false)
  }

  /** The strings `GetCommand` collects: the start of the buffer, then
      every character that follows a space. */
  function Tokens(s: string): (ts: seq<string>)
    ensures |ts| >= 1 && ts[0] == FirstWord(s)
  {
    [FirstWord(s)] + Scan(s, false)
  }

  /** Reference splitting: the maximal runs of non-space characters. */
  function Runs(t: string): (ws: seq<string>)
    ensures forall j :: 0 <= j < |ws| ==> |ws[j]| > 0 && forall k :: 0 <= k < |ws[j]| ==> ws[j][k] != ' '
    decreases |t|
  {
    if t == [] then []
    else if t[0] == ' ' then Runs(t[1..])
    else
      var w := FirstWord(t);
      [w] + Runs(t[|w|..])
  }

  /** Reference result: the possibly empty prefix before the first space,
      then the words of the rest. */
  function Fields(s: string): seq<string> {
    var w := FirstWord(s);
    [w] + Runs(s[|w|..])
  }

  lemma {:induction false} ScanIsRuns(t: string)
    ensures Scan(t, true) == Runs(t)
    ensures Scan(t, false) == Runs(t[|FirstWord(t)|..])
    decreases |t|
  {
    if t != [] {
      ScanIsRuns(t[1..]);
      if t[0] != ' ' {
        assert t[|FirstWord(t)|..] == t[1..][|FirstWord(t[1..])|..];
      }
    }
  }

  /** The split loop yields the prefix before the first space followed by
      the maximal space-free words: runs of spaces collapse, and a line
      that starts with a space yields an empty first token. */
  lemma TokensAreFields(s: string)
    ensures Tokens(s) == Fields(s)
  {
    ScanIsRuns(s);
  }

  // -------------------------------------------------- the in-place split

  /** The buffer after the split: every space overwritten with NUL. */
  function Nulled(s: string): (b: string)
    ensures |b| == |s|
  {
    seq(|s|, k requires 0 <= k < |s| => if s[k] == ' ' then NUL else s[k])
  }

  /** The indices the loop pushes while it scans `s` from `i`. */
  function StartsFrom(s: string, i: nat, push: bool): (ks: seq<nat>)
    requires i <= |s|
    ensures forall j :: 0 <= j < |ks| ==> i <= ks[j] < |s|
    decreases |s| - i
  {
    if i == |s| then []
    else if s[i] == ' ' then StartsFrom(s, i + 1, true)
    else if push then [i] + StartsFrom(s, i + 1, false)
    else StartsFrom(s, i + 1, false)
  }

  /** The C string at `k`: the characters up to the next NUL. */
  function CString(buf: string, k: nat): string
    decreases |buf| - k
  {
    if k >= |buf| || buf[k] == NUL then [] else [buf[k]] + CString(buf, k + 1)
  }

  function CStrings(buf: string, ks: seq<nat>): seq<string> {
    if ks == [] then [] else [CString(buf, ks[0])] + CStrings(buf, ks[1..])
  }

  predicate NoNul(s: string) {
    forall k :: 0 <= k < |s| ==> s[k] != NUL
  }

  lemma {:induction false} CStringIsFirstWord(s: string, pad: string, k: nat)
    requires NoNul(s) && |pad| > 0 && pad[0] == NUL && k <= |s|
    ensures CString(Nulled(s) + pad, k) == FirstWord(s[k..])
    decreases |s| - k
  {
    var buf := Nulled(s) + pad;
    if k < |s| {
      assert buf[k] == Nulled(s)[k];
      if s[k] != ' ' {
        CStringIsFirstWord(s, pad, k + 1);
        assert s[k..][1..] == s[k + 1..];
      }
    } else {
      assert buf[k] == pad[0];
    }
  }

  lemma {:induction false} StartsAreScan(s: string, pad: string, i: nat, push: bool)
    requires NoNul(s) && |pad| > 0 && pad[0] == NUL && i <= |s|
    ensures CStrings(Nulled(s) + pad, StartsFrom(s, i, push)) == Scan(s[i..], push)
    decreases |s| - i
  {
    if i < |s| {
      assert s[i..][1..] == s[i + 1..];
      StartsAreScan(s, pad, i + 1, s[i] == ' ');
      if s[i] != ' ' && push {
        var ks := StartsFrom(s, i, push);
        assert ks[1..] == StartsFrom(s, i + 1, false);
        CStringIsFirstWord(s, pad, i);
      }
    }
  }

  /** The pointers the loop collects, read as C strings, are `Tokens`. */
  lemma SplitYieldsTokens(s: string, pad: string)
    requires NoNul(s) && |pad| > 0 && pad[0] == NUL
    ensures CStrings(Nulled(s) + pad, [0] + StartsFrom(s, 0, false)) == Tokens(s)
  {
    var ks := [0] + StartsFrom(s, 0, false);
    assert ks[1..] == StartsFrom(s, 0, false);
    CStringIsFirstWord(s, pad, 0);
    StartsAreScan(s, pad, 0, false);
    assert s[0..] == s;
  }

  /** The split loop: spaces become NUL, and the index of each character
      that follows a space is pushed after the start of the buffer. */
  method Split(input: array<char>, length: nat) returns (starts: seq<nat>)
    requires length <= input.Length
    modifies input
    ensures starts == [0] + StartsFrom(old(input[..length]), 0, false)
    ensures input[..length] == Nulled(old(input[..length]))
    ensures input[length..] == old(input[length..])
  {
    ghost var s := input[..length];
    var push := false;
    starts := [0];
    var i := 0;
    while i < length
      invariant 0 <= i <= length
      invariant forall k :: 0 <= k < i ==> input[k] == Nulled(s)[k]
      invariant forall k :: i <= k < input.Length ==> input[k] == old(input[k])
      invariant starts + StartsFrom(s, i, push) == [0] + StartsFrom(s, 0, false)
    {
      if input[i] == ' ' {
        push := true;
        input[i] := NUL;
      } else if push {
        starts := starts + [i];
        push := false;
      }
      i := i + 1;
    }
  }

  // --------------------------------------------------- strtoll(_, 0, 16)

  function HexDigit(c: char): (d: int)
    ensures -1 <= d < 16
  {
    if '0' <= c <= '9' then c as int - '0' as int
    else if 'a' <= c <= 'f' then c as int - 'a' as int + 10
    else if 'A' <= c <= 'F' then c as int - 'A' as int + 10
    else -1
  }

  /** The longest prefix of hexadecimal digits. */
  function HexRun(t: string): (r: string)
    ensures |r| <= |t| && r == t[..|r|]
    ensures forall k :: 0 <= k < |r| ==> HexDigit(r[k]) >= 0
    ensures |r| < |t| ==> HexDigit(t[|r|]) < 0
  {
    if t == [] || HexDigit(t[0]) < 0 then [] else [t[0]] + HexRun(t[1..])
  }

  function HexValue(ds: string): nat
    requires forall k :: 0 <= k < |ds| ==> HexDigit(ds[k]) >= 0
  {
    if ds == [] then 0 else 16 * HexValue(ds[..|ds| - 1]) + HexDigit(ds[|ds| - 1])
  }

  predicate IsSpace(c: char) {
    c == ' ' || c == '\t' || c == '\n' || c == '\r' || c as int == 0x0b || c as int == 0x0c
  }

  function SkipSpace(t: string): (r: string)
    ensures |r| <= |t| && r == t[|t| - |r|..]
    ensures r == [] || !IsSpace(r[0])
  {
    if t != [] && IsSpace(t[0]) then SkipSpace(t[1..]) else t
  }

  const LLONG_MAX: int := 0x7FFF_FFFF_FFFF_FFFF
  const LLONG_MIN: int := -0x8000_0000_0000_0000

  /** The digits after an optional `0x`/`0X` prefix.  (When no digit
      follows the prefix the C library reads the "0" alone, which has the
      same value 0.) */
  function UnPrefixed(t: string): string {
    if |t| >= 2 && t[0] == '0' && (t[1] == 'x' || t[1] == 'X') then t[2..] else t
  }

  /** `strtoll(t, 0, 16)`: spaces, a sign, an optional `0x`, the digits;
      an out-of-range magnitude saturates at `LLONG_MAX`/`LLONG_MIN`. */
  function StrToLL16(t: string): (v: int)
    ensures LLONG_MIN <= v <= LLONG_MAX
  {
    var u := SkipSpace(t);
    var negative := u != [] && u[0] == '-';
    var unsigned := if u != [] && (u[0] == '-' || u[0] == '+') then u[1..] else u;
    var m: int := HexValue(HexRun(UnPrefixed(unsigned)));
    if negative then (if m > -LLONG_MIN then LLONG_MIN else -m)
    else (if m > LLONG_MAX then LLONG_MAX else m)
  }

  /** The `long long` result stored in a `u64`. */
  function ParseAddress(t: string): (a: u64)
    ensures StrToLL16(t) >= 0 ==> a == StrToLL16(t)
    ensures StrToLL16(t) < 0 ==> a == StrToLL16(t) + 0x1_0000_0000_0000_0000
  {
    var v := StrToLL16(t);
    if v >= 0 then v else v + 0x1_0000_0000_0000_0000
  }

  function HexChar(d: nat): (c: char)
    requires d < 16
    ensures HexDigit(c) == d
  {
    if d < 10 then ('0' as int + d) as char else ('a' as int + d - 10) as char
  }

  /** Lower-case hexadecimal without leading zeros (`%x`). */
  function Hex(a: nat): (r: string)
    ensures |r| > 0
    ensures forall k :: 0 <= k < |r| ==> HexDigit(r[k]) >= 0
  {
    if a < 16 then [HexChar(a)] else Hex(a / 16) + [HexChar(a % 16)]
  }

  lemma {:induction false} HexValueOfHex(a: nat)
    ensures HexValue(Hex(a)) == a
  {
    if a >= 16 {
      var r := Hex(a);
      assert r[..|r| - 1] == Hex(a / 16);
      HexValueOfHex(a / 16);
    }
  }

  lemma {:induction false} HexRunAll(ds: string)
    requires forall k :: 0 <= k < |ds| ==> HexDigit(ds[k]) >= 0
    ensures HexRun(ds) == ds
  {
    if ds != [] {
      HexRunAll(ds[1..]);
    }
  }

  /** An address written in hexadecimal, with or without `0x`, reads back
      as itself while it fits a `long long`, and as `LLONG_MAX` above. */
  lemma ParseAddressOfHex(a: u64, t: string)
    requires t == Hex(a) || t == "0x" + Hex(a)
    ensures ParseAddress(t) == if a <= LLONG_MAX then a else LLONG_MAX
  {
    var h := Hex(a);
    UnPrefixedHex(h, t);
    HexRunAll(h);
    HexValueOfHex(a);
    StrToLL16Unsigned(t, h, a);
  }

  /** `strtoll` of text with no space, no sign and the digits `h` after
      the prefix. */
  lemma StrToLL16Unsigned(t: string, h: string, m: nat)
    requires SkipSpace(t) == t && t != [] && t[0] != '-' && t[0] != '+' && UnPrefixed(t) == h
    requires forall k :: 0 <= k < |h| ==> HexDigit(h[k]) >= 0
    requires HexRun(h) == h && HexValue(h) == m
    ensures StrToLL16(t) == if m <= LLONG_MAX then m else LLONG_MAX
  {
  }

  /** Text that starts with a digit skips no space and has no sign, and
      the `0x` prefix is only taken off where it was put. */
  lemma UnPrefixedHex(h: string, t: string)
    requires |h| > 0 && forall k :: 0 <= k < |h| ==> HexDigit(h[k]) >= 0
    requires t == h || t == "0x" + h
    ensures SkipSpace(t) == t && t != [] && t[0] != '-' && t[0] != '+' && UnPrefixed(t) == h
  {
    if t != h {
      assert t[0] == '0';
      NotSpace(t);
      assert t[2..] == h;
    } else {
      DigitNotSign(h[0]);
      NotSpace(h);
      if |h| >= 2 {
        DigitNotSign(h[1]);
      }
    }
  }

  lemma DigitNotSign(c: char)
    requires HexDigit(c) >= 0
    ensures c != '-' && c != '+' && c != 'x' && c != 'X' && !IsSpace(c)
  {
  }

  lemma NotSpace(t: string)
    requires |t| > 0 && !IsSpace(t[0])
    ensures SkipSpace(t) == t
  {
  }

  // ------------------------------------------------------ classification

  /** The word `strings[0]` selects the command; `register` and every
      other word give `DEBUG_CMD_UNKNOWN`. */
  function Classify(w: string): (c: Command)
    ensures c == Continue <==> w in {"c", "cont", "continue"}
    ensures c == Quit <==> w in {"q", "quit"}
    ensures c == StepSingle <==> w in {"s", "step"}
    ensures c == SetBreakpoint <==> w in {"b", "break"}
    ensures c == Unknown <==> w !in {"c", "cont", "continue", "q", "quit", "s", "step", "b", "break"}
  {
    if w == "c" || w == "cont" || w == "continue" then Continue
    else if w == "q" || w == "quit" then Quit
    else if w == "s" || w == "step" then StepSingle
    else if w == "b" || w == "break" then SetBreakpoint
    else Unknown
  }

  /** `b`, `break` and `register` read `strings[1]`, so they need a second
      token. */
  predicate ArgumentPresent(ts: seq<string>)
    requires |ts| >= 1
  {
    ts[0] in {"b", "break", "register"} ==> |ts| >= 2
  }

  /** What `fgets(input, MAX_COMMAND-1, stdin)` can store: at most 1022
      characters, no NUL, a newline only at the end. */
  predicate FgetsLine(line: string) {
    |line| <= MAX_COMMAND - 2 && NoNul(line) &&
    forall k :: 0 <= k < |line| - 1 ==> line[k] != '\n'
  }

  /** A command word followed by spaces and anything else is classified by
      that word alone, and a leading space hides the word. */
  lemma {:induction false} CommandWordFirst(w: string, gap: nat, rest: string)
    requires forall k :: 0 <= k < |w| ==> w[k] != ' '
    ensures Tokens(w + seq(gap + 1, _ => ' ') + rest)[0] == w
    ensures Tokens(" " + w + rest)[0] == ""
    ensures Classify(Tokens(" " + w + rest)[0]) == Unknown
    decreases |w|
  {
    var ws := seq(gap + 1, _ => ' ');
    if w != [] {
      CommandWordFirst(w[1..], gap, rest);
      assert (w + ws + rest)[1..] == w[1..] + ws + rest;
    } else {
      assert (w + ws + rest)[0] == ' ';
    }
  }

  /** `b 0x<addr>` with any number of spaces asks for a breakpoint at
      `addr` (saturated at `LLONG_MAX`). */
  lemma BreakLineParses(a: u64, gap: nat)
    ensures var ts := Tokens(Trim(BreakLine(a, gap)));
      Classify(ts[0]) == SetBreakpoint && |ts| >= 2 &&
      ParseAddress(ts[1]) == if a <= LLONG_MAX then a else LLONG_MAX
  {
    var ws := seq(gap + 1, _ => ' ');
    var arg := "0x" + Hex(a);
    assert Trim(BreakLine(a, gap)) == "b" + ws + arg;
    forall k | 0 <= k < |arg|
      ensures arg[k] != ' '
    {
      if k >= 2 {
        assert arg[k] == Hex(a)[k - 2];
        assert HexDigit(arg[k]) >= 0;
      }
    }
    SecondToken("b", ws, arg);
    ParseAddressOfHex(a, arg);
  }

  /** The line `b`, spaces, `0x` and the address in hexadecimal. */
  function BreakLine(a: u64, gap: nat): (line: string)
    ensures line == ("b" + seq(gap + 1, _ => ' ') + ("0x" + Hex(a))) + "\n"
  {
    "b" + seq(gap + 1, _ => ' ') + "0x" + Hex(a) + "\n"
  }

  /** The token after a space-free word and a run of spaces. */
  lemma SecondToken(w: string, ws: string, arg: string)
    requires forall k :: 0 <= k < |w| ==> w[k] != ' '
    requires |ws| > 0 && forall k :: 0 <= k < |ws| ==> ws[k] == ' '
    requires |arg| > 0 && forall k :: 0 <= k < |arg| ==> arg[k] != ' '
    ensures var ts := Tokens(w + ws + arg); |ts| >= 2 && ts[0] == w && ts[1] == arg
  {
    var s := w + ws + arg;
    FirstWordBefore(w, ws + arg);
    assert s == w + (ws + arg);
    TokensAreFields(s);
    assert s[|w|..] == ws + arg;
    RunsAfterSpaces(ws, arg);
    FirstWordAll(arg);
  }

  lemma {:induction false} FirstWordBefore(w: string, rest: string)
    requires forall k :: 0 <= k < |w| ==> w[k] != ' '
    requires |rest| > 0 && rest[0] == ' '
    ensures FirstWord(w + rest) == w
    decreases |w|
  {
    if w != [] {
      assert (w + rest)[1..] == w[1..] + rest;
      FirstWordBefore(w[1..], rest);
    } else {
      assert w + rest == rest;
    }
  }

  lemma {:induction false} RunsAfterSpaces(ws: string, arg: string)
    requires forall k :: 0 <= k < |ws| ==> ws[k] == ' '
    requires |arg| > 0 && arg[0] != ' '
    ensures Runs(ws + arg) == Runs(arg) && Runs(arg)[0] == FirstWord(arg)
    decreases |ws|
  {
    if ws != [] {
      assert (ws + arg)[0] == ' ';
      assert (ws + arg)[1..] == ws[1..] + arg;
      RunsAfterSpaces(ws[1..], arg);
    } else {
      assert ws + arg == arg;
    }
  }

  lemma {:induction false} FirstWordAll(t: string)
    requires forall k :: 0 <= k < |t| ==> t[k] != ' '
    ensures FirstWord(t) == t
  {
    if t != [] {
      FirstWordAll(t[1..]);
    }
  }

  // ----------------------------------------------- the breakpoint list

  /** This program's `TBreakpoint`: `SavedData` holds the whole word. */
  datatype WordBreakpoint = WordBreakpoint(address: u64, savedData: u64, enabled: bool)

  /** `AddBreakpoint(State, Address)` as a state change. */
  function AddWordBreakpoint(t: T.Tracee, bps: seq<WordBreakpoint>, a: u64): (r: (T.Tracee, seq<WordBreakpoint>))
    ensures T.WordAccessible(t, a) ==>
      r.0 == t.(memory := t.memory[a := DT.SW_INTERRUPT_3]) &&
      r.1 == bps + [WordBreakpoint(a, T.Peek(t, a).value, true)] &&
      T.Peek(t, a).value % 256 == t.memory[a]
    ensures !T.WordAccessible(t, a) ==> r == (t, bps)
  {
    match T.Peek(t, a)
    case None => (t, bps)
    case Some(w) =>
      T.PatchByteFrame(t, a, DT.SW_INTERRUPT_3);
      (T.Poke(t, a, T.WithLowByte(w, DT.SW_INTERRUPT_3)), bps + [WordBreakpoint(a, w, true)])
  }

  /** The first index whose address is `a`, or -1. */
  function FirstAt(bps: seq<WordBreakpoint>, a: u64): (k: int)
    ensures -1 <= k < |bps|
    ensures k >= 0 ==> bps[k].address == a
    ensures forall j :: 0 <= j < |bps| && (k == -1 || j < k) ==> bps[j].address != a
  {
    if bps == [] then -1
    else if bps[0].address == a then 0
    else
      var k := FirstAt(bps[1..], a);
      if k == -1 then -1 else k + 1
  }

  /** The globals `debug_state` and `breakpoints`, with the traced child. */
  class Session {
    var tracee: T.Tracee
    var breakpoints: seq<WordBreakpoint>
    const exec: T.ExecOracle

    constructor(child: T.Tracee, exec: T.ExecOracle)
      ensures tracee == child && breakpoints == [] && this.exec == exec
    {
      tracee := child;
      breakpoints := [];
      this.exec := exec;
    }

    method AddBreakpoint(a: u64)
      modifies this
      ensures (tracee, breakpoints) == AddWordBreakpoint(old(tracee), old(breakpoints), a)
    {
      var peeked := T.Peek(tracee, a);
      if peeked.Some? {
        var data := peeked.value;
        var bp := WordBreakpoint(a, data, true);
        tracee := T.Poke(tracee, a, T.WithLowByte(data, DT.SW_INTERRUPT_3));
        breakpoints := breakpoints + [bp];
      }
    }

    /** The loop over the list; nothing is written. */
    method CheckBreakpoints() returns (k: int)
      ensures k == FirstAt(breakpoints, DT.SubWrap(T.GetRegister(tracee, DT.REGISTER_RIP), 1))
    {
      var rip := DT.SubWrap(T.GetRegister(tracee, DT.REGISTER_RIP), 1);
      var i := 0;
      while i < |breakpoints|
        invariant 0 <= i <= |breakpoints|
        invariant forall j :: 0 <= j < i ==> breakpoints[j].address != rip
      {
        if breakpoints[i].address == rip {
          return i;
        }
        i := i + 1;
      }
      return -1;
    }

    /** `PTRACE_CONT`, `waitpid`, then the check; the index is returned and
      `rip` is left pointing after the trap. */
    method Continue() returns (k: int)
      modifies this
      ensures tracee == T.ResumeUntilStop(old(tracee), T.Cont, exec)
      ensures breakpoints == old(breakpoints)
      ensures k == FirstAt(breakpoints, DT.SubWrap(T.GetRegister(tracee, DT.REGISTER_RIP), 1))
    {
      tracee := T.ResumeUntilStop(tracee, T.Cont, exec);
      k := CheckBreakpoints();
    }

    /** `GetCommand` for the line `fgets` stored. */
    method GetCommand(line: string) returns (c: Command)
      requires FgetsLine(line) && ArgumentPresent(Tokens(Trim(line)))
      modifies this
      ensures c == Classify(Tokens(Trim(line))[0])
      ensures c == SetBreakpoint ==>
        (tracee, breakpoints) ==
          AddWordBreakpoint(old(tracee), old(breakpoints), ParseAddress(Tokens(Trim(line))[1]))
      ensures c != SetBreakpoint ==> tracee == old(tracee) && breakpoints == old(breakpoints)
    {
      var input, length := ReadLine(line);
      var strings := Tokenize(input, length);
      c := Classify(strings[0]);
      if c == SetBreakpoint {
        var addr := ParseAddress(strings[1]);
        AddBreakpoint(addr);
      }
    }

    /** The line in the `input` buffer, its newline cut off. */
    method ReadLine(line: string) returns (input: array<char>, length: nat)
      requires FgetsLine(line)
      ensures fresh(input) && input.Length == MAX_COMMAND
      ensures length < MAX_COMMAND && input[..length] == Trim(line) && input[length] == NUL
    {
      input := new char[MAX_COMMAND](_ => NUL);
      forall k | 0 <= k < |line| {
        input[k] := line[k];
      }
      length := |line|;
      if length > 0 && input[length - 1] == '\n' {
        input[length - 1] := NUL;
        length := length - 1;
      }
    }

    /** The split and the pointers it collects, read as C strings. */
    method Tokenize(input: array<char>, length: nat) returns (strings: seq<string>)
      requires length < input.Length && input[length] == NUL && NoNul(input[..length])
      modifies input
      ensures strings == Tokens(old(input[..length]))
    {
      ghost var s := input[..length];
      var starts := Split(input, length);
      ghost var pad := input[length..];
      assert input[..] == input[..length] + pad;
      assert pad[0] == NUL;
      SplitYieldsTokens(s, pad);
      strings := CStrings(input[..], starts);
    }
  }
}
