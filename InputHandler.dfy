/** `CInputHandler::ReadInput`: one key from the bytes the terminal has
    ready, with VT100/xterm escape sequences (the control-sequence
    introducer `ESC [` and single-shift-three `ESC O` of ECMA-48 section
    5.4) turned into the handler's special key codes. */
module KeyDecoder {
  import opened DebugTypes

  const KEY_CTRL_C: int := 3
  const KEY_ENTER: int := 13
  const KEY_ESC: int := 0x1b
  const KEY_BACKSPACE: int := 127
  const KEY_ARROW_LEFT: int := 1000
  const KEY_ARROW_RIGHT: int := 1001
  const KEY_ARROW_UP: int := 1002
  const KEY_ARROW_DOWN: int := 1003
  const KEY_DEL: int := 1004
  const KEY_HOME: int := 1005
  const KEY_END: int := 1006
  const KEY_PAGE_UP: int := 1007
  const KEY_PAGE_DOWN: int := 1008

  /** The keys `GetInput` hands to `ProcessKeyPress`. */
  predicate IsInputKey(k: int) {
    0 < k < 128 || KEY_ARROW_LEFT <= k <= KEY_PAGE_DOWN
  }

  /** A byte read into a (signed) `char` and returned as an `int`. */
  function Signed(b: u8): (v: int)
    ensures -128 <= v < 128 && (v + 256) % 256 == b
  {
    if b < 128 then b else b - 256
  }

  /** `ESC [ <digit> ~` */
  function TildeKey(d: u8): int {
    if d == '1' as u8 then KEY_HOME
    else if d == '3' as u8 then KEY_DEL
    else if d == '4' as u8 then KEY_END
    else if d == '5' as u8 then KEY_PAGE_UP
    else if d == '6' as u8 then KEY_PAGE_DOWN
    else if d == '7' as u8 then KEY_HOME
    else if d == '8' as u8 then KEY_END
    else 0
  }

  /** `ESC [ <letter>` */
  function BracketKey(c: u8): int {
    if c == 'A' as u8 then KEY_ARROW_UP
    else if c == 'B' as u8 then KEY_ARROW_DOWN
    else if c == 'C' as u8 then KEY_ARROW_RIGHT
    else if c == 'D' as u8 then KEY_ARROW_LEFT
    else if c == 'H' as u8 then KEY_HOME
    else if c == 'F' as u8 then KEY_END
    else 0
  }

  /** `ESC O <letter>` */
  function Ss3Key(c: u8): int {
    if c == 'H' as u8 then KEY_HOME
    else if c == 'F' as u8 then KEY_END
    else 0
  }

  /** `ReadInput` on the bytes available: the key, and the bytes left
      unread.  Every `read` that finds nothing ends the sequence: with no
      byte at all the result is 0, inside an escape sequence it is ESC.
      An unrecognised sequence gives 0. */
  function ReadInput(avail: seq<u8>): (r: (int, seq<u8>))
    ensures |r.1| <= |avail| && r.1 == avail[|avail| - |r.1|..]
    ensures avail == [] ==> r == (0, [])
    ensures avail != [] && avail[0] != 0x1b ==> r == (Signed(avail[0]), avail[1..])
    ensures r.0 > 0 ==> IsInputKey(r.0)
  {
    if avail == [] then (0, [])
    else if avail[0] != 0x1b then (Signed(avail[0]), avail[1..])
    else if |avail| < 3 then (KEY_ESC, [])
    else
      var s0, s1 := avail[1], avail[2];
      if s0 == '[' as u8 then
        if '0' as u8 <= s1 <= '9' as u8 then
          if |avail| < 4 then (KEY_ESC, [])
          else if avail[3] == '~' as u8 then (TildeKey(s1), avail[4..])
          else (0, avail[4..])
        else (BracketKey(s1), avail[3..])
      else if s0 == 'O' as u8 then (Ss3Key(s1), avail[3..])
      else (0, avail[3..])
  }

  /** The byte sequence a terminal sends for each key: the key itself
      below 128, `ESC [ <letter>` for the arrows, home and end, and
      `ESC [ <digit> ~` for delete and the page keys. */
  function KeyBytes(k: int): (bs: seq<u8>)
    requires IsInputKey(k)
    ensures |bs| > 0
  {
    if k < 128 then [k as u8]
    else if k == KEY_ARROW_UP then [0x1b, '[' as u8, 'A' as u8]
    else if k == KEY_ARROW_DOWN then [0x1b, '[' as u8, 'B' as u8]
    else if k == KEY_ARROW_RIGHT then [0x1b, '[' as u8, 'C' as u8]
    else if k == KEY_ARROW_LEFT then [0x1b, '[' as u8, 'D' as u8]
    else if k == KEY_HOME then [0x1b, '[' as u8, 'H' as u8]
    else if k == KEY_END then [0x1b, '[' as u8, 'F' as u8]
    else if k == KEY_DEL then [0x1b, '[' as u8, '3' as u8, '~' as u8]
    else if k == KEY_PAGE_UP then [0x1b, '[' as u8, '5' as u8, '~' as u8]
    else [0x1b, '[' as u8, '6' as u8, '~' as u8]
  }

  /** Decoding undoes encoding, and leaves what follows for the next call;
      a lone ESC is itself only when nothing follows it. */
  lemma DecodeKeyBytes(k: int, rest: seq<u8>)
    requires IsInputKey(k) && (k == KEY_ESC ==> rest == [])
    ensures ReadInput(KeyBytes(k) + rest) == (k, rest)
  {
    var bs := KeyBytes(k) + rest;
    if k < 128 {
      assert bs[1..] == rest;
    } else if k == KEY_DEL || k == KEY_PAGE_UP || k == KEY_PAGE_DOWN {
      assert bs[4..] == rest;
    } else {
      assert bs[3..] == rest;
    }
  }

  /** The alternative encodings of home and end, and the fall-backs. */
  lemma AlternativeSequences(rest: seq<u8>)
    ensures ReadInput([0x1b, '[' as u8, '1' as u8, '~' as u8] + rest).0 == KEY_HOME
    ensures ReadInput([0x1b, '[' as u8, '7' as u8, '~' as u8] + rest).0 == KEY_HOME
    ensures ReadInput([0x1b, 'O' as u8, 'H' as u8] + rest).0 == KEY_HOME
    ensures ReadInput([0x1b, '[' as u8, '4' as u8, '~' as u8] + rest).0 == KEY_END
    ensures ReadInput([0x1b, '[' as u8, '8' as u8, '~' as u8] + rest).0 == KEY_END
    ensures ReadInput([0x1b, 'O' as u8, 'F' as u8] + rest).0 == KEY_END
    ensures ReadInput([0x1b, '[' as u8, '2' as u8, '~' as u8] + rest).0 == 0
    ensures ReadInput([0x1b, '[' as u8, 'Z' as u8] + rest).0 == 0
    ensures ReadInput([0x1b, '[' as u8, '3' as u8]) == (KEY_ESC, [])
    ensures ReadInput([0x1b, '[' as u8]) == (KEY_ESC, [])
  {
  }
}

/** The line editor of `CInputHandler`: a 128-byte line buffer edited at
    a cursor, and a 50-entry history of whole line buffers. */
module LineEditor {
  import opened DebugTypes
  import opened KeyDecoder
  import Ring

  const MAX_LINE: nat := 128
  const MAX_HISTORY: nat := 50

  // ------------------------------------------------ C strings in a line

  predicate NoNul(t: seq<u8>) {
    forall k :: 0 <= k < |t| ==> t[k] != 0
  }

  /** `strlen`: the index of the first NUL (the length when there is none). */
  function Strlen(b: seq<u8>): (n: nat)
    ensures n <= |b| && NoNul(b[..n])
    ensures n < |b| ==> b[n] == 0
  {
    if b == [] || b[0] == 0 then 0 else 1 + Strlen(b[1..])
  }

  function Text(b: seq<u8>): (t: seq<u8>)
    ensures NoNul(t) && |t| == Strlen(b)
  {
    b[..Strlen(b)]
  }

  function Zeros(n: nat): (z: seq<u8>)
    ensures |z| == n && forall k :: 0 <= k < n ==> z[k] == 0
  {
    seq(n, _ => 0)
  }

  /** The line buffer holding the text `t`. */
  function Pad(t: seq<u8>): (b: seq<u8>)
    requires |t| < MAX_LINE
    ensures |b| == MAX_LINE && b[..|t|] == t
    ensures forall k :: |t| <= k < MAX_LINE ==> b[k] == 0
  {
    t + Zeros(MAX_LINE - |t|)
  }

  /** The invariant of `mLine`: some byte is NUL, and every byte after the
      first NUL is NUL too. */
  predicate IsLine(b: seq<u8>) {
    |b| == MAX_LINE && Strlen(b) < MAX_LINE &&
    forall k :: Strlen(b) <= k < MAX_LINE ==> b[k] == 0
  }

  lemma StrlenIs(b: seq<u8>, n: nat)
    requires n < |b| && NoNul(b[..n]) && b[n] == 0
    ensures Strlen(b) == n
  {
  }

  /** A text without NUL and its padded line determine each other. */
  lemma PadRoundTrip(t: seq<u8>)
    requires |t| < MAX_LINE && NoNul(t)
    ensures Strlen(Pad(t)) == |t| && Text(Pad(t)) == t && IsLine(Pad(t))
  {
    StrlenIs(Pad(t), |t|);
  }

  lemma LineIsPaddedText(b: seq<u8>)
    requires IsLine(b)
    ensures Pad(Text(b)) == b
  {
    var p := Pad(Text(b));
    assert forall k :: 0 <= k < MAX_LINE ==> p[k] == b[k] by {
      forall k | 0 <= k < MAX_LINE
        ensures p[k] == b[k]
      {
        if k < Strlen(b) {
          assert p[k] == p[..Strlen(b)][k];
        }
      }
    }
  }

  // --------------------------------------------------------- line edits

  /** `AddCharToLine` as it is meant to work: below 127 characters the key
      is inserted at the cursor and the cursor moves past it. */
  function InsertChar(line: seq<u8>, cursor: nat, key: u8): (r: (seq<u8>, nat))
    requires IsLine(line) && cursor <= Strlen(line) && key != 0
    ensures IsLine(r.0) && r.1 <= Strlen(r.0)
    ensures Strlen(line) < MAX_LINE - 1 ==>
      Text(r.0) == Text(line)[..cursor] + [key] + Text(line)[cursor..] && r.1 == cursor + 1
    ensures Strlen(line) == MAX_LINE - 1 ==> r == (line, cursor)
  {
    var t := Text(line);
    if |t| < MAX_LINE - 1 then
      var t1 := t[..cursor] + [key] + t[cursor..];
      PadRoundTrip(t1);
      (Pad(t1), cursor + 1)
    else (line, cursor)
  }

  /** `RemoveCharFromLine`: the character before the cursor goes. */
  function DeleteChar(line: seq<u8>, cursor: nat): (r: (seq<u8>, nat))
    requires IsLine(line) && cursor <= Strlen(line)
    ensures IsLine(r.0) && r.1 <= Strlen(r.0)
    ensures Strlen(line) > 0 && cursor > 0 ==>
      Text(r.0) == Text(line)[..cursor - 1] + Text(line)[cursor..] && r.1 == cursor - 1
    ensures !(Strlen(line) > 0 && cursor > 0) ==> r == (line, cursor)
  {
    var t := Text(line);
    if |t| > 0 && cursor > 0 then
      var t1 := t[..cursor - 1] + t[cursor..];
      PadRoundTrip(t1);
      (Pad(t1), cursor - 1)
    else (line, cursor)
  }

  /** Backspace undoes a key that was inserted. */
  lemma InsertThenDelete(line: seq<u8>, cursor: nat, key: u8)
    requires IsLine(line) && cursor <= Strlen(line) && key != 0 && Strlen(line) < MAX_LINE - 1
    ensures var (l1, c1) := InsertChar(line, cursor, key); DeleteChar(l1, c1) == (line, cursor)
  {
    var t := Text(line);
    var (l1, c1) := InsertChar(line, cursor, key);
    var (l2, c2) := DeleteChar(l1, c1);
    RemoveInserted(t, cursor, key, Text(l1));
    SameText(l2, line);
  }

  lemma RemoveInserted(t: seq<u8>, cursor: nat, key: u8, t1: seq<u8>)
    requires cursor <= |t| && t1 == t[..cursor] + [key] + t[cursor..]
    ensures t1[..cursor] + t1[cursor + 1..] == t
  {
    assert t1[..cursor] == t[..cursor];
    assert t1[cursor + 1..] == t[cursor..];
  }

  /** Two line buffers with the same text are the same buffer. */
  lemma SameText(a: seq<u8>, b: seq<u8>)
    requires IsLine(a) && IsLine(b) && Text(a) == Text(b)
    ensures a == b
  {
    LineIsPaddedText(a);
    LineIsPaddedText(b);
  }

  /** The layout the shift loop of `AddCharToLine` leaves is the inserted
      text, padded. */
  lemma InsertLayout(b: seq<u8>, c: seq<u8>, cursor: nat, key: u8)
    requires IsLine(b) && Strlen(b) < MAX_LINE - 1 && cursor <= Strlen(b) && key != 0
    requires |c| == MAX_LINE && c[cursor] == key
    requires forall k :: 0 <= k < cursor ==> c[k] == b[k]
    requires forall k :: cursor < k <= Strlen(b) + 1 ==> c[k] == b[k - 1]
    requires forall k :: Strlen(b) + 1 < k < MAX_LINE ==> c[k] == b[k]
    ensures (c, cursor + 1) == InsertChar(b, cursor, key)
  {
    var t := Text(b);
    var t1 := t[..cursor] + [key] + t[cursor..];
    var p := Pad(t1);
    forall k | 0 <= k < MAX_LINE
      ensures c[k] == p[k]
    {
      if k < cursor {
        assert p[k] == t1[k] == t[k] == b[k];
      } else if k == cursor {
        assert p[k] == t1[k];
      } else if k <= |t| {
        assert p[k] == t1[k] == t[k - 1] == b[k - 1];
      }
    }
    assert c == p;
  }

  /** The layout the shift loop of `RemoveCharFromLine` leaves is the text
      without the character before the cursor, padded. */
  lemma DeleteLayout(b: seq<u8>, c: seq<u8>, cursor: nat)
    requires IsLine(b) && 0 < cursor <= Strlen(b) && |c| == MAX_LINE
    requires forall k :: 0 <= k < cursor - 1 ==> c[k] == b[k]
    requires forall k :: cursor - 1 <= k < Strlen(b) ==> c[k] == b[k + 1]
    requires forall k :: Strlen(b) <= k < MAX_LINE ==> c[k] == 0
    ensures (c, cursor - 1) == DeleteChar(b, cursor)
  {
    var t := Text(b);
    var t1 := t[..cursor - 1] + t[cursor..];
    var p := Pad(t1);
    forall k | 0 <= k < MAX_LINE
      ensures c[k] == p[k]
    {
      if k < cursor - 1 {
        assert p[k] == t1[k] == t[k] == b[k];
      } else if k < |t| - 1 {
        assert p[k] == t1[k] == t[k + 1] == b[k + 1];
      }
    }
    assert c == p;
  }

  /** The text `CopyToLine` leaves: at most 127 characters. */
  function Clamp(n: nat): (m: nat)
    ensures m < MAX_LINE && (n < MAX_LINE ==> m == n) && (n >= MAX_LINE ==> m == MAX_LINE - 1)
  {
    if n > MAX_LINE - 1 then MAX_LINE - 1 else n
  }

  /** `CopyToLine` as it is meant to work: a null string clears the line;
      otherwise the string, cut to what the buffer holds with its NUL,
      replaces the line and the cursor goes to its end. */
  function CopiedLine(s: Option<seq<u8>>): (r: (seq<u8>, nat))
    requires s.Some? ==> NoNul(s.value)
    ensures IsLine(r.0) && r.1 == Strlen(r.0)
    ensures s.None? ==> r == (Zeros(MAX_LINE), 0)
    ensures s.Some? ==> r.1 == Clamp(|s.value|) && Text(r.0) == s.value[..r.1]
  {
    match s
    case None =>
      PadRoundTrip([]);
      assert Pad([]) == Zeros(MAX_LINE);
      (Zeros(MAX_LINE), 0)
    case Some(t) =>
      var len := Clamp(|t|);
      PadRoundTrip(t[..len]);
      (Pad(t[..len]), len)
  }

  // ------------------------------------------------- as written, at 128

  /** The shift loop of `AddCharToLine` as written: `i` runs from `len+1`
      down to the cursor and each step copies `line[i]` to `line[i+1]`;
      `None` when a step writes outside the buffer. */
  function ShiftAsWritten(b: seq<u8>, i: int, cursor: nat): (r: Option<seq<u8>>)
    requires 0 <= i + 1 <= |b|
    ensures r.Some? ==> |r.value| == |b|
    decreases i + 1
  {
    if i < cursor then Some(b)
    else if i + 1 >= |b| then None
    else ShiftAsWritten(b[i + 1 := b[i]], i - 1, cursor)
  }

  /** With 126 characters and the cursor inside the text, the first step
      already writes `mLine[128]`, one past the end of the buffer. */
  lemma AddCharOverrun(line: seq<u8>, cursor: nat)
    requires IsLine(line) && Strlen(line) == MAX_LINE - 2 && cursor < Strlen(line)
    ensures ShiftAsWritten(line, Strlen(line) + 1, cursor) == None
  {
  }

  /** One store `mLine[i] = v` into a buffer of `|b|` bytes; `None` when
      `i` is outside it. */
  function StoreByte(b: seq<u8>, i: nat, v: u8): (r: Option<seq<u8>>)
    ensures r.Some? <==> i < |b|
    ensures r.Some? ==> r.value == b[i := v]
  {
    if i < |b| then Some(b[i := v]) else None
  }

  /** The copy loop of `CopyToLine` as written, from index `i`: `s[i]` is
      stored at `i` while `i < len`; the buffer and the final `i` come back,
      or `None` at the first store outside the buffer. */
  function CopyLoopAsWritten(b: seq<u8>, s: seq<u8>, len: nat, i: nat): (r: Option<(seq<u8>, nat)>)
    requires i <= len <= |s| && i <= |b|
    ensures r.Some? <==> len <= |b|
    ensures r.Some? ==> |r.value.0| == |b| && r.value.1 == len
    ensures r.Some? ==> forall k :: 0 <= k < i ==> r.value.0[k] == b[k]
    ensures r.Some? ==> forall k :: i <= k < len ==> r.value.0[k] == s[k]
    decreases len - i
  {
    if i == len then Some((b, i))
    else
      match StoreByte(b, i, s[i])
      case None => None
      case Some(b1) => CopyLoopAsWritten(b1, s, len, i + 1)
  }

  /** The zeroing loop as written: 0 is stored at `i` while `i < MAX_LINE`. */
  function ZeroLoopAsWritten(b: seq<u8>, i: nat): (r: Option<(seq<u8>, nat)>)
    requires i <= |b|
    ensures r.Some? <==> i >= MAX_LINE || MAX_LINE <= |b|
    ensures r.Some? ==> |r.value.0| == |b| && r.value.1 == (if i < MAX_LINE then MAX_LINE else i)
    ensures r.Some? ==> forall k :: 0 <= k < i ==> r.value.0[k] == b[k]
    ensures r.Some? ==> forall k :: i <= k < MAX_LINE ==> r.value.0[k] == 0
    decreases MAX_LINE - i
  {
    if i >= MAX_LINE then Some((b, i))
    else
      match StoreByte(b, i, 0)
      case None => None
      case Some(b1) => ZeroLoopAsWritten(b1, i + 1)
  }

  /** `CopyToLine` with a string, as written, over a buffer `b`: the length
      is cut to `MAX_LINE`, the two loops run, and `mLine[i] = 0` is stored
      with the `i` they leave; the new buffer and cursor, or `None` at the
      first store outside the buffer. */
  function CopyStringAsWritten(b: seq<u8>, s: seq<u8>): (r: Option<(seq<u8>, nat)>)
  {
    var len := if |s| > MAX_LINE then MAX_LINE else |s|;
    match CopyLoopAsWritten(b, s, len, 0)
    case None => None
    case Some((b1, i1)) =>
      match ZeroLoopAsWritten(b1, i1)
      case None => None
      case Some((b2, i2)) =>
        match StoreByte(b2, i2, 0)
        case None => None
        case Some(b3) => Some((b3, len))
  }

  /** Into the 128-byte line, every copy of a string stores outside the
      buffer: the loops leave `i` at 128 for the final store. */
  lemma CopyToLineOverrun(line: seq<u8>, s: seq<u8>)
    requires |line| == MAX_LINE
    ensures CopyStringAsWritten(line, s) == None
  {
    var len := if |s| > MAX_LINE then MAX_LINE else |s|;
    var c := CopyLoopAsWritten(line, s, len, 0);
    assert c.Some? && |c.value.0| == MAX_LINE && c.value.1 == len;
    var z := ZeroLoopAsWritten(c.value.0, c.value.1);
    assert z.Some? && |z.value.0| == MAX_LINE && z.value.1 == MAX_LINE;
  }

  /** Even with one more byte for that store to land in, a string of 128 or
      more characters (none of them NUL) leaves no NUL among the 128 bytes
      of the line. */
  lemma CopyLeavesNoNul(b: seq<u8>, s: seq<u8>)
    requires |b| == MAX_LINE + 1 && |s| >= MAX_LINE && NoNul(s)
    ensures CopyStringAsWritten(b, s).Some?
    ensures NoNul(CopyStringAsWritten(b, s).value.0[..MAX_LINE])
  {
    var c := CopyLoopAsWritten(b, s, MAX_LINE, 0);
    assert c.Some? && |c.value.0| == |b| && c.value.1 == MAX_LINE;
    var z := ZeroLoopAsWritten(c.value.0, MAX_LINE);
    assert z == Some((c.value.0, MAX_LINE));
    var r := CopyStringAsWritten(b, s).value.0;
    assert r == c.value.0[MAX_LINE := 0];
    forall k | 0 <= k < MAX_LINE
      ensures r[..MAX_LINE][k] != 0
    {
      assert r[k] == c.value.0[k] == s[k];
    }
  }

  // --------------------------------------------------------------- keys

  /** The state `ProcessKeyPress` works on: `mLine`, `mCursorCol`, the
      history entries oldest first (each a copy of a whole line buffer)
      and `mHistoryIndex`. */
  datatype Editor = Editor(line: seq<u8>, cursor: nat, history: seq<seq<u8>>, historyIndex: nat)

  /** No two neighbouring history entries hold the same text, and none is
      empty. */
  predicate HistoryShape(h: seq<seq<u8>>) {
    (forall i :: 0 <= i < |h| ==> IsEntry(h[i])) &&
    (forall i :: 0 < i < |h| ==> DiffersFromPrevious(h, i))
  }

  /** A stored entry: a line buffer holding some text. */
  predicate IsEntry(b: seq<u8>) {
    IsLine(b) && Strlen(b) > 0
  }

  /** Entry `i` holds other text than the entry before it. */
  predicate DiffersFromPrevious(h: seq<seq<u8>>, i: nat)
    requires 0 < i < |h|
  {
    Text(h[i - 1]) != Text(h[i])
  }

  predicate EditorValid(e: Editor) {
    IsLine(e.line) && e.cursor <= Strlen(e.line) &&
    |e.history| <= MAX_HISTORY && e.historyIndex <= |e.history| &&
    HistoryShape(e.history)
  }

  /** `PeekAt(i)` read as a C string: null past the newest entry. */
  function Entry(h: seq<seq<u8>>, i: nat): (r: Option<seq<u8>>)
    ensures r.Some? ==> NoNul(r.value)
    ensures r.Some? <==> i < |h|
  {
    if i < |h| then Some(Text(h[i])) else None
  }

  /** Whether Enter stores the line: it is not empty and differs from the
      newest entry. */
  predicate Adds(e: Editor) {
    Strlen(e.line) > 0 && (e.history == [] || Text(e.line) != Text(e.history[|e.history| - 1]))
  }

  function EnterKey(e: Editor): (r: Editor)
    requires EditorValid(e)
    ensures EditorValid(r)
    ensures r.cursor == 0 && r.historyIndex == |r.history|
    ensures Adds(e) ==> r.history == Ring.PushedBack(e.history, e.line, MAX_HISTORY) && r.line == e.line
    ensures !Adds(e) ==> r.history == e.history
    ensures !Adds(e) && e.history != [] ==> Text(r.line) == Text(e.history[|e.history| - 1])
    ensures !Adds(e) && e.history == [] ==> r.line == e.line
  {
    var e1 :=
      if Adds(e) then
        PushKeepsShape(e.history, e.line);
        e.(history := Ring.PushedBack(e.history, e.line, MAX_HISTORY))
      else if e.history != [] then
        var last := Text(e.history[|e.history| - 1]);
        var (l, c) := CopiedLine(Some(last));
        assert Text(l) == last by {
          assert Clamp(|last|) == |last|;
        }
        e.(line := l, cursor := c)
      else e;
    e1.(cursor := 0, historyIndex := |e1.history|)
  }

  /** An editor with Enter's line and history, the cursor at 0 and the
      index past the newest entry is what Enter leaves. */
  lemma EnterKeyParts(e: Editor, r: Editor)
    requires EditorValid(e)
    requires r.line == EnterKey(e).line && r.history == EnterKey(e).history
    requires r.cursor == 0 && r.historyIndex == |r.history|
    ensures r == EnterKey(e)
  {
  }

  lemma PushKeepsShape(h: seq<seq<u8>>, line: seq<u8>)
    requires HistoryShape(h) && |h| <= MAX_HISTORY && IsLine(line) && Strlen(line) > 0
    requires h == [] || Text(line) != Text(h[|h| - 1])
    ensures HistoryShape(Ring.PushedBack(h, line, MAX_HISTORY))
  {
    var r := Ring.PushedBack(h, line, MAX_HISTORY);
    var d := if |h| == MAX_HISTORY then 1 else 0;
    assert forall i :: 0 <= i < |r| - 1 ==> r[i] == h[i + d];
    forall i | 0 <= i < |r|
      ensures IsEntry(r[i])
    {
      if i < |r| - 1 {
        assert IsEntry(h[i + d]);
      }
    }
    forall i | 0 < i < |r|
      ensures DiffersFromPrevious(r, i)
    {
      if i < |r| - 1 {
        assert DiffersFromPrevious(h, i + d);
      }
    }
  }

  /** The line Enter leaves when it does not store is the newest entry
      copied back, buffer for buffer. */
  lemma EnterRecallsNewest(e: Editor, l: seq<u8>, c: nat)
    requires EditorValid(e) && !Adds(e) && e.history != []
    requires (l, c) == CopiedLine(Some(Text(e.history[|e.history| - 1])))
    ensures l == EnterKey(e).line
  {
    var last := Text(e.history[|e.history| - 1]);
    assert Clamp(|last|) == |last|;
    LineIsPaddedText(l);
    LineIsPaddedText(EnterKey(e).line);
  }

  /** Load history entry `i` (or clear the line past the newest). */
  function Recall(e: Editor, i: nat): (r: Editor)
    requires EditorValid(e) && i <= |e.history|
    ensures EditorValid(r) && r.history == e.history && r.historyIndex == i
    ensures (r.line, r.cursor) == CopiedLine(Entry(e.history, i))
  {
    var (l, c) := CopiedLine(Entry(e.history, i));
    e.(line := l, cursor := c, historyIndex := i)
  }

  lemma RecallParts(e: Editor, i: nat, r: Editor)
    requires EditorValid(e) && i <= |e.history|
    requires (r.line, r.cursor) == CopiedLine(Entry(e.history, i))
    requires r.history == e.history && r.historyIndex == i
    ensures r == Recall(e, i)
  {
  }

  lemma DownRecalls(e: Editor, i: nat)
    requires EditorValid(e) && e.historyIndex < |e.history| && i == e.historyIndex + 1
    ensures HistoryKey(e, KEY_ARROW_DOWN) == Recall(e, i)
  {
  }

  lemma DownClears(e: Editor, r: Editor)
    requires EditorValid(e) && e.historyIndex == |e.history|
    requires r.line == Zeros(MAX_LINE) && r.cursor == 0
    requires r.history == e.history && r.historyIndex == e.historyIndex
    ensures HistoryKey(e, KEY_ARROW_DOWN) == r
  {
  }

  lemma UpRecalls(e: Editor, i: nat)
    requires EditorValid(e) && 0 < e.historyIndex && i == e.historyIndex - 1
    ensures HistoryKey(e, KEY_ARROW_UP) == Recall(e, i)
  {
  }

  lemma UpStops(e: Editor)
    requires EditorValid(e) && e.historyIndex == 0
    ensures HistoryKey(e, KEY_ARROW_UP) == e
  {
  }

  predicate IsHistoryKey(key: int) {
    key == KEY_ARROW_DOWN || key == KEY_ARROW_UP
  }

  predicate IsCursorKey(key: int) {
    key == KEY_ARROW_LEFT || key == KEY_ARROW_RIGHT || key == KEY_HOME || key == KEY_END
  }

  /** Down moves towards the newest entry and clears the line past it; Up
      moves towards the oldest and stops there. */
  function HistoryKey(e: Editor, key: int): (r: Editor)
    requires EditorValid(e) && IsHistoryKey(key)
    ensures EditorValid(r) && r.history == e.history
  {
    if key == KEY_ARROW_DOWN then
      if e.historyIndex < |e.history| then Recall(e, e.historyIndex + 1)
      else e.(line := CopiedLine(None).0, cursor := 0)
    else
      if e.historyIndex > 0 then Recall(e, e.historyIndex - 1) else e
  }

  function CursorKey(e: Editor, key: int): (r: Editor)
    requires EditorValid(e) && IsCursorKey(key)
    ensures EditorValid(r)
  {
    if key == KEY_ARROW_LEFT then
      if e.cursor > 0 then e.(cursor := e.cursor - 1) else e
    else if key == KEY_ARROW_RIGHT then
      if e.cursor < Strlen(e.line) then e.(cursor := e.cursor + 1) else e
    else if key == KEY_HOME then e.(cursor := 0)
    else e.(cursor := Strlen(e.line))
  }

  /** `ProcessKeyPress`, its terminal output left out. */
  function Step(e: Editor, key: int): (r: Editor)
    requires EditorValid(e) && IsInputKey(key)
    ensures EditorValid(r)
  {
    if key == KEY_CTRL_C then e
    else if key == KEY_BACKSPACE then
      var (l, c) := DeleteChar(e.line, e.cursor);
      e.(line := l, cursor := c)
    else if key == KEY_ENTER then EnterKey(e)
    else if IsHistoryKey(key) then HistoryKey(e, key)
    else if IsCursorKey(key) then CursorKey(e, key)
    else
      // DEL and the page keys arrive here too, truncated to a `char`.
      var (l, c) := InsertChar(e.line, e.cursor, key % 256);
      e.(line := l, cursor := c)
  }

  /** Cursor motion never changes the line or the history, and keeps the
      cursor within `[0, strlen]`. */
  lemma MotionKeepsText(e: Editor, key: int)
    requires EditorValid(e)
    requires key in {KEY_ARROW_LEFT, KEY_ARROW_RIGHT, KEY_HOME, KEY_END}
    ensures var r := Step(e, key);
      r.line == e.line && r.history == e.history && r.historyIndex == e.historyIndex &&
      (key == KEY_HOME ==> r.cursor == 0) &&
      (key == KEY_END ==> r.cursor == Strlen(e.line)) &&
      (key == KEY_ARROW_LEFT ==> r.cursor == if e.cursor > 0 then e.cursor - 1 else 0) &&
      (key == KEY_ARROW_RIGHT ==> r.cursor == if e.cursor < Strlen(e.line) then e.cursor + 1 else e.cursor)
  {
  }

  /** A line that Enter stores is what Up brings back first. */
  lemma EnterThenUpRecalls(e: Editor)
    requires EditorValid(e) && Adds(e)
    ensures var e1 := Step(e, KEY_ENTER); var e2 := Step(e1, KEY_ARROW_UP);
      Text(e2.line) == Text(e.line) && e2.cursor == Strlen(e.line) &&
      e2.historyIndex == |e1.history| - 1
  {
    var e1 := Step(e, KEY_ENTER);
    assert e1.history[|e1.history| - 1] == e.line;
    assert Clamp(Strlen(e.line)) == Strlen(e.line);
  }

  /** Up then Down returns to the same history position, and loads the
      entry there, or an empty line at the newest position. */
  lemma UpThenDown(e: Editor)
    requires EditorValid(e) && e.historyIndex > 0
    ensures var r := Step(Step(e, KEY_ARROW_UP), KEY_ARROW_DOWN);
      r.historyIndex == e.historyIndex && r.history == e.history &&
      (r.line, r.cursor) == CopiedLine(Entry(e.history, e.historyIndex)) &&
      (e.historyIndex == |e.history| ==> Strlen(r.line) == 0)
  {
    var e1 := Step(e, KEY_ARROW_UP);
    assert e1.historyIndex == e.historyIndex - 1;
  }

  /** Enter on an empty line brings back the newest entry. */
  lemma EnterOnEmptyLineRepeats(e: Editor)
    requires EditorValid(e) && Strlen(e.line) == 0 && e.history != []
    ensures var r := Step(e, KEY_ENTER);
      Text(r.line) == Text(e.history[|e.history| - 1]) && r.history == e.history && r.cursor == 0
  {
  }

  // ------------------------------------------------------------- class

  /** The two loops of `CopyToLine`: the first `len` bytes of `t`, then
      NUL up to the end of the buffer. */
  method FillLine(a: array<u8>, t: seq<u8>, len: nat)
    requires a.Length == MAX_LINE && len <= |t| && len < MAX_LINE
    modifies a
    ensures a[..] == Pad(t[..len])
  {
    var i := 0;
    while i < len
      invariant 0 <= i <= len
      invariant forall k :: 0 <= k < i ==> a[k] == t[k]
    {
      a[i] := t[i];
      i := i + 1;
    }
    while i < MAX_LINE
      invariant len <= i <= MAX_LINE
      invariant forall k :: 0 <= k < len ==> a[k] == t[k]
      invariant forall k :: len <= k < i ==> a[k] == 0
    {
      a[i] := 0;
      i := i + 1;
    }
    assert a[..] == Pad(t[..len]);
  }

  /** `line[i+1] = line[i]` for `i` from `len` down to `cursor`. */
  method ShiftRight(a: array<u8>, cursor: nat, len: nat)
    requires cursor <= len && len + 1 < a.Length
    modifies a
    ensures forall k :: 0 <= k <= cursor ==> a[k] == old(a[k])
    ensures forall k :: cursor < k <= len + 1 ==> a[k] == old(a[k - 1])
    ensures forall k :: len + 1 < k < a.Length ==> a[k] == old(a[k])
  {
    var i: int := len;
    while i >= cursor
      invariant cursor - 1 <= i <= len
      invariant forall k :: 0 <= k <= i + 1 ==> a[k] == old(a[k])
      invariant forall k :: i + 1 < k <= len + 1 ==> a[k] == old(a[k - 1])
      invariant forall k :: len + 1 < k < a.Length ==> a[k] == old(a[k])
    {
      a[i + 1] := a[i];
      i := i - 1;
    }
  }

  /** The edit `AddCharToLine` makes on the line buffer below 127
      characters. */
  method InsertAt(a: array<u8>, cursor: nat, len: nat, key: u8)
    requires a.Length == MAX_LINE && IsLine(a[..]) && len == Strlen(a[..])
    requires cursor <= len < MAX_LINE - 1 && key != 0
    modifies a
    ensures a[..] == InsertChar(old(a[..]), cursor, key).0
  {
    ghost var b := a[..];
    if cursor < len {
      ShiftRight(a, cursor, len);
      a[cursor] := key;
    } else {
      a[len] := key;
      assert b[len + 1] == 0;
    }
    InsertLayout(b, a[..], cursor, key);
  }

  /** `line[i] = line[i+1]` for `i` from `from` up to `len - 1`. */
  method ShiftLeft(a: array<u8>, from: nat, len: nat)
    requires from < len < a.Length
    modifies a
    ensures forall k :: 0 <= k < from ==> a[k] == old(a[k])
    ensures forall k :: from <= k < len ==> a[k] == old(a[k + 1])
    ensures forall k :: len <= k < a.Length ==> a[k] == old(a[k])
  {
    var i := from;
    while i < len
      invariant from <= i <= len
      invariant forall k :: 0 <= k < from ==> a[k] == old(a[k])
      invariant forall k :: from <= k < i ==> a[k] == old(a[k + 1])
      invariant forall k :: i <= k < a.Length ==> a[k] == old(a[k])
    {
      a[i] := a[i + 1];
      i := i + 1;
    }
  }

  /** The edit `RemoveCharFromLine` makes on the line buffer. */
  method DeleteBefore(a: array<u8>, cursor: nat, len: nat)
    requires a.Length == MAX_LINE && IsLine(a[..]) && len == Strlen(a[..]) && 0 < cursor <= len
    modifies a
    ensures a[..] == DeleteChar(old(a[..]), cursor).0
  {
    ghost var b := a[..];
    if cursor < len {
      ShiftLeft(a, cursor - 1, len);
    } else {
      a[len - 1] := 0;
    }
    DeleteLayout(b, a[..], cursor);
  }

  class InputHandler {
    /** `mLine` */
    var line: array<u8>
    /** `mCursorCol` */
    var cursorCol: nat
    /** `mHistoryIndex` */
    var historyIndex: nat
    /** `mHistory`: entries are copies of the whole line buffer. */
    var history: Ring.RingBuffer<seq<u8>>

    ghost function Abstract(): Editor
      reads this, line, history
    {
      Editor(line[..], cursorCol, history.Contents, historyIndex)
    }

    /** What the line edits need. */
    ghost predicate LineValid()
      reads this`line, this`cursorCol, line
    {
      line.Length == MAX_LINE && IsLine(line[..]) && cursorCol <= Strlen(line[..])
    }

    /** What the history needs: a ring of 50 line buffers, apart from the
        handler and its line. */
    ghost predicate HistoryValid()
      reads this`line, this`history, history, history.Repr
    {
      history.Valid() && history.max == MAX_HISTORY &&
      line !in history.Repr && this !in history.Repr &&
      HistoryShape(history.Contents)
    }

    ghost predicate Valid()
      reads this, line, history, history.Repr
      ensures Valid() ==> EditorValid(Abstract())
    {
      LineValid() && HistoryValid() && historyIndex <= |history.Contents|
    }

    constructor()
      ensures Valid() && fresh(line) && fresh(history.Repr)
      ensures Abstract() == Editor(Zeros(MAX_LINE), 0, [], 0)
    {
      line := new u8[MAX_LINE](_ => 0);
      cursorCol := 0;
      historyIndex := 0;
      history := new Ring.RingBuffer<seq<u8>>(MAX_HISTORY);
      new;
      assert line[..] == Zeros(MAX_LINE);
      PadRoundTrip([]);
      assert Pad([]) == Zeros(MAX_LINE);
    }

    method ClearLine()
      requires line.Length == MAX_LINE && HistoryValid()
      modifies this`cursorCol, line
      ensures LineValid() && HistoryValid() && line[..] == Zeros(MAX_LINE) && cursorCol == 0
    {
      var i := 0;
      while i < MAX_LINE
        invariant 0 <= i <= MAX_LINE
        invariant forall k :: 0 <= k < i ==> line[k] == 0
        modifies line
      {
        line[i] := 0;
        i := i + 1;
      }
      cursorCol := 0;
      assert line[..] == Zeros(MAX_LINE);
      PadRoundTrip([]);
      assert Pad([]) == Zeros(MAX_LINE);
    }

    /** Insert at the cursor: shift the tail one place right, from the
        NUL at `len` down to the cursor, then store the key. */
    method AddCharToLine(key: u8)
      requires LineValid() && key != 0
      modifies this`cursorCol, line
      ensures LineValid()
      ensures (line[..], cursorCol) == InsertChar(old(line[..]), old(cursorCol), key)
    {
      var len := Strlen(line[..]);
      if len < MAX_LINE - 1 {
        InsertAt(line, cursorCol, len, key);
        cursorCol := cursorCol + 1;
      }
    }

    /** Delete before the cursor: shift the tail one place left over it,
        or clear the last character when the cursor is at the end. */
    method RemoveCharFromLine()
      requires LineValid()
      modifies this`cursorCol, line
      ensures LineValid()
      ensures (line[..], cursorCol) == DeleteChar(old(line[..]), old(cursorCol))
    {
      var len := Strlen(line[..]);
      if len > 0 && cursorCol > 0 {
        DeleteBefore(line, cursorCol, len);
        cursorCol := cursorCol - 1;
      }
    }

    /** Copy a string into the line (a null string clears it), with the
        length clamped to 127 so that the NUL stays inside the buffer. */
    method CopyToLine(s: Option<seq<u8>>)
      requires line.Length == MAX_LINE && HistoryValid() && (s.Some? ==> NoNul(s.value))
      modifies this`cursorCol, line
      ensures LineValid() && HistoryValid()
      ensures (line[..], cursorCol) == CopiedLine(s)
    {
      if s.Some? {
        var t := s.value;
        var len := |t|;
        if len > MAX_LINE - 1 {
          len := MAX_LINE - 1;
        }
        FillLine(line, t, len);
        cursorCol := len;
        PadRoundTrip(t[..len]);
      } else {
        ClearLine();
      }
    }

    method ProcessKeyPress(key: int)
      requires Valid() && IsInputKey(key) && history.tail + 1 < 0x1_0000_0000
      modifies this`cursorCol, this`historyIndex, line, history.Repr
      ensures Valid() && history.Repr == old(history.Repr)
      ensures Abstract() == Step(old(Abstract()), key)
      ensures history.tail ==
        old(history.tail) + (if key == KEY_ENTER && Adds(old(Abstract())) then 1 else 0)
    {
      if key == KEY_CTRL_C {
      } else if key == KEY_BACKSPACE {
        RemoveCharFromLine();
      } else if key == KEY_ENTER {
        HandleEnter();
      } else if IsHistoryKey(key) {
        HandleHistoryKey(key);
      } else if IsCursorKey(key) {
        HandleCursorKey(key);
      } else {
        AddCharToLine(key % 256);
      }
    }

    /** The Down and Up branches of `ProcessKeyPress`. */
    method HandleHistoryKey(key: int)
      requires Valid() && IsHistoryKey(key)
      modifies this`cursorCol, this`historyIndex, line
      ensures Valid()
      ensures Abstract() == HistoryKey(old(Abstract()), key)
    {
      if key == KEY_ARROW_DOWN {
        HistoryDown();
      } else {
        HistoryUp();
      }
    }

    /** Down: the next newer entry, or a cleared line past the newest. */
    method HistoryDown()
      requires Valid()
      modifies this`cursorCol, this`historyIndex, line
      ensures Valid()
      ensures Abstract() == HistoryKey(old(Abstract()), KEY_ARROW_DOWN)
    {
      ghost var e := Abstract();
      var size := history.Size();
      if historyIndex < size {
        var i := historyIndex + 1;
        LoadEntry(i);
        DownRecalls(e, i);
      } else {
        ClearLine();
        DownClears(e, Abstract());
      }
    }

    /** Up: the next older entry, if there is one. */
    method HistoryUp()
      requires Valid()
      modifies this`cursorCol, this`historyIndex, line
      ensures Valid()
      ensures Abstract() == HistoryKey(old(Abstract()), KEY_ARROW_UP)
    {
      ghost var e := Abstract();
      if historyIndex > 0 {
        var i := historyIndex - 1;
        LoadEntry(i);
        UpRecalls(e, i);
      } else {
        UpStops(e);
      }
    }

    /** The Left, Right, Home and End branches of `ProcessKeyPress`. */
    method HandleCursorKey(key: int)
      requires Valid() && IsCursorKey(key)
      modifies this`cursorCol
      ensures Valid()
      ensures Abstract() == CursorKey(old(Abstract()), key)
    {
      if key == KEY_ARROW_LEFT {
        if cursorCol > 0 {
          cursorCol := cursorCol - 1;
        }
      } else if key == KEY_ARROW_RIGHT {
        if cursorCol < Strlen(line[..]) {
          cursorCol := cursorCol + 1;
        }
      } else if key == KEY_HOME {
        cursorCol := 0;
      } else {
        cursorCol := Strlen(line[..]);
      }
    }

    /** The new `mHistoryIndex`, then `CopyToLine(PeekAt(mHistoryIndex))`. */
    method LoadEntry(i: nat)
      requires Valid() && i <= |history.Contents|
      modifies this`cursorCol, this`historyIndex, line
      ensures Valid()
      ensures Abstract() == Recall(old(Abstract()), i)
    {
      ghost var e := Abstract();
      historyIndex := i;
      var p := history.PeekAt(i);
      if p.Some? {
        CopyToLine(Some(Text(p.value)));
      } else {
        CopyToLine(None);
      }
      RecallParts(e, i, Abstract());
    }

    /** The test of the Enter branch: a non-empty line that `strcmp` finds
        different from the newest entry. */
    method ShouldStore() returns (add: bool)
      requires LineValid() && HistoryValid()
      ensures add == Adds(Abstract())
    {
      var len := Strlen(line[..]);
      add := false;
      if len > 0 {
        var size := history.Size();
        if size > 0 {
          var last := history.PeekAt(size - 1);
          if Text(line[..]) != Text(last.value) {
            add := true;
          }
        } else {
          add := true;
        }
      }
    }

    /** `mHistory.PushBack(&mLine)` */
    method StoreLine()
      requires LineValid() && HistoryValid() && Adds(Abstract()) && history.tail + 1 < 0x1_0000_0000
      modifies history.Repr
      ensures LineValid() && HistoryValid() && history.Repr == old(history.Repr)
      ensures history.Contents == Ring.PushedBack(old(history.Contents), line[..], MAX_HISTORY)
      ensures history.tail == old(history.tail) + 1
    {
      PushKeepsShape(history.Contents, line[..]);
      history.PushBack(line[..]);
    }

    /** `CopyToLine(mHistory.PeekAt(Size() - 1))` when there is an entry. */
    method RecallNewest()
      requires LineValid() && HistoryValid()
      modifies this`cursorCol, line
      ensures LineValid() && HistoryValid()
      ensures history.Contents != [] ==>
        (line[..], cursorCol) == CopiedLine(Some(Text(history.Contents[|history.Contents| - 1])))
      ensures history.Contents == [] ==> line[..] == old(line[..]) && cursorCol == old(cursorCol)
    {
      var size := history.Size();
      if size > 0 {
        var last := history.PeekAt(size - 1);
        CopyToLine(Some(Text(last.value)));
      }
    }

    /** The first half of the Enter branch: store the line, or load the
        newest entry into it. */
    method StoreOrRecall()
      requires Valid() && history.tail + 1 < 0x1_0000_0000
      modifies this`cursorCol, line, history.Repr
      ensures LineValid() && HistoryValid() && history.Repr == old(history.Repr)
      ensures line[..] == EnterKey(old(Abstract())).line
      ensures history.Contents == EnterKey(old(Abstract())).history
      ensures history.tail == old(history.tail) + (if Adds(old(Abstract())) then 1 else 0)
    {
      var add := ShouldStore();
      if add {
        StoreEntered();
      } else {
        RecallEntered();
      }
    }

    /** A line that Enter stores goes to the back of the history. */
    method StoreEntered()
      requires Valid() && Adds(Abstract()) && history.tail + 1 < 0x1_0000_0000
      modifies history.Repr
      ensures LineValid() && HistoryValid() && history.Repr == old(history.Repr)
      ensures line[..] == EnterKey(old(Abstract())).line
      ensures history.Contents == EnterKey(old(Abstract())).history
      ensures history.tail == old(history.tail) + 1
    {
      StoreLine();
    }

    /** A line that Enter does not store is replaced by the newest entry. */
    method RecallEntered()
      requires Valid() && !Adds(Abstract())
      modifies this`cursorCol, line
      ensures LineValid() && HistoryValid()
      ensures line[..] == EnterKey(old(Abstract())).line
      ensures history.Contents == EnterKey(old(Abstract())).history
    {
      ghost var e := Abstract();
      RecallNewest();
      if e.history != [] {
        EnterRecallsNewest(e, line[..], cursorCol);
      }
    }

    /** The Enter branch of `ProcessKeyPress`. */
    method HandleEnter()
      requires Valid() && history.tail + 1 < 0x1_0000_0000
      modifies this`cursorCol, this`historyIndex, line, history.Repr
      ensures Valid() && history.Repr == old(history.Repr)
      ensures Abstract() == EnterKey(old(Abstract()))
      ensures history.tail == old(history.tail) + (if Adds(old(Abstract())) then 1 else 0)
    {
      ghost var e := Abstract();
      StoreOrRecall();
      ResetPosition();
      EnterKeyParts(e, Abstract());
    }

    /** `mCursorCol = 0; mHistoryIndex = mHistory.Size()` after Enter. */
    method ResetPosition()
      requires LineValid() && HistoryValid()
      modifies this`cursorCol, this`historyIndex
      ensures Valid()
      ensures Abstract() == Editor(line[..], 0, history.Contents, |history.Contents|)
    {
      cursorCol := 0;
      var size := history.Size();
      historyIndex := size;
    }
  }
}
