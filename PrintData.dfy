/** `CPrintData`: a hex dump of a byte buffer, 16 bytes a line, built by
    appending to one static character buffer that is reallocated when a
    dump needs more room. */
module HexDump {
  import opened DebugTypes

  type i32 = x: int | -0x8000_0000 <= x < 0x8000_0000

  const BYTES_PER_LINE: nat := 16
  const CHARS_PER_LINE: nat := 80

  // ------------------------------------------------------------- digits

  function HexDigit(v: nat): (c: char)
    requires v < 16
  {
    if v < 10 then ('0' as int + v) as char else ('a' as int + v - 10) as char
  }

  function DigitValue(c: char): nat {
    if '0' <= c <= '9' then c as nat - '0' as nat
    else if 'a' <= c <= 'f' then c as nat - 'a' as nat + 10
    else 0
  }

  function Pow16(w: nat): (p: nat)
    ensures p > 0
  {
    if w == 0 then 1 else 16 * Pow16(w - 1)
  }

  /** `%0<w>x`: `w` lowercase hex digits, most significant first. */
  function HexN(n: nat, w: nat): (s: seq<char>)
    ensures |s| == w
  {
    if w == 0 then [] else HexN(n / 16, w - 1) + [HexDigit(n % 16)]
  }

  /** Reading hex digits back. */
  function HexValue(s: seq<char>): nat {
    if s == [] then 0 else 16 * HexValue(s[..|s| - 1]) + DigitValue(s[|s| - 1])
  }

  lemma {:induction false} HexNRoundTrip(n: nat, w: nat)
    requires n < Pow16(w)
    ensures HexValue(HexN(n, w)) == n
  {
    if w > 0 {
      var s := HexN(n, w);
      HexNLast(n, w);
      QuotientBelow(n, Pow16(w - 1));
      HexNRoundTrip(n / 16, w - 1);
      DigitRoundTrip(n % 16);
      ValueOfLast(s, HexN(n / 16, w - 1), HexDigit(n % 16), n / 16, n % 16);
    }
  }

  lemma HexNLast(n: nat, w: nat)
    requires w > 0
    ensures var s := HexN(n, w); s[..|s| - 1] == HexN(n / 16, w - 1) && s[|s| - 1] == HexDigit(n % 16)
  {
  }

  /** The value of digits `init` followed by the digit `last`. */
  lemma ValueOfLast(s: seq<char>, init: seq<char>, last: char, hi: nat, lo: nat)
    requires s != [] && s[..|s| - 1] == init && s[|s| - 1] == last
    requires HexValue(init) == hi && DigitValue(last) == lo
    ensures HexValue(s) == 16 * hi + lo
  {
  }

  lemma QuotientBelow(n: nat, p: nat)
    requires n < 16 * p
    ensures n / 16 < p
  {
  }

  lemma DigitRoundTrip(v: nat)
    requires v < 16
    ensures DigitValue(HexDigit(v)) == v
  {
  }

  /** `%02x` of a byte. */
  function Hex2(b: u8): (s: seq<char>)
    ensures |s| == 2
  {
    HexN(b, 2)
  }

  function DecDigit(v: nat): (c: char)
    requires v < 10
  {
    "0123456789"[v]
  }

  /** `%0<w>d` for a value that fits in `w` digits. */
  function Dec(n: nat, w: nat): (s: seq<char>)
    ensures |s| == w
  {
    if w == 0 then [] else Dec(n / 10, w - 1) + [DecDigit(n % 10)]
  }

  // -------------------------------------------------------- time stamp

  /** What `gettimeofday` and `localtime` report. */
  datatype Clock = Clock(hour: nat, minute: nat, second: nat, usec: nat)

  predicate ClockValid(c: Clock) {
    c.hour < 24 && c.minute < 60 && c.second <= 60 && c.usec < 1_000_000
  }

  /** `GetTimeAsString`'s text, `"%02d:%02d:%02d.%06ld - "`: always 18
      characters for a valid clock reading. */
  function TimeStamp(c: Clock): (s: seq<char>)
    requires ClockValid(c)
    ensures |s| == 18 && s[|s| - 3..] == " - "
  {
    Dec(c.hour, 2) + ":" + Dec(c.minute, 2) + ":" + Dec(c.second, 2) + "." + Dec(c.usec, 6) + " - "
  }

  // ------------------------------------------------------ the dump text

  /** How a byte shows in the character column: 0..31 become `'.'`; the
      other bytes, those that are negative as a signed `char` included,
      are written as they are. */
  function Shown(b: u8): (c: char)
    ensures c == '.' <==> b <= 31 || b == '.' as u8
  {
    if b <= 31 then '.' else b as char
  }

  /** The 16-character column of one line; positions past the line's
      bytes show `'.'`. */
  function AsciiCol(c: seq<u8>): (col: seq<char>)
    requires |c| <= BYTES_PER_LINE
    ensures |col| == BYTES_PER_LINE
    ensures forall j :: 0 <= j < |c| ==> col[j] == Shown(c[j])
    ensures forall j :: |c| <= j < BYTES_PER_LINE ==> col[j] == '.'
  {
    ColumnPrefix(c, BYTES_PER_LINE)
  }

  /** The first `n` characters of the column. */
  function ColumnPrefix(c: seq<u8>, n: nat): (col: seq<char>)
    ensures |col| == n
    ensures forall j :: 0 <= j < n && j < |c| ==> col[j] == Shown(c[j])
    ensures forall j :: |c| <= j < n ==> col[j] == '.'
  {
    if n == 0 then [] else ColumnPrefix(c, n - 1) + [if n - 1 < |c| then Shown(c[n - 1]) else '.']
  }


  /** `"\n%08x:"` */
  function Head(offset: nat): (s: seq<char>)
    ensures |s| == 10
  {
    "\n" + HexN(offset, 8) + ":"
  }

  /** The byte at offset `i` of the buffer: a space first when `i` is
      even, then its two hex digits. */
  function Cell(i: nat, b: u8): (s: seq<char>)
    ensures |s| == if i % 2 == 0 then 3 else 2
  {
    (if i % 2 == 0 then " " else "") + Hex2(b)
  }

  /** The cells of the bytes at offsets `lo..hi`. */
  function Cells(d: seq<u8>, lo: nat, hi: nat): seq<char>
    requires lo <= hi <= |d|
    decreases hi
  {
    if hi == lo then [] else Cells(d, lo, hi - 1) + Cell(hi - 1, d[hi - 1])
  }

  /** The spaces that align the column of a short last line. */
  function Padding(n: nat): nat {
    if n % 16 == 0 then 0
    else
      var m := BYTES_PER_LINE - n % 16;
      2 * m + m / 2
  }

  function Spaces(n: nat): (s: seq<char>)
    ensures |s| == n && forall k :: 0 <= k < n ==> s[k] == ' '
  {
    if n == 0 then [] else Spaces(n - 1) + " "
  }

  /** `"   ("`, the character column, `")"`. */
  function ColumnText(c: seq<u8>): (s: seq<char>)
    requires |c| <= BYTES_PER_LINE
    ensures |s| == 21
  {
    "   (" + AsciiCol(c) + ")"
  }

  function Tail(c: seq<u8>): seq<char>
    requires |c| <= BYTES_PER_LINE
  {
    Spaces(Padding(|c|)) + ColumnText(c)
  }

  function LineCount(n: nat): nat {
    (n + BYTES_PER_LINE - 1) / 16
  }

  /** One past the offset of the last byte of line `k`. */
  function LineEnd(n: nat, k: nat): (hi: nat)
    requires k < LineCount(n)
    ensures 16 * k < hi <= n && hi <= 16 * k + BYTES_PER_LINE
  {
    if 16 * k + BYTES_PER_LINE < n then 16 * k + BYTES_PER_LINE else n
  }

  /** The bytes of line `k`. */
  function Chunk(d: seq<u8>, k: nat): (c: seq<u8>)
    requires k < LineCount(|d|)
    ensures 0 < |c| <= BYTES_PER_LINE
  {
    d[16 * k..LineEnd(|d|, k)]
  }

  function Line(d: seq<u8>, k: nat): seq<char>
    requires k < LineCount(|d|)
  {
    Head(16 * k) + Cells(d, 16 * k, LineEnd(|d|, k)) + Tail(Chunk(d, k))
  }

  /** The first `n` lines, one after the other. */
  function Lines(d: seq<u8>, n: nat): (s: seq<char>)
    requires n <= LineCount(|d|)
    ensures |s| == 71 * n
  {
    LinesLength(d, n);
    Blocks(LineOf(d), n)
  }

  /** The lines as a function of their number. */
  function LineOf(d: seq<u8>): nat -> seq<char> {
    (k: nat) => if k < LineCount(|d|) then Line(d, k) else []
  }

  /** `n` blocks of text, one after the other. */
  function Blocks(f: nat -> seq<char>, n: nat): seq<char> {
    if n == 0 then [] else Blocks(f, n - 1) + f(n - 1)
  }

  lemma LinesLength(d: seq<u8>, n: nat)
    requires n <= LineCount(|d|)
    ensures |Blocks(LineOf(d), n)| == 71 * n
  {
    if n > 0 {
      LinesAllWide(d, n);
      BlockAt(LineOf(d), 0, n);
    }
  }

  lemma LinesAllWide(d: seq<u8>, n: nat)
    requires n <= LineCount(|d|)
    ensures forall i :: 0 <= i < n ==> |LineOf(d)(i)| == 71
  {
    forall i | 0 <= i < n
      ensures |LineOf(d)(i)| == 71
    {
      LineLength(d, i);
    }
  }

  /** The whole dump after the time stamp. */
  function Dump(prefix: seq<char>, d: seq<u8>): seq<char> {
    prefix + Lines(d, LineCount(|d|))
  }

  // ---------------------------------------------------------- its shape

  /** Every line is 71 characters, a short last line included: the
      padding makes up for the missing bytes and their spaces. */
  lemma LineLength(d: seq<u8>, k: nat)
    requires k < LineCount(|d|)
    ensures |Line(d, k)| == 71
  {
    var lo, hi := 16 * k, LineEnd(|d|, k);
    ModPlus(8 * k, 0);
    CellsLength(d, lo, hi);
    PaddingFits(hi - lo);
  }

  /** A line's cells start at an even offset: every other byte gets a
      space, the first one included. */
  lemma {:induction false} CellsLength(d: seq<u8>, lo: nat, hi: nat)
    requires lo <= hi <= |d| && lo % 2 == 0
    ensures |Cells(d, lo, hi)| == 2 * (hi - lo) + (hi - lo + 1) / 2
    decreases hi
  {
    if hi > lo {
      CellsLength(d, lo, hi - 1);
      StepWidth(lo, hi - lo);
    }
  }

  /** One more byte adds one to the count of even offsets exactly when
      its offset is even. */
  lemma StepWidth(lo: nat, n: nat)
    requires lo % 2 == 0 && n > 0
    ensures (n + 1) / 2 - n / 2 == if (lo + n - 1) % 2 == 0 then 1 else 0
  {
  }

  lemma ModPlus(m: int, a: nat)
    ensures (2 * m + a) % 2 == a % 2
  {
  }

  /** A line of `n` bytes takes `2 * n + (n + 1) / 2` characters for
      its cells; the padding brings that to 40. */
  lemma PaddingFits(n: nat)
    requires 0 < n <= BYTES_PER_LINE
    ensures 2 * n + (n + 1) / 2 + Padding(n) == 40
  {
    if n < BYTES_PER_LINE {
      assert n % 16 == n;
      HalvesSum(n);
    }
  }

  lemma HalvesSum(n: nat)
    requires 0 < n < BYTES_PER_LINE
    ensures (n + 1) / 2 + (16 - n) / 2 == 8
  {
  }

  lemma DumpLength(prefix: seq<char>, d: seq<u8>)
    ensures |Dump(prefix, d)| == |prefix| + 71 * LineCount(|d|)
  {
  }

  /** Line `k` of the first `n` lines sits `71 * k` characters in. */
  lemma LinesPrefix(d: seq<u8>, k: nat, n: nat)
    requires k < n <= LineCount(|d|)
    ensures Lines(d, n)[71 * k..71 * k + 71] == Line(d, k)
  {
    LinesAllWide(d, n);
    BlockAt(LineOf(d), k, n);
  }

  /** Block `k` of blocks that are all 71 characters long. */
  lemma {:induction false} BlockAt(f: nat -> seq<char>, k: nat, n: nat)
    requires k < n && forall i :: 0 <= i < n ==> |f(i)| == 71
    ensures |Blocks(f, n)| == 71 * n
    ensures Blocks(f, n)[71 * k..71 * k + 71] == f(k)
  {
    var before := Blocks(f, n - 1);
    if k < n - 1 {
      BlockAt(f, k, n - 1);
      SliceOfFront(before, f(n - 1), 71 * k, 71 * k + 71);
    } else {
      if n > 1 {
        BlockAt(f, 0, n - 1);
      }
      SliceOfBack(before, f(n - 1));
    }
  }

  lemma SliceOfFront<T>(a: seq<T>, b: seq<T>, lo: nat, hi: nat)
    requires lo <= hi <= |a|
    ensures (a + b)[lo..hi] == a[lo..hi]
  {
  }

  lemma SliceOfBack<T>(a: seq<T>, b: seq<T>)
    ensures (a + b)[|a|..|a| + |b|] == b
  {
  }

  /** Line `k` of the dump starts `71 * k` characters after the prefix. */
  lemma LineAt(prefix: seq<char>, d: seq<u8>, k: nat)
    requires k < LineCount(|d|)
    ensures var at := |prefix| + 71 * k;
      at + 71 <= |Dump(prefix, d)| && Dump(prefix, d)[at..at + 71] == Line(d, k)
  {
    var n := LineCount(|d|);
    LinesPrefix(d, k, n);
    BlockInText(Dump(prefix, d), prefix, Lines(d, n), Line(d, k), k, n);
  }

  /** Block `k` of `b` is found `71 * k` characters after `a` in `a + b`. */
  lemma BlockInText<T>(s: seq<T>, a: seq<T>, b: seq<T>, l: seq<T>, k: nat, n: nat)
    requires s == a + b && |b| == 71 * n && k < n && b[71 * k..71 * k + 71] == l
    ensures var at := |a| + 71 * k; at + 71 <= |s| && s[at..at + 71] == l
  {
  }

  lemma LineHeader(d: seq<u8>, k: nat)
    requires k < LineCount(|d|)
    ensures var l := Line(d, k);
      |l| == 71 && l[0] == '\n' && l[9] == ':' && l[1..9] == HexN(16 * k, 8)
  {
    var lo, hi := 16 * k, LineEnd(|d|, k);
    LineLength(d, k);
    HeaderOf(Line(d, k), Head(lo), Cells(d, lo, hi), Tail(Chunk(d, k)), HexN(lo, 8));
  }

  lemma HeaderOf(l: seq<char>, h: seq<char>, c: seq<char>, t: seq<char>, hex: seq<char>)
    requires l == h + c + t && h == "\n" + hex + ":" && |hex| == 8
    ensures l[0] == '\n' && l[9] == ':' && l[1..9] == hex
  {
    assert l[..10] == h;
  }

  lemma SliceOfSlice<T>(s: seq<T>, lo: nat, hi: nat, i: nat, j: nat)
    requires lo <= hi <= |s| && i <= j <= hi - lo
    ensures s[lo..hi][i..j] == s[lo + i..lo + j]
  {
    var a := s[lo..hi][i..j];
    var b := s[lo + i..lo + j];
    forall k | 0 <= k < |a|
      ensures a[k] == b[k]
    {
      assert a[k] == s[lo..hi][i + k];
    }
  }

  /** Each line starts with a newline, and the eight hex digits before
      its colon give back the offset of its first byte. */
  lemma OffsetsReadBack(prefix: seq<char>, d: seq<u8>, k: nat)
    requires k < LineCount(|d|) && |d| < 0x8000_0000
    ensures var at := |prefix| + 71 * k;
      var s := Dump(prefix, d);
      at + 10 <= |s| && s[at] == '\n' && s[at + 9] == ':' &&
      HexValue(s[at + 1..at + 9]) == 16 * k
  {
    LineAt(prefix, d, k);
    LineHeader(d, k);
    OffsetBelow(k, |d|);
    HeaderReadBack(Dump(prefix, d), |prefix| + 71 * k, Line(d, k), 16 * k);
  }

  lemma OffsetBelow(k: nat, n: nat)
    requires k < LineCount(n) && n < 0x8000_0000
    ensures 16 * k < Pow16(8)
  {
    assert Pow16(8) == 0x1_0000_0000;
  }

  /** A line found at `at` in `s` gives its header's offset back. */
  lemma HeaderReadBack(s: seq<char>, at: nat, l: seq<char>, offset: nat)
    requires at + 71 <= |s| && s[at..at + 71] == l && offset < Pow16(8)
    requires |l| == 71 && l[0] == '\n' && l[9] == ':' && l[1..9] == HexN(offset, 8)
    ensures at + 10 <= |s| && s[at] == '\n' && s[at + 9] == ':' &&
      HexValue(s[at + 1..at + 9]) == offset
  {
    SliceOfSlice(s, at, at + 71, 1, 9);
    assert s[at] == l[0] && s[at + 9] == l[9];
    HexNRoundTrip(offset, 8);
  }

  // -------------------------------------------------------- buffer size

  /** `length_required` as written: `((Length + 8) / 8) * 80`. */
  function LengthRequiredAsWritten(n: nat): nat {
    ((n + 8) / 8) * 80
  }

  /** One byte with the 18-character time stamp needs 90 bytes with the
      NUL, and the buffer gets 80. */
  lemma SizingTooSmall(c: Clock, d: seq<u8>)
    requires ClockValid(c) && |d| == 1
    ensures |Dump(TimeStamp(c), d)| + 1 == 90 > LengthRequiredAsWritten(|d|)
  {
    DumpLength(TimeStamp(c), d);
  }

  /** The corrected size: one 80-character line per dump line, and one
      more for the time stamp. */
  function LengthRequired(n: nat): (r: nat)
    ensures r >= CHARS_PER_LINE
  {
    (LineCount(n) + 1) * 80
  }

  /** Any prefix shorter than a line and the dump with its NUL fit. */
  lemma DumpFits(prefix: seq<char>, d: seq<u8>)
    requires |prefix| < CHARS_PER_LINE
    ensures |Dump(prefix, d)| + 1 <= LengthRequired(|d|)
  {
    DumpLength(prefix, d);
  }

  // --------------------------------------------------- the loop's steps

  /** The text after the bytes before `i` were written: the lines before
      the one `i - 1` is on, its header and its cells so far. */
  function Progress(d: seq<u8>, i: nat): seq<char>
    requires 0 < i <= |d|
  {
    var q := (i - 1) / 16;
    Lines(d, q) + Head(16 * q) + Cells(d, 16 * q, i)
  }

  /** What the loop writes before byte `i`'s cell: at the start of a
      line, the column of the line before (when there is one) and the
      header. */
  function LineBreak(d: seq<u8>, i: nat): seq<char>
    requires i < |d|
  {
    if i % 16 != 0 then []
    else if i == 0 then Head(0)
    else ColumnText(d[i - BYTES_PER_LINE..i]) + Head(i)
  }

  /** What one iteration of the loop writes. */
  function ByteText(d: seq<u8>, i: nat): seq<char>
    requires i < |d|
  {
    LineBreak(d, i) + Cell(i, d[i])
  }

  /** What the loop has written before byte `i`, iteration by iteration. */
  function Written(d: seq<u8>, i: nat): seq<char>
    requires i <= |d|
  {
    if i == 0 then [] else Written(d, i - 1) + ByteText(d, i - 1)
  }

  /** ... and the same text line by line. */
  lemma {:induction false} WrittenIsProgress(d: seq<u8>, i: nat)
    requires 0 < i <= |d|
    ensures Written(d, i) == Progress(d, i)
  {
    if i == 1 {
      FirstByte(d);
    } else {
      WrittenIsProgress(d, i - 1);
      ProgressStep(d, i - 1);
      assert Written(d, i) == Written(d, i - 1) + ByteText(d, i - 1);
    }
  }

  lemma FirstByte(d: seq<u8>)
    requires |d| > 0
    ensures Written(d, 1) == Progress(d, 1)
  {
    ProgressAt(d, 1, 0, 0);
    CellsOne(d, 0);
    assert Written(d, 1) == [] + (Head(0) + Cell(0, d[0]));
    EmptyLeft(Head(0) + Cell(0, d[0]));
    assert Lines(d, 0) == [];
    EmptyLeft(Head(0));
  }

  lemma ProgressStep(d: seq<u8>, i: nat)
    requires 0 < i < |d|
    ensures Progress(d, i + 1) == Progress(d, i) + ByteText(d, i)
  {
    if i % 16 == 0 {
      NewLine(d, i);
      Assoc4(Progress(d, i), ColumnText(d[i - BYTES_PER_LINE..i]), Head(i), Cell(i, d[i]));
    } else {
      SameLine(d, i);
      assert ByteText(d, i) == [] + Cell(i, d[i]);
      EmptyLeft(Cell(i, d[i]));
    }
  }

  /** `Progress` with the line number and its first offset named. */
  lemma ProgressAt(d: seq<u8>, i: nat, q: nat, lo: nat)
    requires 0 < i <= |d| && q == (i - 1) / 16 && lo == 16 * q
    ensures Progress(d, i) == Lines(d, q) + Head(lo) + Cells(d, lo, i)
  {
  }

  lemma CellsStep(d: seq<u8>, lo: nat, hi: nat)
    requires lo <= hi < |d|
    ensures Cells(d, lo, hi + 1) == Cells(d, lo, hi) + Cell(hi, d[hi])
  {
  }

  lemma CellsOne(d: seq<u8>, i: nat)
    requires i < |d|
    ensures Cells(d, i, i + 1) == Cell(i, d[i])
  {
    CellsStep(d, i, i);
    EmptyLeft(Cell(i, d[i]));
  }

  lemma SameLine(d: seq<u8>, i: nat)
    requires 0 < i < |d| && i % 16 != 0
    ensures Progress(d, i + 1) == Progress(d, i) + Cell(i, d[i])
  {
    var q := (i - 1) / 16;
    var lo := 16 * q;
    SameLineArith(i, q);
    ProgressAt(d, i, q, lo);
    ProgressAt(d, i + 1, q, lo);
    CellsStep(d, lo, i);
    ShapeSame(Lines(d, q), Head(lo), Cells(d, lo, i), Cells(d, lo, i + 1), Cell(i, d[i]),
      Progress(d, i), Progress(d, i + 1));
  }

  lemma SameLineArith(i: nat, q: nat)
    requires 0 < i && i % 16 != 0 && q == (i - 1) / 16
    ensures q == (i + 1 - 1) / 16 && 16 * q <= i
  {
  }

  lemma NewLine(d: seq<u8>, i: nat)
    requires 0 < i < |d| && i % 16 == 0
    ensures Progress(d, i + 1) ==
      Progress(d, i) + ColumnText(d[i - BYTES_PER_LINE..i]) + Head(i) + Cell(i, d[i])
  {
    var q := (i - 1) / 16;
    NewLineArith(i, q, |d|);
    LineStarts(d, i, q);
    LineEnds(d, i, q);
    Append3(Lines(d, q + 1), Progress(d, i), ColumnText(d[i - BYTES_PER_LINE..i]), Head(i), Cell(i, d[i]),
      Progress(d, i + 1));
  }

  /** After the first byte of line `q + 1`, at offset `i`. */
  lemma LineStarts(d: seq<u8>, i: nat, q: nat)
    requires 0 < i < |d| && q + 1 == (i + 1 - 1) / 16 && i == 16 * (q + 1)
    ensures Progress(d, i + 1) == Lines(d, q + 1) + Head(i) + Cell(i, d[i])
  {
    ProgressAt(d, i + 1, q + 1, i);
    CellsOne(d, i);
  }

  /** Line `q`, ending at offset `i`, is what the loop wrote for it and
      the column. */
  lemma LineEnds(d: seq<u8>, i: nat, q: nat)
    requires 0 < i <= |d| && q == (i - 1) / 16 && i - BYTES_PER_LINE == 16 * q
    requires q + 1 <= LineCount(|d|) && LineEnd(|d|, q) == i
    ensures Lines(d, q + 1) == Progress(d, i) + ColumnText(d[i - BYTES_PER_LINE..i])
  {
    var lo := i - BYTES_PER_LINE;
    ProgressAt(d, i, q, lo);
    LinesStep(d, q);
    LineIs(d, q, lo, i);
    FullTail(d[lo..i]);
    RegroupFull(Lines(d, q + 1), Lines(d, q), Line(d, q), Head(lo), Cells(d, lo, i), Tail(d[lo..i]),
      ColumnText(d[lo..i]), Progress(d, i));
  }

  lemma Append3<T>(l: seq<T>, p0: seq<T>, ct: seq<T>, h: seq<T>, x: seq<T>, p1: seq<T>)
    requires p1 == l + h + x && l == p0 + ct
    ensures p1 == p0 + ct + h + x
  {
  }

  lemma NewLineArith(i: nat, q: nat, n: nat)
    requires 0 < i < n && i % 16 == 0 && q == (i - 1) / 16
    ensures i - BYTES_PER_LINE == 16 * q && q + 1 == (i + 1 - 1) / 16 && q + 1 < LineCount(n)
    ensures LineEnd(n, q) == i
  {
  }

  /** Line `q`, with its bytes' offsets named. */
  lemma LineIs(d: seq<u8>, q: nat, lo: nat, hi: nat)
    requires q < LineCount(|d|) && lo == 16 * q && hi == LineEnd(|d|, q)
    ensures Line(d, q) == Head(lo) + Cells(d, lo, hi) + Tail(d[lo..hi])
  {
  }

  lemma LinesStep(d: seq<u8>, q: nat)
    requires q + 1 <= LineCount(|d|)
    ensures Lines(d, q + 1) == Lines(d, q) + Line(d, q)
  {
    assert LineOf(d)(q) == Line(d, q);
  }

  /** A full line has no padding. */
  lemma FullTail(c: seq<u8>)
    requires |c| == BYTES_PER_LINE
    ensures Tail(c) == ColumnText(c)
  {
    EmptyLeft(ColumnText(c));
  }

  lemma ShapeSame<T>(l: seq<T>, h: seq<T>, c0: seq<T>, c1: seq<T>, x: seq<T>, p0: seq<T>, p1: seq<T>)
    requires p0 == l + h + c0 && p1 == l + h + c1 && c1 == c0 + x
    ensures p1 == p0 + x
  {
  }

  lemma EmptyLeft<T>(a: seq<T>)
    ensures [] + a == a
  {
  }

  lemma Assoc3<T>(a: seq<T>, b: seq<T>, c: seq<T>)
    ensures a + b + c == a + (b + c)
  {
  }

  lemma Assoc4<T>(a: seq<T>, b: seq<T>, c: seq<T>, e: seq<T>)
    ensures a + b + c + e == a + ((b + c) + e)
  {
  }

  // ---------------------------------------------------- the last line

  /** Where the last line's bytes start. */
  function LastStart(n: nat): (lo: nat)
    requires n > 0
    ensures lo == 16 * ((n - 1) / 16)
  {
    if n % 16 != 0 then n - n % 16 else n - BYTES_PER_LINE
  }

  /** The lines are what the loop wrote followed by the last line's
      padding and column. */
  lemma LastLine(d: seq<u8>)
    requires |d| > 0
    ensures Lines(d, LineCount(|d|)) == Progress(d, |d|) + Tail(d[LastStart(|d|)..])
  {
    var q := (|d| - 1) / 16;
    var lo := LastStart(|d|);
    LastLineArith(|d|, q, lo);
    SliceToEnd(d, lo);
    LastLineShape(d, q, lo);
  }

  lemma SliceToEnd<T>(s: seq<T>, lo: nat)
    requires lo <= |s|
    ensures s[lo..] == s[lo..|s|]
  {
  }

  lemma LastLineShape(d: seq<u8>, q: nat, lo: nat)
    requires |d| > 0 && q == (|d| - 1) / 16 && LineCount(|d|) == q + 1
    requires lo == 16 * q && LineEnd(|d|, q) == |d|
    requires LastStart(|d|) == lo && d[lo..] == d[lo..|d|]
    ensures Lines(d, LineCount(|d|)) == Progress(d, |d|) + Tail(d[LastStart(|d|)..])
  {
    LinesStep(d, q);
    LineIs(d, q, lo, |d|);
    ProgressAt(d, |d|, q, lo);
    Regroup(Lines(d, q + 1), Lines(d, q), Line(d, q), Head(lo), Cells(d, lo, |d|), Tail(d[lo..|d|]),
      Progress(d, |d|));
  }

  lemma LastLineArith(n: nat, q: nat, lo: nat)
    requires n > 0 && q == (n - 1) / 16 && lo == LastStart(n)
    ensures LineCount(n) == q + 1 && lo == 16 * q && LineEnd(n, q) == n
  {
  }

  lemma Regroup<T>(all: seq<T>, before: seq<T>, line: seq<T>, h: seq<T>, c: seq<T>, t: seq<T>, p: seq<T>)
    requires all == before + line && line == h + c + t && p == before + h + c
    ensures all == p + t
  {
  }

  lemma RegroupFull<T>(all: seq<T>, before: seq<T>, line: seq<T>, h: seq<T>, c: seq<T>, t: seq<T>, ct: seq<T>, p: seq<T>)
    requires all == before + line && line == h + c + t && t == ct && p == before + h + c
    ensures all == p + ct
  {
  }

  /** The stamp, what the loop wrote and the last line's tail make up
      the dump. */
  lemma DumpAssembled(stamp: seq<char>, d: seq<u8>)
    requires |d| > 0
    ensures stamp + Written(d, |d|) + Tail(d[LastStart(|d|)..]) == Dump(stamp, d)
  {
    WrittenIsProgress(d, |d|);
    LastLine(d);
    Assoc3(stamp, Progress(d, |d|), Tail(d[LastStart(|d|)..]));
  }

  /** The tail of a short last line of `r` bytes. */
  lemma ShortTail(d: seq<u8>, r: nat, pad: nat)
    requires |d| > 0 && r == |d| % 16 && r != 0
    requires pad == (BYTES_PER_LINE - r) * 2 + (BYTES_PER_LINE - r) / 2
    ensures Tail(d[LastStart(|d|)..]) == Spaces(pad) + ColumnText(d[|d| - r..|d|])
  {
    var lo := LastStart(|d|);
    ShortTailArith(|d|, r, pad, lo);
    assert d[lo..] == d[|d| - r..|d|];
  }

  lemma ShortTailArith(n: nat, r: nat, pad: nat, lo: nat)
    requires n > 0 && r == n % 16 && r != 0 && lo == LastStart(n)
    requires pad == (BYTES_PER_LINE - r) * 2 + (BYTES_PER_LINE - r) / 2
    ensures lo == n - r && Padding(r) == pad
  {
  }

  /** The tail of a full last line. */
  lemma FullLastTail(d: seq<u8>)
    requires |d| > 0 && |d| % 16 == 0
    ensures Tail(d[LastStart(|d|)..]) == ColumnText(d[|d| - BYTES_PER_LINE..|d|])
  {
    var lo := LastStart(|d|);
    assert lo == |d| - BYTES_PER_LINE;
    assert d[lo..] == d[|d| - BYTES_PER_LINE..|d|];
    FullTail(d[lo..]);
  }

  // ---------------------------------------------------------- the class

  /** The static members `mDataString` and `mDataLength`: `hasBuffer` says
      whether the pointer is non-null, `text` is the C string it holds. */
  class PrintData {
    var hasBuffer: bool
    var text: seq<char>
    var capacity: nat

    /** The C string and its NUL fit in the allocation. */
    ghost predicate Valid()
      reads this
    {
      (hasBuffer ==> |text| < capacity) && (!hasBuffer ==> text == [] && capacity == 0)
    }

    constructor()
      ensures Valid() && !hasBuffer
    {
      hasBuffer := false;
      text := [];
      capacity := 0;
    }

    /** `GetTimeAsString`: at least 20 bytes, cleared, then the stamp. */
    method GetTimeAsString(c: Clock) returns (s: seq<char>)
      requires ClockValid(c)
      modifies this
      ensures Valid() && hasBuffer
      ensures capacity == if old(hasBuffer) && old(capacity) >= 20 then old(capacity) else 20
      ensures s == text == TimeStamp(c)
    {
      if !hasBuffer {
        hasBuffer, capacity := true, 20;
      } else if 20 > capacity {
        capacity := 20;
      }
      text := TimeStamp(c);
      s := text;
    }

    /** The character column of one line, through the `element` scratch
        array: copy the bytes, then replace 0..31 with `'.'`. */
    method AsciiColumn(c: seq<u8>) returns (col: seq<char>)
      requires |c| <= BYTES_PER_LINE
      ensures col == AsciiCol(c)
    {
      var element := new u8[BYTES_PER_LINE](_ => 0);
      var j := 0;
      while j < |c|
        invariant 0 <= j <= |c|
        invariant forall k :: 0 <= k < j ==> element[k] == c[k]
        invariant forall k :: j <= k < BYTES_PER_LINE ==> element[k] == 0
      {
        element[j] := c[j];
        j := j + 1;
      }
      j := 0;
      while j < BYTES_PER_LINE
        invariant 0 <= j <= BYTES_PER_LINE
        invariant forall k :: 0 <= k < j ==> element[k] as char == AsciiCol(c)[k]
        invariant forall k :: j <= k < |c| ==> element[k] == c[k]
        invariant forall k :: |c| <= k < BYTES_PER_LINE && j <= k ==> element[k] == 0
      {
        if element[j] <= 31 {
          element[j] := '.' as u8;
        }
        j := j + 1;
      }
      col := seq(BYTES_PER_LINE, k requires 0 <= k < BYTES_PER_LINE reads element => element[k] as char);
    }

    /** The loop over the bytes: a header every 16 bytes, preceded by the
        column of the line before; a space before even bytes; two hex
        digits a byte. */
    method WriteBytes(d: seq<u8>)
      requires 0 < |d| < 0x8000_0000
      modifies this`text
      ensures text == old(text) + Written(d, |d|)
    {
      ghost var start := text;
      var i := 0;
      while i < |d|
        invariant 0 <= i <= |d|
        invariant text == start + Written(d, i)
      {
        WriteByte(d, i, start);
        i := i + 1;
      }
    }

    /** One iteration, and the text it extends. */
    method WriteByte(d: seq<u8>, i: nat, ghost start: seq<char>)
      requires i < |d|
      requires text == start + Written(d, i)
      modifies this`text
      ensures text == start + Written(d, i + 1)
    {
      AppendByte(d, i);
      Assoc3(start, Written(d, i), ByteText(d, i));
    }

    /** One iteration of the loop. */
    method AppendByte(d: seq<u8>, i: nat)
      requires i < |d|
      modifies this`text
      ensures text == old(text) + ByteText(d, i)
    {
      ghost var t0 := text;
      AppendLineBreak(d, i);
      ghost var t1 := text;
      AppendCell(i, d[i]);
      Assoc3(t0, LineBreak(d, i), Cell(i, d[i]));
    }

    /** The column of the line before and the header of the next. */
    method AppendLineBreak(d: seq<u8>, i: nat)
      requires i < |d|
      modifies this`text
      ensures text == old(text) + LineBreak(d, i)
    {
      if i % 16 == 0 {
        if i != 0 {
          ghost var t0 := text;
          AppendColumn(d[i - BYTES_PER_LINE..i]);
          text := text + Head(i);
          Assoc3(t0, ColumnText(d[i - BYTES_PER_LINE..i]), Head(i));
        } else {
          text := text + Head(i);
        }
      } else {
        assert text + [] == text;
      }
    }

    /** A space before an even offset, then the two hex digits. */
    method AppendCell(i: nat, b: u8)
      modifies this`text
      ensures text == old(text) + Cell(i, b)
    {
      if i % 2 == 0 {
        ghost var t0 := text;
        text := text + " ";
        text := text + Hex2(b);
        Assoc3(t0, " ", Hex2(b));
      } else {
        text := text + Hex2(b);
        assert Cell(i, b) == "" + Hex2(b);
        EmptyLeft(Hex2(b));
      }
    }

    /** `strcat(mDataString, " ")`, `n` times. */
    method AppendSpaces(n: nat)
      modifies this`text
      ensures text == old(text) + Spaces(n)
    {
      ghost var start := text;
      var j := 0;
      while j < n
        invariant 0 <= j <= n
        invariant text == start + Spaces(j)
      {
        text := text + " ";
        j := j + 1;
      }
    }

    /** `"   ("`, the column of `c`, `")"`. */
    method AppendColumn(c: seq<u8>)
      requires |c| <= BYTES_PER_LINE
      modifies this`text
      ensures text == old(text) + ColumnText(c)
    {
      var col := AsciiColumn(c);
      text := text + "   (" + col + ")";
    }

    /** After the loop: pad a short last line, then its column. */
    method WriteLastColumn(d: seq<u8>)
      requires 0 < |d|
      modifies this`text
      ensures text == old(text) + Tail(d[LastStart(|d|)..])
    {
      ghost var start := text;
      var n := |d|;
      var r := n % 16;
      if r != 0 {
        var pad := (BYTES_PER_LINE - r) * 2 + (BYTES_PER_LINE - r) / 2;
        AppendSpaces(pad);
        AppendColumn(d[n - r..n]);
        ShortTail(d, r, pad);
        Assoc3(start, Spaces(pad), ColumnText(d[n - r..n]));
      } else {
        AppendColumn(d[n - BYTES_PER_LINE..n]);
        FullLastTail(d);
      }
    }

    /** `GetDataAsString` with the clock reading as a parameter and the
        corrected buffer size.  Nothing happens for `Length <= 0`, and the
        current buffer (null when none was allocated) is returned. */
    method GetDataAsString(data: seq<u8>, length: i32, clock: Clock) returns (s: Option<seq<char>>)
      requires Valid() && ClockValid(clock)
      requires length > 0 ==> length <= |data|
      modifies this
      ensures Valid()
      ensures length <= 0 ==> s == (if hasBuffer then Some(text) else None)
      ensures length <= 0 ==> hasBuffer == old(hasBuffer) && text == old(text) && capacity == old(capacity)
      ensures length > 0 ==> s == Some(text) && text == Dump(TimeStamp(clock), data[..length])
      ensures length > 0 ==> hasBuffer
      ensures length > 0 && old(hasBuffer) && old(capacity) >= LengthRequired(length) ==>
        capacity == old(capacity)
      ensures length > 0 && !(old(hasBuffer) && old(capacity) >= LengthRequired(length)) ==>
        capacity == LengthRequired(length)
    {
      if length > 0 {
        var d := data[..length];
        var n: nat := length;
        var required := LengthRequired(n);
        if !hasBuffer {
          hasBuffer, capacity := true, required;
        } else if required > capacity {
          capacity := required;
        }
        WriteDump(d, clock);
        DumpFits(TimeStamp(clock), d);
      }
      s := if hasBuffer then Some(text) else None;
    }

    /** The time stamp, the loop and the last column, into a buffer that
        already has room for at least the stamp. */
    method WriteDump(d: seq<u8>, clock: Clock)
      requires 0 < |d| < 0x8000_0000 && ClockValid(clock)
      requires hasBuffer && capacity >= 20
      modifies this
      ensures text == Dump(TimeStamp(clock), d)
      ensures hasBuffer && capacity == old(capacity)
    {
      var stamp := GetTimeAsString(clock);
      WriteBytes(d);
      WriteLastColumn(d);
      DumpAssembled(stamp, d);
    }
  }
}
