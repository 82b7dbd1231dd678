/** ELF identification (`IsFileElf64`) and the whole-file reader shared by
    the debugger and the `elfdump` tool.  The `e_ident` layout follows the
    "ELF Identification" subsection of the ELF Header chapter of the
    System V Application Binary Interface: the magic `0x7f 'E' 'L' 'F'` in
    bytes 0..3, the file class in byte 4 and the data encoding in byte 5. */
module ElfIdent {
  import opened DebugTypes

  const EI_MAG0: nat := 0
  const EI_MAG1: nat := 1
  const EI_MAG2: nat := 2
  const EI_MAG3: nat := 3
  const EI_CLASS: nat := 4
  const EI_DATA: nat := 5

  const ELFMAG0: u8 := 0x7f
  const ELFMAG1: u8 := 0x45  // 'E'
  const ELFMAG2: u8 := 0x4c  // 'L'
  const ELFMAG3: u8 := 0x46  // 'F'
  const ELFCLASS32: u8 := 1
  const ELFCLASS64: u8 := 2
  const ELFDATA2LSB: u8 := 1

  /** The identification prefix of every 64-bit ELF file. */
  const ELF64_PREFIX: seq<u8> := [ELFMAG0, ELFMAG1, ELFMAG2, ELFMAG3, ELFCLASS64]

  /** The four magic bytes, compared one by one as both programs do. */
  predicate HasElfMagic(buf: seq<u8>)
    requires |buf| >= 4
  {
    buf[EI_MAG0] == ELFMAG0 && buf[EI_MAG1] == ELFMAG1 &&
    buf[EI_MAG2] == ELFMAG2 && buf[EI_MAG3] == ELFMAG3
  }

  /** `IsFileElf64`: the magic is checked first, and only then the class.
      The buffer is read without a length check, so it must hold at least
      the five bytes inspected. */
  function IsFileElf64(buf: seq<u8>): (r: bool)
    requires |buf| >= 5
    ensures r <==> buf[..5] == ELF64_PREFIX
  {
    if HasElfMagic(buf) then
      assert buf[..4] == ELF64_PREFIX[..4];
      buf[EI_CLASS] == ELFCLASS64
    else
      false
  }

  /** A wrong magic is rejected whatever the class byte says. */
  lemma WrongMagicNotElf64(buf: seq<u8>, cls: u8)
    requires |buf| >= 5 && !HasElfMagic(buf)
    ensures !IsFileElf64(buf[EI_CLASS := cls])
  {
    assert buf[EI_CLASS := cls][..4] == buf[..4];
  }

  /** The right magic with any class other than 64-bit is rejected. */
  lemma OtherClassNotElf64(buf: seq<u8>)
    requires |buf| >= 5 && HasElfMagic(buf) && buf[EI_CLASS] != ELFCLASS64
    ensures !IsFileElf64(buf)
  {
    assert buf[..5][4] == buf[EI_CLASS];
  }

  /** Nothing after the first five bytes is looked at. */
  lemma OnlyIdentPrefixMatters(buf: seq<u8>, rest: seq<u8>)
    requires |buf| >= 5
    ensures IsFileElf64(buf[..5] + rest) == IsFileElf64(buf)
  {
    assert (buf[..5] + rest)[..5] == buf[..5];
  }

  // ------------------------------------------------------- ReadEntireFile

  /** `TBuffer`: `Data` is null exactly when `data` is `None`. */
  datatype Buffer = Buffer(data: Option<seq<u8>>, size: u32)

  /** What the file system does for one call: `fopen` fails, or the file
      opens with a size reported by `stat` and `fread` delivers `available`
      (fewer bytes than asked when the read comes up short). */
  datatype FileAccess =
    | CannotOpen
    | Opened(statSize: nat, available: seq<u8>)

  /** `ReadEntireFile`: `Size` takes `st_size` truncated to 32 bits, and a
      single `fread` of one item of that size must succeed; it fails for a
      short read and for a size of 0, and then the buffer is freed. */
  function ReadEntireFile(f: FileAccess): (b: Buffer)
    ensures f.CannotOpen? ==> b == Buffer(None, 0)
    ensures b.data.None? <==> b.size == 0
    ensures b.data.Some? ==> f.Opened? && |b.data.value| == b.size == f.statSize % 0x1_0000_0000
    ensures b.data.Some? ==> b.size <= |f.available| && b.data.value == f.available[..b.size]
    ensures f.Opened? && 0 < f.statSize % 0x1_0000_0000 <= |f.available| ==> b.data.Some?
  {
    match f
    case CannotOpen => Buffer(None, 0)
    case Opened(statSize, available) =>
      var size: u32 := statSize % 0x1_0000_0000;
      if size == 0 || |available| < size then Buffer(None, 0)
      else Buffer(Some(available[..size]), size)
  }
}

/** The `elfdump` tool: read the file named by the single argument, check
    the magic and dump the 32-bit or 64-bit header. */
module ElfDump {
  import opened DebugTypes
  import opened ElfIdent

  datatype Endianness = LittleEndian | BigEndian

  /** What `main` does besides returning its status. */
  datatype Action =
    | ReportUsage           // "Expected a program name as argument"
    | NoDump                // nothing was read
    | ReportNotElf          // "... is not an ELF file"
    | DumpElf32(endian: Endianness)
    | DumpElf64(endian: Endianness)

  /** The label both dump functions print after `e_ident`: byte 5 equal to
      1 (`ELFDATA2LSB`) reads "Little Endian", anything else "Big Endian". */
  function EndianLabel(ident: seq<u8>): (s: string)
    requires |ident| > EI_DATA
    ensures s == "Little Endian" <==> ident[EI_DATA] == ELFDATA2LSB
    ensures s == "Big Endian" <==> ident[EI_DATA] != ELFDATA2LSB
  {
    if ident[EI_DATA] == 1 then "Little Endian" else "Big Endian"
  }

  function EndianOf(ident: seq<u8>): (e: Endianness)
    requires |ident| > EI_DATA
    ensures e == LittleEndian <==> EndianLabel(ident) == "Little Endian"
  {
    if ident[EI_DATA] == 1 then LittleEndian else BigEndian
  }

  /** `main`, with the file access as a parameter.  A buffer that was read
      must hold the six identification bytes the program inspects. */
  function Run(argc: nat, f: FileAccess): (r: (int, Action))
    requires argc == 2 && ReadEntireFile(f).size > 0 ==> ReadEntireFile(f).size > EI_DATA
    ensures argc != 2 <==> r.0 == -1
    ensures argc != 2 ==> r.1 == ReportUsage
    ensures argc == 2 ==> r.0 == 0
    ensures argc == 2 && ReadEntireFile(f).size == 0 ==> r.1 == NoDump
  {
    if argc != 2 then (-1, ReportUsage)
    else
      var buffer := ReadEntireFile(f);
      if buffer.size == 0 then (0, NoDump)
      else
        var ident := buffer.data.value;
        if HasElfMagic(ident) then
          if ident[EI_CLASS] == ELFCLASS64 then (0, DumpElf64(EndianOf(ident)))
          else (0, DumpElf32(EndianOf(ident)))
        else (0, ReportNotElf)
  }

  /** For a file that was read, the three outcomes follow the magic and the
      class byte, and the 64-bit dump is chosen exactly when the debugger's
      `IsFileElf64` accepts the same bytes. */
  lemma RunClassifies(f: FileAccess)
    requires ReadEntireFile(f).size > EI_DATA
    ensures var ident := ReadEntireFile(f).data.value;
      var act := Run(2, f).1;
      (act == ReportNotElf <==> !HasElfMagic(ident)) &&
      (act.DumpElf64? <==> IsFileElf64(ident)) &&
      (act.DumpElf32? <==> HasElfMagic(ident) && ident[EI_CLASS] != ELFCLASS64) &&
      (act.DumpElf32? || act.DumpElf64? ==> (act.endian == LittleEndian <==> ident[EI_DATA] == ELFDATA2LSB))
  {
    var ident := ReadEntireFile(f).data.value;
    if HasElfMagic(ident) {
      assert ident[..5][4] == ident[EI_CLASS];
    } else {
      assert !IsFileElf64(ident);
    }
  }
}
