# linux_debugger, modelled in Dafny

`linux_debugger` is a small ptrace debugger for x86-64 Linux. This project
models its core and proves properties of the model.

**The software-breakpoint engine of `CDebugBackend`.** The engine works
against an abstract tracee:

- a partial byte-addressed memory;
- a 27-slot register file;
- a flag that says whether the process is still there;
- an execution oracle that decides the registers at the next stop.

`PTRACE_PEEKDATA` and `PTRACE_POKEDATA` are little-endian 8-byte word
accesses. They fail when the process is gone or one of the eight bytes is
unmapped. Breakpoints are set, deleted, enabled and disabled by
read-modify-writing the low byte of a word. When the tracee stops, `rip - 1`
(in 64-bit arithmetic) is checked against the table.

The engine appears twice:

- as functions over an `Engine` value (`BackendModel`), with the lemmas in
  `BackendProperties`;
- as the class `Backend.DebugBackend`, whose fields change in place and
  whose every method is proved equal to the matching function.

The central invariant is `BackendModel.Consistent`:

- breakpoint addresses are distinct;
- every entry's word is accessible;
- the resident byte is `0xcc` when the entry is enabled and its saved byte
  when it is disabled.

`Consistent` is proved preserved by adding at an address not yet in the
table, and by delete, enable and disable.  Single step and continue
preserve it while the tracee is still traced.  For those two, the model
uses a corrected step-over: it writes the trap byte back only while the
entry is enabled.  The code writes it back always, so an entry disabled
after its hit is re-armed (see Findings).

**The supporting pieces:**

- the command types of `DebugTypes.h` (`DebugTypes`), with the command
  union as a sum type and its tagged-union encoding proved to round-trip;
- the console debugger's line tokenizer, classifier and word-saving
  breakpoint table (`ConsoleDebugger`);
- the bounded deque `CRingBuffer` (`Ring`);
- the terminal line editor, with its escape-sequence decoder
  (`KeyDecoder`, `LineEditor`);
- the hex-dump formatter `CPrintData` (`HexDump`);
- the ELF identification checks of the debugger and of the `elfdump` tool
  (`ElfIdent`, `ElfDump`).

A class in this project means the source updates that object in place. A
`method` with a loop means the source loops. Every such method is proved
against a function, and the properties are lemmas about that function.

Each file and what it holds:

- `DebugTypes.dfy`: integer widths, constants, command kinds, the command
  union, registers, breakpoints.
- `Tracee.dfy`: memory, words, registers and resumption of the traced
  process.
- `BackendModel.dfy`: the engine as functions.
- `BackendProperties.dfy`: the invariants and round trips of the engine.
- `DebugBackend.dfy`: the `CDebugBackend` class.
- `Debugger.dfy`: `debugger.cpp`.
- `RingBuffer.dfy`: `RingBuffer.h`.
- `InputHandler.dfy`: `InputHandler.cpp`.
- `PrintData.dfy`: `PrintData.cpp`.
- `Elf.dfy`: `DebugUtils.cpp`'s ELF check and `elfdump.cpp`.

Where the header and the definition disagree, the model follows the
definition in the `.cpp` file:

- `int Continue()` against `void`;
- `AddCharToLine`/`RemoveCharFromLine`;
- `GetDataAsString`'s parameters.

`StepSingle` takes a second single step after a step-over, because
src/DebugBackend.cpp:227-237 has no `else`.

## Model

| member | source | states |
|---|---|---|
| DebugTypes.SubWrap | src/DebugBackend.cpp:201 | `rip - 1` in u64 arithmetic: adding back the subtrahend modulo 2^64 gives the minuend, and without a borrow it is ordinary subtraction |
| DebugTypes.KindOfOrdinal | src/DebugTypes.h:26-44 | the enumerators number exactly 0..14, and the ordinal of the decoded kind is the number decoded |
| DebugTypes.ToRaw | src/DebugTypes.h:46-66 | a command's tag in the tagged union is the ordinal of its kind |
| DebugTypes.FromRaw | src/DebugTypes.h:46-66 | a tagged union decodes exactly when its tag is a known kind, to a command of that kind |
| DebugTypes.RawRoundTrip | src/DebugTypes.h:46-66 | decoding the tagged union of any command gives back that command: each kind has one payload shape |
| DebugTypes.RawUnusedWordIgnored | src/DebugTypes.h:46-66 | the second payload word matters only to a register write: changing it changes no other command |
| DebugTypes.SavedByteOf | src/DebugTypes.h:117-122 | storing a peeked word in the one-byte `SavedData` keeps exactly its low byte |
| Tracee.BytesOfLittleEndian | src/DebugBackend.cpp:76-86 | splitting the little-endian value of a byte sequence back into bytes gives the same sequence |
| Tracee.WriteBytesSame | src/DebugBackend.cpp:83-86 | writing back the bytes that are already in memory leaves the memory unchanged |
| Tracee.Peek | src/DebugBackend.cpp:76-81 | the peek succeeds exactly when the process is traced and all eight bytes are mapped, and the low byte of the word read is the byte at the address |
| Tracee.Poke | src/DebugBackend.cpp:83-86 | a poke fails where a peek fails and then changes nothing; it never touches the registers |
| Tracee.WithLowByte | src/DebugBackend.cpp:136 | `(w & ~0xff) \| b` has low byte `b` and keeps the seven high bytes of `w` |
| Tracee.PatchByteFrame | src/DebugBackend.cpp:136-137 | peek, replace the low byte and poke changes memory only at the one address, and only when its word is accessible |
| Tracee.PatchKeepsAccessible | src/DebugBackend.cpp:172-173 | a patch never changes which words are accessible |
| Tracee.UpdateKeepsAccessible | src/DebugBackend.cpp:184-185 | overwriting a mapped byte never changes which words are accessible |
| Tracee.ReadBytesUnaffected | src/DebugBackend.cpp:76-81 | a read above an updated address does not see the update |
| Tracee.ReadBytesDomain | src/DebugBackend.cpp:76-81 | whether a read succeeds depends only on which addresses are mapped |
| Tracee.GetRegister | src/DebugBackend.cpp:88-102 | the register's slot when `PTRACE_GETREGS` succeeds, otherwise 0 |
| Tracee.SetRegister | src/DebugBackend.cpp:104-122 | true exactly when the process is traced; then only slot `r` changes, to the value; memory never changes; on failure nothing changes |
| Tracee.ResumeUntilStop | src/DebugBackend.cpp:222-234 | resuming leaves memory as it was and never brings back a process that is gone |
| BackendModel.Addresses | src/DebugBackend.cpp:124-145 | exactly the addresses of the table's entries |
| BackendModel.AddBreakpoint | src/DebugBackend.cpp:124-145 | on an accessible word, memory changes only at the address, now `0xcc`, and the entry with the old byte, enabled, is appended; otherwise nothing changes |
| BackendModel.HitAfterDelete | src/DebugBackend.cpp:154-161 | a hit on the erased entry becomes -1, a later hit moves down by one, an earlier hit or -1 stays |
| BackendModel.DeleteBreakpoint | src/DebugBackend.cpp:147-164 | exactly entry `i` is removed, the others keep their order; the saved byte is restored where the word is accessible; registers, command and running flag are kept |
| BackendModel.EnableBreakpoint | src/DebugBackend.cpp:166-176 | an enabled entry is left alone; otherwise only its flag changes and only its byte becomes `0xcc` |
| BackendModel.DisableBreakpoint | src/DebugBackend.cpp:178-188 | a disabled entry is left alone; otherwise only its flag changes and only its byte goes back to the saved byte |
| BackendModel.FindAddress | src/DebugBackend.cpp:203-212 | the first index holding the address, or -1 when no entry holds it |
| BackendModel.CheckBreakpoints | src/DebugBackend.cpp:199-215 | on the first entry at `rip - 1` the hit is recorded, `rip` is rewound to the entry's address and its index returned; without a match -1 is returned and nothing changes |
| BackendModel.ResumeAndWait | src/DebugBackend.cpp:326-343 | resuming and checking for a hit keeps the table, memory and command and leaves a valid hit marker |
| BackendModel.StepSingle | src/DebugBackend.cpp:227-237 | the table and command are kept and the hit marker stays valid; without a pending hit memory is unchanged |
| BackendModel.StepOverBreakpoint | src/DebugBackend.cpp:239-254 | corrected re-patch: memory ends with `0xcc` at the hit address while the tracee lives and the entry is enabled, and with the saved byte there otherwise; the table and command are kept |
| BackendModel.StepOverAsWritten | src/DebugBackend.cpp:239-254 | as written: memory ends with `0xcc` at the hit address while the tracee lives, whatever `Enabled` says, and with the saved byte there if it exits during the step |
| BackendModel.AccessibleAgain | src/DebugBackend.cpp:249-253 | after a step (same memory) a word is accessible exactly when the tracee is still there and it was accessible before |
| BackendModel.Continue | src/DebugBackend.cpp:217-225 | continuing keeps the table and command and leaves a valid hit marker |
| BackendModel.Dispatch | src/DebugBackend.cpp:273-309 | every command leaves a valid hit marker |
| BackendModel.RunCommand | src/DebugBackend.cpp:271-314 | every run ends with the slot `DEBUG_CMD_PROCESSED`; a write to `rip` clears the hit marker; the running flag is kept |
| BackendModel.SetCommand | src/DebugBackend.cpp:256-269 | the slot takes the command, except that a quit stops the engine and is marked processed at once; tracee, table and hit are kept |
| BackendProperties.OthersStayResident | src/DebugBackend.cpp:136-137 | patching one address keeps every entry at another address resident |
| BackendProperties.AddKeepsConsistent | src/DebugBackend.cpp:124-145 | adding at a new address preserves the table invariant |
| BackendProperties.AppendKeepsConsistent | src/DebugBackend.cpp:139 | appending a resident entry at a fresh address preserves the table invariant |
| BackendProperties.DeleteKeepsConsistent | src/DebugBackend.cpp:147-164 | deleting an entry preserves the table invariant |
| BackendProperties.RemoveKeepsDistinct | src/DebugBackend.cpp:163 | erasing an entry keeps addresses distinct and shifts the later entries down by one |
| BackendProperties.DeleteKeepsHitTarget | src/DebugBackend.cpp:154-163 | after a delete the hit marker still points at the same entry, or is -1 when that entry was erased |
| BackendProperties.DeleteThenAddRoundTrip | src/DebugBackend.cpp:124-164 | deleting an entry and adding its address again restores the saved byte as an enabled entry, and for an enabled entry the memory |
| BackendProperties.EnableKeepsConsistent | src/DebugBackend.cpp:166-176 | enabling preserves the table invariant |
| BackendProperties.DisableKeepsConsistent | src/DebugBackend.cpp:178-188 | disabling preserves the table invariant |
| BackendProperties.EnableIdempotent | src/DebugBackend.cpp:170 | enabling twice is enabling once |
| BackendProperties.DisableIdempotent | src/DebugBackend.cpp:182 | disabling twice is disabling once |
| BackendProperties.DisableEnableRoundTrip | src/DebugBackend.cpp:166-188 | on a consistent engine, disabling and then enabling an enabled entry gives back the same engine |
| BackendProperties.EnableDisableRoundTrip | src/DebugBackend.cpp:166-188 | on a consistent engine, enabling and then disabling a disabled entry gives back the same engine |
| BackendProperties.TrapIsReported | src/DebugBackend.cpp:199-215 | on a consistent engine, a stop just after an entry's trap byte reports that entry, records it as hit and rewinds `rip` to its address |
| BackendProperties.CheckWrapsAtZero | src/DebugBackend.cpp:199-201 | when the register fetch yields 0, the check looks for the address 2^64-1 |
| BackendProperties.StepOverLeavesTrap | src/DebugBackend.cpp:239-254 | step-over leaves the hit entry's expected byte (`0xcc` when enabled, the saved byte when disabled) at its address while the tracee lives; on a consistent engine memory is as before |
| BackendProperties.StepOverRearmsDisabledEntry | src/DebugBackend.cpp:251-253 | the re-patch as written ignores `Enabled`: an entry disabled after its hit ends with `0xcc` in memory while its flag says disabled |
| BackendProperties.StepOverKeepsResident | src/DebugBackend.cpp:251-253 | with the re-patch made only while the entry is enabled, the hit entry is still resident after the step-over, also when it was disabled after the hit |
| BackendProperties.StepSingleKeepsConsistent | src/DebugBackend.cpp:227-254 | a single step preserves the table invariant while the tracee lives, with or without a pending hit |
| BackendProperties.ContinueKeepsConsistent | src/DebugBackend.cpp:217-225 | continuing preserves the table invariant while the tracee lives, with or without a pending hit |
| BackendProperties.RipWriteClearsHit | src/DebugBackend.cpp:299-313 | writing `rip` clears the hit marker whatever the value, marks the command processed and stores the value while traced |
| Backend.DebugBackend.constructor | src/DebugBackend.cpp:57-70 | an empty table, no hit, an unknown command, not running |
| Backend.DebugBackend.GetData | src/DebugBackend.cpp:76-81 | succeeds exactly when the word is accessible and then returns the peeked word; on failure returns -1 |
| Backend.DebugBackend.SetData | src/DebugBackend.cpp:83-86 | the tracee becomes the poked tracee; nothing else changes |
| Backend.DebugBackend.GetRegister | src/DebugBackend.cpp:88-102 | returns `Tracee.GetRegister` of the current tracee |
| Backend.DebugBackend.SetRegister | src/DebugBackend.cpp:104-122 | the tracee and result are those of `Tracee.SetRegister`; nothing else changes |
| Backend.DebugBackend.Resume | src/DebugBackend.cpp:222-234 | the tracee runs until its next stop; nothing else changes |
| Backend.DebugBackend.AddBreakpoint | src/DebugBackend.cpp:124-145 | the new state is `BackendModel.AddBreakpoint` of the old |
| Backend.DebugBackend.DeleteBreakpoint | src/DebugBackend.cpp:147-164 | the new state is `BackendModel.DeleteBreakpoint` of the old; the `assert` is a precondition |
| Backend.DebugBackend.EnableBreakpoint | src/DebugBackend.cpp:166-176 | the new state is `BackendModel.EnableBreakpoint` of the old |
| Backend.DebugBackend.DisableBreakpoint | src/DebugBackend.cpp:178-188 | the new state is `BackendModel.DisableBreakpoint` of the old |
| Backend.DebugBackend.CheckBreakpoints | src/DebugBackend.cpp:199-215 | the loop over the table yields `BackendModel.CheckBreakpoints` of the old state and its result |
| Backend.DebugBackend.Wait | src/DebugBackend.cpp:326-343 | the new state is that of the breakpoint check |
| Backend.DebugBackend.Continue | src/DebugBackend.cpp:217-225 | the new state is `BackendModel.Continue` of the old |
| Backend.DebugBackend.StepSingle | src/DebugBackend.cpp:227-237 | the new state is `BackendModel.StepSingle` of the old |
| Backend.DebugBackend.StepOverBreakpoint | src/DebugBackend.cpp:239-254 | the new state is `BackendModel.StepOverBreakpoint` of the old, with the corrected re-patch; the `assert` is a precondition |
| Backend.DebugBackend.SetCommand | src/DebugBackend.cpp:256-269 | the new state is `BackendModel.SetCommand` of the old |
| Backend.DebugBackend.GetCommand | src/DebugBackend.h:23 | the kind of the pending command |
| Backend.DebugBackend.RunCommand | src/DebugBackend.cpp:271-314 | the new state and the output are `BackendModel.RunCommand` of the old state |
| ElfIdent.IsFileElf64 | src/DebugUtils.cpp:36-50 | true exactly when the first five bytes are `0x7f 'E' 'L' 'F'` followed by `ELFCLASS64` |
| ElfIdent.WrongMagicNotElf64 | src/DebugUtils.cpp:42-45 | a wrong magic gives false whatever the class byte |
| ElfIdent.OtherClassNotElf64 | src/DebugUtils.cpp:47 | a correct magic with any other class gives false |
| ElfIdent.OnlyIdentPrefixMatters | src/DebugUtils.cpp:39-47 | only the first five bytes are inspected |
| ElfIdent.ReadEntireFile | src/DebugUtils.cpp:6-34 | an open failure gives size 0 and no data; data is absent exactly when the size is 0; data read is the file's first `st_size mod 2^32` bytes, present whenever that many are available |
| ElfDump.EndianLabel | src/elfdump.cpp:62-104 | "Little Endian" exactly when `EI_DATA` is `ELFDATA2LSB`, "Big Endian" otherwise |
| ElfDump.EndianOf | src/elfdump.cpp:62-104 | the endianness named by the label |
| ElfDump.Run | src/elfdump.cpp:106-144 | -1 with a usage report exactly when the argument count is wrong; otherwise 0, and no dump when nothing was read |
| ElfDump.RunClassifies | src/elfdump.cpp:118-140 | a file that was read is reported as not ELF exactly when the magic is wrong; it gets the 64-bit dump exactly when `IsFileElf64` accepts it and the 32-bit dump for any other class; the endianness follows `EI_DATA` |
| ConsoleDebugger.Trim | src/debugger.cpp:264-270 | one trailing newline is removed, and the line is otherwise unchanged |
| ConsoleDebugger.FirstWord | src/debugger.cpp:272-287 | the longest space-free prefix, possibly empty |
| ConsoleDebugger.Tokens | src/debugger.cpp:272-287 | token 0 is the prefix before the first space |
| ConsoleDebugger.Runs | src/debugger.cpp:282-286 | every later token is a non-empty run without spaces |
| ConsoleDebugger.ScanIsRuns | src/debugger.cpp:272-287 | the pointer-pushing scan produces exactly the maximal runs of non-spaces |
| ConsoleDebugger.TokensAreFields | src/debugger.cpp:272-287 | the tokens are the first word followed by the maximal non-space runs after it |
| ConsoleDebugger.Nulled | src/debugger.cpp:277-281 | overwriting spaces with NUL keeps the length |
| ConsoleDebugger.StartsFrom | src/debugger.cpp:275-287 | every pushed start lies inside the line |
| ConsoleDebugger.CStringIsFirstWord | src/debugger.cpp:274-284 | the C string at a pushed pointer in the NUL-split buffer is the word starting there |
| ConsoleDebugger.StartsAreScan | src/debugger.cpp:275-287 | the C strings at the pushed pointers are the scanned tokens |
| ConsoleDebugger.SplitYieldsTokens | src/debugger.cpp:272-287 | the strings of the split buffer are exactly `Tokens` of the line |
| ConsoleDebugger.Split | src/debugger.cpp:272-287 | the loop pushes exactly the token starts and overwrites exactly the spaces with NUL |
| ConsoleDebugger.HexRun | src/debugger.cpp:304 | the longest prefix of hex digits |
| ConsoleDebugger.SkipSpace | src/debugger.cpp:304 | `strtoll` skips exactly the leading white space |
| ConsoleDebugger.StrToLL16 | src/debugger.cpp:304 | `strtoll(s, 0, 16)` saturates at the bounds of `long long` |
| ConsoleDebugger.ParseAddress | src/debugger.cpp:304 | the `long long` result converted to `u64`, negative values wrapping by 2^64 |
| ConsoleDebugger.HexChar | src/debugger.cpp:304 | a digit character that has the given value |
| ConsoleDebugger.HexValueOfHex | src/debugger.cpp:304 | the hex text of a number reads back as that number |
| ConsoleDebugger.HexRunAll | src/debugger.cpp:304 | a string of hex digits is read entirely |
| ConsoleDebugger.ParseAddressOfHex | src/debugger.cpp:304 | an address written in hex, with or without `0x`, parses back to itself up to `LLONG_MAX`, and saturates above it |
| ConsoleDebugger.StrToLL16Unsigned | src/debugger.cpp:304 | unsigned hex text parses to its value, saturated at `LLONG_MAX` |
| ConsoleDebugger.UnPrefixedHex | src/debugger.cpp:304 | hex digits with or without `0x` start with no white space and no sign, and their digits follow the prefix |
| ConsoleDebugger.Classify | src/debugger.cpp:289-320 | continue exactly for c/cont/continue, quit for q/quit, step for s/step, set-breakpoint for b/break, unknown for every other word (register included) |
| ConsoleDebugger.CommandWordFirst | src/debugger.cpp:272-289 | the command word is token 0 whatever follows its spaces; a leading space makes token 0 empty and the command unknown |
| ConsoleDebugger.BreakLineParses | src/debugger.cpp:301-307 | `b 0x<addr>\n` yields a set-breakpoint whose second token parses to the address, up to `LLONG_MAX` |
| ConsoleDebugger.SecondToken | src/debugger.cpp:272-287 | a word, spaces and an argument give token 0 the word and token 1 the argument |
| ConsoleDebugger.FirstWordBefore | src/debugger.cpp:272-287 | the first word ends at the first space |
| ConsoleDebugger.RunsAfterSpaces | src/debugger.cpp:277-286 | leading spaces push no token, and the next run starts at the first non-space |
| ConsoleDebugger.FirstWordAll | src/debugger.cpp:272-287 | a space-free text is its own first word |
| ConsoleDebugger.AddWordBreakpoint | src/debugger.cpp:168-190 | on a successful peek the whole word is saved, only the byte at the address becomes `0xcc` and the entry is appended; otherwise nothing changes |
| ConsoleDebugger.FirstAt | src/debugger.cpp:197-210 | the first index holding the address, or -1 when none does |
| ConsoleDebugger.Session.constructor | src/debugger.cpp:129-130 | an empty breakpoint table for the given tracee |
| ConsoleDebugger.Session.AddBreakpoint | src/debugger.cpp:168-190 | the new tracee and table are those of `AddWordBreakpoint` |
| ConsoleDebugger.Session.CheckBreakpoints | src/debugger.cpp:197-210 | the loop returns the first entry at `rip - 1` (u64 wrap), or -1, and does not rewind `rip` |
| ConsoleDebugger.Session.Continue | src/debugger.cpp:212-224 | the tracee runs to its next stop and the index returned is that check's; the table is kept |
| ConsoleDebugger.Session.GetCommand | src/debugger.cpp:256-321 | the command is the classification of token 0 of the trimmed line; a breakpoint command adds the parsed second token; every other command changes nothing |
| ConsoleDebugger.Session.ReadLine | src/debugger.cpp:258-270 | the buffer of `MAX_COMMAND` characters holds the trimmed line and its NUL |
| ConsoleDebugger.Session.Tokenize | src/debugger.cpp:272-287 | the strings pushed are `Tokens` of the buffer's text |
| Ring.InitialIndex | src/RingBuffer.h:18-22 | the largest multiple of `MAX` that is at most the start value |
| Ring.PushedBack | src/RingBuffer.h:122-132 | the element becomes the newest; a full buffer stays at `MAX` elements |
| Ring.PushedFront | src/RingBuffer.h:108-120 | the element becomes the oldest; a full buffer stays at `MAX` elements |
| Ring.PushAllBack | src/RingBuffer.h:122-132 | pushing any number of elements never exceeds `MAX` |
| Ring.PushAllBackKeepsLast | src/RingBuffer.h:122-132 | after any pushes at the back the contents are the last `MAX` elements of everything pushed |
| Ring.PushPopRoundTrip | src/RingBuffer.h:68-132 | on a buffer with room, a push at either end followed by taking that end off gives back the old contents |
| Ring.RingBuffer.constructor | src/RingBuffer.h:7 | an empty buffer at the initial index |
| Ring.RingBuffer.Initialize | src/RingBuffer.h:10-23 | head and tail are equal, a multiple of `MAX`, and the buffer is empty |
| Ring.RingBuffer.Size | src/RingBuffer.h:45-53 | the number of elements, never more than `MAX` |
| Ring.RingBuffer.PeekAt | src/RingBuffer.h:55-66 | the i-th element from the front, or null at or beyond the size |
| Ring.RingBuffer.PopBack | src/RingBuffer.h:68-86 | the newest element is removed and returned and the tail counter goes down by one; emptying re-initializes; on an empty buffer null and no change |
| Ring.RingBuffer.PopFront | src/RingBuffer.h:88-106 | the oldest element is removed and returned and the head counter goes up by one; emptying re-initializes; on an empty buffer null and no change |
| Ring.RingBuffer.PushFront | src/RingBuffer.h:108-120 | with head 0 nothing changes; otherwise the contents are `PushedFront`, which drops the newest element when full, the head counter goes down by one and the tail counter goes down by one when full |
| Ring.RingBuffer.PushBack | src/RingBuffer.h:122-132 | the contents are `PushedBack`, which drops the oldest element when full; the tail counter goes up by one and the head counter goes up by one when full |
| KeyDecoder.Signed | src/InputHandler.cpp:203-212 | a byte read into a signed `char`: the value modulo 256 is the byte |
| KeyDecoder.ReadInput | src/InputHandler.cpp:203-267 | no byte gives 0; a byte other than ESC is itself, as a signed char; every positive result is a key the editor handles; the bytes consumed are a prefix |
| KeyDecoder.KeyBytes | src/InputHandler.cpp:213-266 | every key has a non-empty encoding |
| KeyDecoder.DecodeKeyBytes | src/InputHandler.cpp:213-266 | decoding the encoding of any key, followed by anything, gives the key and leaves the rest |
| KeyDecoder.AlternativeSequences | src/InputHandler.cpp:227-258 | `ESC [ 1~`, `ESC [ 7~` and `ESC O H` are home; `ESC [ 4~`, `ESC [ 8~` and `ESC O F` are end; unknown sequences give 0; truncated ones give ESC |
| LineEditor.Strlen | src/InputHandler.cpp:61-101 | the length of the C string in the line buffer |
| LineEditor.Text | src/InputHandler.cpp:61-101 | the characters before the first NUL |
| LineEditor.Pad | src/InputHandler.cpp:103-110 | a text followed by NULs to the buffer's 128 bytes |
| LineEditor.StrlenIs | src/InputHandler.cpp:61-101 | the first NUL gives the length |
| LineEditor.PadRoundTrip | src/InputHandler.cpp:103-145 | padding a text gives a line buffer whose text it is |
| LineEditor.LineIsPaddedText | src/InputHandler.cpp:61-110 | every line buffer with NULs after its text is its padded text |
| LineEditor.InsertChar | src/InputHandler.cpp:61-81 | below 127 characters the key is inserted at the cursor and the cursor advances; at 127 nothing changes; the buffer stays NUL after its text and the cursor within it |
| LineEditor.DeleteChar | src/InputHandler.cpp:83-101 | with a character before the cursor it is removed and the cursor moves back; otherwise nothing changes |
| LineEditor.InsertThenDelete | src/InputHandler.cpp:61-101 | inserting a key and then deleting before the cursor restores the line and the cursor |
| LineEditor.SameText | src/InputHandler.cpp:61-110 | two line buffers with the same text are equal |
| LineEditor.InsertLayout | src/InputHandler.cpp:67-78 | the shifted buffer with the key at the cursor is the inserted line |
| LineEditor.DeleteLayout | src/InputHandler.cpp:88-98 | the buffer shifted left over the cursor is the deleted line |
| LineEditor.Clamp | src/InputHandler.cpp:126-131 | a length capped to leave room for the NUL |
| LineEditor.CopiedLine | src/InputHandler.cpp:121-145 | no string clears the line; a string is copied up to 127 characters, the rest is NUL and the cursor is at its end |
| LineEditor.ShiftAsWritten | src/InputHandler.cpp:69-72 | the shift loop as written, `None` when it writes outside the buffer |
| LineEditor.AddCharOverrun | src/InputHandler.cpp:69-72 | at 126 characters with the cursor inside the text, the shift writes outside the 128-byte buffer |
| LineEditor.CopyLoopAsWritten | src/InputHandler.cpp:130-133 | the copy loop as written: it succeeds exactly when `len` fits the buffer, stores `String[k]` at each `k < len`, leaves the bytes below the start alone and ends with `i == len` |
| LineEditor.ZeroLoopAsWritten | src/InputHandler.cpp:134-137 | the zeroing loop as written: it zeroes from `i` up to 128, leaves the bytes below `i` alone and ends with `i` at 128, or where it started when that was past 128 |
| LineEditor.CopyToLineOverrun | src/InputHandler.cpp:128-138 | into the 128-byte line, every copy of a string ends with the store `mLine[128] = 0`, outside the buffer |
| LineEditor.CopyLeavesNoNul | src/InputHandler.cpp:128-138 | even with a byte to spare for that store, a string of 128 or more characters leaves no NUL among the line's 128 bytes |
| LineEditor.Entry | src/InputHandler.cpp:321-344 | a history entry exactly for an index below the size, null at the size |
| LineEditor.EnterKey | src/InputHandler.cpp:283-319 | a non-empty line differing from the newest entry is appended; otherwise the newest entry, if any, is loaded; the cursor goes to 0 and the history index to the size |
| LineEditor.EnterKeyParts | src/InputHandler.cpp:283-319 | the result of Enter has the line and history of `EnterKey`, cursor 0 and index at the size |
| LineEditor.PushKeepsShape | src/InputHandler.cpp:295-304 | appending a non-empty line that differs from the newest entry keeps every entry non-empty and different from its predecessor |
| LineEditor.EnterRecallsNewest | src/InputHandler.cpp:306-316 | when nothing is appended, Enter loads exactly the newest entry |
| LineEditor.Recall | src/InputHandler.cpp:321-344 | loading entry `i` (null at the size) sets the index and keeps the history |
| LineEditor.RecallParts | src/InputHandler.cpp:321-344 | the state after loading entry `i` is `Recall` |
| LineEditor.DownRecalls | src/InputHandler.cpp:321-335 | Down below the size loads the next entry |
| LineEditor.DownClears | src/InputHandler.cpp:321-335 | Down at the size clears the line and keeps the index |
| LineEditor.UpRecalls | src/InputHandler.cpp:336-344 | Up above 0 loads the previous entry |
| LineEditor.UpStops | src/InputHandler.cpp:336-344 | Up at index 0 changes nothing |
| LineEditor.HistoryKey | src/InputHandler.cpp:321-344 | history navigation keeps the editor valid and never changes the history |
| LineEditor.CursorKey | src/InputHandler.cpp:345-366 | cursor motion keeps the editor valid |
| LineEditor.Step | src/InputHandler.cpp:269-374 | every key keeps the line NUL after its text, the cursor within it, and the history well formed |
| LineEditor.MotionKeepsText | src/InputHandler.cpp:345-366 | left and right move by one within the text; home goes to 0 and end to the length; line and history are unchanged |
| LineEditor.EnterThenUpRecalls | src/InputHandler.cpp:283-344 | after Enter stores a line, Up loads that line back |
| LineEditor.UpThenDown | src/InputHandler.cpp:321-344 | Up then Down returns to the same history index |
| LineEditor.EnterOnEmptyLineRepeats | src/InputHandler.cpp:306-316 | Enter on an empty line loads the newest entry |
| LineEditor.FillLine | src/InputHandler.cpp:130-137 | the copy and zero-fill loops leave the padded prefix of the string |
| LineEditor.ShiftRight | src/InputHandler.cpp:69-72 | the loop moves the text from the cursor one place right and leaves the rest |
| LineEditor.InsertAt | src/InputHandler.cpp:67-78 | the buffer becomes `InsertChar` of the old buffer |
| LineEditor.ShiftLeft | src/InputHandler.cpp:90-93 | the loop moves the text after the position one place left and leaves the rest |
| LineEditor.DeleteBefore | src/InputHandler.cpp:88-98 | the buffer becomes `DeleteChar` of the old buffer |
| LineEditor.InputHandler.constructor | src/InputHandler.cpp:9-19 | an empty line, cursor 0, empty history, index 0 |
| LineEditor.InputHandler.ClearLine | src/InputHandler.cpp:103-110 | the line is all NUL and the cursor 0 |
| LineEditor.InputHandler.AddCharToLine | src/InputHandler.cpp:61-81 | line and cursor become `InsertChar` of the old ones |
| LineEditor.InputHandler.RemoveCharFromLine | src/InputHandler.cpp:83-101 | line and cursor become `DeleteChar` of the old ones |
| LineEditor.InputHandler.CopyToLine | src/InputHandler.cpp:121-145 | line and cursor become `CopiedLine` of the string |
| LineEditor.InputHandler.ProcessKeyPress | src/InputHandler.cpp:269-374 | the editor's new state is `Step` of the old state and the key; the history's footprint is kept, and its tail counter goes up by one exactly when Enter stores the line |
| LineEditor.InputHandler.HandleHistoryKey | src/InputHandler.cpp:321-344 | the new state is `HistoryKey` of the old |
| LineEditor.InputHandler.HistoryDown | src/InputHandler.cpp:321-335 | the new state is Down's `HistoryKey` of the old |
| LineEditor.InputHandler.HistoryUp | src/InputHandler.cpp:336-344 | the new state is Up's `HistoryKey` of the old |
| LineEditor.InputHandler.HandleCursorKey | src/InputHandler.cpp:345-366 | the new state is `CursorKey` of the old |
| LineEditor.InputHandler.LoadEntry | src/InputHandler.cpp:321-344 | the new state is `Recall` of the old |
| LineEditor.InputHandler.ShouldStore | src/InputHandler.cpp:285-300 | true exactly when Enter appends the line |
| LineEditor.InputHandler.StoreLine | src/InputHandler.cpp:304 | the history becomes `PushedBack` with the line, with the same footprint and the tail counter one higher |
| LineEditor.InputHandler.RecallNewest | src/InputHandler.cpp:306-316 | the newest entry, if any, is loaded into the line |
| LineEditor.InputHandler.StoreOrRecall | src/InputHandler.cpp:302-316 | line and history become those of `EnterKey`; the history's footprint is kept, and its tail counter goes up by one exactly when the line is stored |
| LineEditor.InputHandler.StoreEntered | src/InputHandler.cpp:302-304 | when the line is stored, line and history become those of `EnterKey`, with the same footprint and the tail counter one higher |
| LineEditor.InputHandler.RecallEntered | src/InputHandler.cpp:306-316 | when nothing is stored, line and history become those of `EnterKey` |
| LineEditor.InputHandler.HandleEnter | src/InputHandler.cpp:283-319 | the new state is `EnterKey` of the old; the history's footprint is kept, and its tail counter goes up by one exactly when the line is stored |
| LineEditor.InputHandler.ResetPosition | src/InputHandler.cpp:317-318 | cursor 0 and the history index at the size |
| HexDump.HexN | src/PrintData.cpp:54 | exactly `w` digits |
| HexDump.HexNRoundTrip | src/PrintData.cpp:54-65 | the lowercase hex text of a number below 16^w reads back as the number |
| HexDump.Hex2 | src/PrintData.cpp:65 | two hex digits per byte |
| HexDump.TimeStamp | src/PrintData.cpp:129 | the 18-character time stamp ending in `" - "` |
| HexDump.Shown | src/PrintData.cpp:41-101 | a byte shows as `.` exactly when it is 0..31 or a dot itself; bytes from 0x7f up are not replaced, because `char` is signed |
| HexDump.AsciiCol | src/PrintData.cpp:41-82 | always 16 characters: each byte shown, and `.` where a short line has no byte |
| HexDump.ColumnPrefix | src/PrintData.cpp:44-82 | the first `n` column characters, shown bytes or `.` beyond the data |
| HexDump.Head | src/PrintData.cpp:54 | a newline, eight hex digits and a colon |
| HexDump.Cell | src/PrintData.cpp:58-66 | a byte takes three characters at an even index (the space) and two at an odd one |
| HexDump.Spaces | src/PrintData.cpp:73-74 | exactly `n` spaces |
| HexDump.ColumnText | src/PrintData.cpp:42-84 | `"   ("`, 16 characters and `")"` |
| HexDump.LineEnd | src/PrintData.cpp:35-37 | line `k` holds between one and 16 bytes, starting at byte 16k |
| HexDump.Chunk | src/PrintData.cpp:35-37 | each line's bytes number between one and 16 |
| HexDump.Lines | src/PrintData.cpp:35-101 | the first `n` lines take 71 characters each |
| HexDump.LinesLength | src/PrintData.cpp:35-101 | the assembled lines take 71 characters each |
| HexDump.LinesAllWide | src/PrintData.cpp:35-101 | every line is 71 characters |
| HexDump.LineLength | src/PrintData.cpp:70-101 | every line, a short last line included, is 71 characters |
| HexDump.CellsLength | src/PrintData.cpp:58-66 | the byte cells of a line take two characters per byte and a space per pair |
| HexDump.PaddingFits | src/PrintData.cpp:70-74 | the padding of a short last line makes its cells as wide as a full line's |
| HexDump.DumpLength | src/PrintData.cpp:33-101 | the dump is the time stamp and 71 characters per line |
| HexDump.LinesPrefix | src/PrintData.cpp:35-101 | line `k` sits at position 71k of the lines |
| HexDump.LineAt | src/PrintData.cpp:35-101 | line `k` sits at 71k after the time stamp |
| HexDump.LineHeader | src/PrintData.cpp:37-54 | every line starts with a newline, the offset of its first byte as eight hex digits, and a colon |
| HexDump.OffsetsReadBack | src/PrintData.cpp:37-54 | the eight hex digits of each line of the dump read back as the offset of its first byte |
| HexDump.SizingTooSmall | src/PrintData.cpp:19-33 | one byte with the time stamp needs 90 bytes, and the size as written is 80 |
| HexDump.LengthRequired | src/PrintData.cpp:19 | the corrected size, at least one line |
| HexDump.DumpFits | src/PrintData.cpp:19-31 | with the corrected size the dump and its NUL always fit |
| HexDump.WrittenIsProgress | src/PrintData.cpp:35-68 | what the byte loop has written after `i` bytes is the complete lines before and the current line so far |
| HexDump.LastLine | src/PrintData.cpp:70-101 | the loop's text and the last line's tail make up all the lines |
| HexDump.DumpAssembled | src/PrintData.cpp:33-101 | time stamp, byte loop and tail together are the whole dump |
| HexDump.ShortTail | src/PrintData.cpp:70-86 | a short last line is padded with `2m + m/2` spaces for `m` missing bytes before its column |
| HexDump.FullLastTail | src/PrintData.cpp:87-101 | a full last line is followed by its column |
| HexDump.PrintData.constructor | src/PrintData.cpp:8-9 | no buffer |
| HexDump.PrintData.GetTimeAsString | src/PrintData.cpp:107-132 | the buffer grows to 20 if it is smaller or missing, and holds exactly the time stamp |
| HexDump.PrintData.AsciiColumn | src/PrintData.cpp:43-50 | the column loop computes `AsciiCol` |
| HexDump.PrintData.WriteBytes | src/PrintData.cpp:35-68 | the byte loop appends `Written` of all the bytes |
| HexDump.PrintData.WriteByte | src/PrintData.cpp:37-67 | one step of the byte loop extends `Written` by one byte |
| HexDump.PrintData.AppendByte | src/PrintData.cpp:37-67 | appends one byte's text, with a line break before it when a line starts |
| HexDump.PrintData.AppendLineBreak | src/PrintData.cpp:37-57 | appends the previous line's column and the next header, or only the header at byte 0 |
| HexDump.PrintData.AppendCell | src/PrintData.cpp:58-67 | appends the byte's cell |
| HexDump.PrintData.AppendSpaces | src/PrintData.cpp:73-74 | appends `n` spaces |
| HexDump.PrintData.AppendColumn | src/PrintData.cpp:42-51 | appends the column text |
| HexDump.PrintData.WriteLastColumn | src/PrintData.cpp:70-101 | appends the tail of the last line |
| HexDump.PrintData.GetDataAsString | src/PrintData.cpp:11-105 | a length of 0 or less returns the current buffer (null when none was allocated) untouched; otherwise the buffer holds exactly the time stamp and the dump of the first `Length` bytes, and is reallocated to the corrected size only when that exceeds its capacity |
| HexDump.PrintData.WriteDump | src/PrintData.cpp:33-101 | the text becomes exactly the dump, in a buffer of unchanged capacity |

## Left out

- Process control (`fork`, `execl`, `waitpid`, `kill`, `personality`, `SigHandler`, `RunTarget`, `RunDebugger`): the tracee is abstract, and execution is an oracle that sets the registers at the next stop or reports that the process exited.
- `GetSignalInfo` and the final `assert` on the signal number: they only print, and the signal is not part of the abstract tracee.
- `Run`, `mThread`, `mMutex` and `SetCommand`'s thread join: concurrency; only the change to the command slot and the running flag is modelled.
- All `printf`/`fprintf` text, including the `PTRACE` macro's error print and the wait and hit messages. `RunCommand`'s listing, register read and register write become `Output` values instead of format strings.
- `Tracee.Peek`: the `errno` convention becomes an `Option` result; the failing peek's `-1` only reappears in `Backend.DebugBackend.GetData`.
- Backend.DebugBackend.CheckBreakpoints: it requires fewer than 2^31 entries, because the index found is returned as an `int` and stored in `mBreakpointHit`.
- Backend.DebugBackend.RunCommand: it requires a valid index for delete, enable and disable, because these are `assert`s in the source. It requires a register below 27 for register commands, because the source indexes the register array with it.
- Backend.DebugBackend.StepSingle: it takes the second single step after a step-over as written. It is not corrected: every property proved here holds with the extra step.
- Backend.DebugBackend.StepOverBreakpoint: it uses the corrected step-over, which writes the trap byte back only while the entry is enabled (see Findings). `BackendModel.StepOverAsWritten` is the code as written.
- The register names printed with register commands: they are print-only.
- `DumpElf32`/`DumpElf64` field printing: only the endianness label and the choice between the two dumps are modelled.
- ElfDump.Run: it requires that a buffer that was read hold the six identification bytes. The source reads `e_ident[4]` and `e_ident[5]` without a length check.
- ElfIdent.IsFileElf64: it requires five bytes, because the source inspects five bytes without a length check.
- ElfIdent.ReadEntireFile: `fopen`, `stat` and `fread` become a `FileAccess` parameter. A failing `stat` and a failing `new` are not modelled.
- `elfdump.cpp`'s copy of `ReadEntireFile` (`src/elfdump.cpp:27-60`): it behaves like the modelled copy apart from its error messages.
- ConsoleDebugger.Trim: at end of input `fgets` stores nothing, and the code then reads `input[-1]`. The model does not model that out-of-bounds read; it treats the empty line as a line without a newline.
- ConsoleDebugger.Session.GetCommand: "b", "break" and "register" without a second token read `strings[1]` out of bounds. This is excluded by the `ArgumentPresent` precondition.
- ConsoleDebugger.Session.GetCommand: "register read"'s print of `rip` is left out, because it only prints. The command is classified as unknown, as in the source.
- ConsoleDebugger.Session.ReadLine: `fgets` becomes a string parameter without NUL characters, up to `MAX_COMMAND - 2` characters and the newline.
- `debugger.cpp`'s `StepOverBreakpoint` (231-241), `StepSingle`'s bare `PTRACE_SINGLESTEP`, `main` and `RunDebugger` (323-411): process control.
- `src/gui.cpp`, `src/console.cpp`, `src/main.cpp`: user interface code with no modellable logic.
- Ring.RingBuffer.PushBack: it requires `tail + 1 < 2^32`, so the 32-bit wrap of the head and tail counters is not modelled. `Size`'s branch for a negative difference is therefore never taken.
- `CRingBuffer::Print`: printing only.
- Terminal work in `InputHandler.cpp`: raw mode (170-201), `PutLine`, `ClearPrompt`, `FlushStream`, and `GetInput`'s `read` and sleep loop (26-59). `ProcessKeyPress` is modelled for its state changes.
- KeyDecoder.ReadInput: the bytes available are a parameter. The 1-byte `read` calls that may time out become the end of that sequence. A failing first `read` (-1) is not distinguished from no input (0).
- LineEditor.InputHandler.AddCharToLine: it requires a non-NUL key, because a NUL would end the C string at the cursor. The DEL and page keys reach it through `ProcessKeyPress`, truncated to a `char` as in the source.
- LineEditor.InputHandler.AddCharToLine: it uses the corrected insertion, whose shift stays inside the buffer (see Findings).
- LineEditor.InputHandler.CopyToLine: it uses the corrected copy, which takes at most 127 characters and keeps the NUL inside the buffer (see Findings).
- HexDump.PrintData.GetTimeAsString: the clock becomes a `Clock` parameter holding hour, minute, second and microseconds.
- HexDump.PrintData.GetDataAsString: it requires a length below 2^31, so the `int` overflow of `length_required` is not modelled. It uses the corrected buffer size (see Findings).

## Findings

| source | as written | input that shows it | evidently intended | confidence | as-written member | corrected member |
|---|---|---|---|---|---|---|
| src/InputHandler.cpp:69-72 | the shift loop starts at index `strlen + 1` | a line of 126 characters with the cursor inside the text: the loop writes `mLine[128]`, one past the 128-byte buffer | shift only within the buffer, so that inserting into a 126-character line gives a 127-character line | not executed | LineEditor.AddCharOverrun | LineEditor.InsertChar |
| src/InputHandler.cpp:128-138 | the zero-fill loop runs to index 128 inclusive, and the copy takes up to 128 characters | every call with a string writes `mLine[128]`; a 128-character string leaves no NUL inside the buffer | copy at most 127 characters and zero-fill indices up to 127 | not executed | LineEditor.CopyToLineOverrun | LineEditor.CopiedLine |
| src/DebugBackend.cpp:251-253 | after the nested step the trap byte is written back whether or not the entry is enabled | stop on a breakpoint, disable it (`DisableBreakpoint` keeps `mBreakpointHit`), then step or continue: the entry says disabled while `0xcc` is in memory again, so the tracee traps there once more | write the trap byte back only while the entry is enabled | not executed | BackendProperties.StepOverRearmsDisabledEntry | BackendProperties.StepOverKeepsResident |
| src/PrintData.cpp:19 | `length_required = ((Length + 8) / 8) * 80` | one byte with the 18-character time stamp: the text and its NUL take 90 bytes, and the buffer gets 80 | one 80-character line per dump line, plus one for the time stamp | not executed | HexDump.SizingTooSmall | HexDump.DumpFits |
