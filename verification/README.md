# NanLang: a verified model

NanLang is a small compiler toolchain: two native back ends, a bytecode compiler with its virtual machine, a few
optimiser passes, run-time structures for threads and pipelines, and a streaming analyser. This project models its
core in Dafny 4.11 and proves what it does, up to the trace of the produced executables. `dafny verify dfyconfig.toml`
checks all of it.

## How it is laid out

- `source.dfy`, `parser.dfy`, `aot.dfy`, `aotcorrect.dfy`: the AOT compiler from source lines to the trace of the
  executable.
- `frames.dfy`: prologue and epilogue of functions other than main.
- `native.dfy`: the second native back end and the agreement of the two.
- `frontends.dfy`: where the two front ends print the same say line differently.
- `layout.dfy`, `machine.dfy`, `elf.dfy`, `process.dfy`: what both share. Code with a data pool and back-patched
  displacements; a machine for the instructions that are emitted (RIP-relative addressing by section 2.2.1.6 of the
  Intel SDM, volume 2); files and their loading by chapters 4 and 5 of the System V gABI.
- `lines.dfy`, `bytecode.dfy`: the bytecode compiler from source lines, the virtual machine, and where it agrees with
  the native back end; `programs.dfy`: what a source prints, from its lines; `files.dfy`: what the virtual machine does
  with any file.
- `text.dfy`, `directives.dfy`, `numbers.dfy`, `strings.dfy`, `base64.dfy`: quoting and its readers, comment stripping,
  words, numbers, base64.
- `queue.dfy`, `deadlock.dfy`, `predictor.dfy`, `reorder.dfy`: the performance structures; `exclusion.dfy`: who holds
  what over a whole run of the detector; `reordermeaning.dfy`: when reordering keeps what a program computes.
- `rle.dfy`, `folding.dfy`, `coloring.dfy`: the optimiser passes.
- `pulse.dfy`: the streaming analyser.
- `bytes.dfy`, `counting.dfy`, `wrappers.dfy`: bytes, little-endian fields, pigeonholes, options.

Objects that the program updates in place are classes here, its loops are loops; each is proved against a function on
values, and the theorems are about those functions. A byte is an integer below 256, a machine word one below 2^64; a
string is a sequence of characters whose bytes are its character codes modulo 256.

## Where the code and its descriptions differ

The model follows the code.

- A say line whose text has `=>` is taken for a match arm and lost (`FrontEnd.SayPrintedExact`). The second test for a
  closing brace, which would forget the arm taken, is never reached: only the next header does that.
- `has_cycle` is one step too short for 32 threads, and `try_acquire` leaves `waiting` set on success. Exactly when
  that lets a deadlock form is `Deadlock.RunExact`, with two runs that do.
- A detector that once let a thread take what it had waited for can refuse a wait that is safe
  (`Deadlock.NeedlessRefusal`). Exactly when it refuses is `Deadlock.RefusalExact`.
- `reorder` can lose instructions, exactly as `Reorder.LosesExact` says, and can hoist a read over the write it needs or
  a write over an earlier one (`ReorderMeaning.ReadHoistedOverWrite`, `ReorderMeaning.WriteHoistedOverWrite`). What
  keeps the meaning is `ReorderMeaning.ReorderKeepsMeaning`, with its converse for single assignment in
  `ReorderMeaning.SingleAssignmentExact`; programs that write a register several times are decided by
  `ReorderMeaning.MeaningIsTerms`, since there a later write can make up for a dependence that was not kept
  (`ReorderMeaning.KeepingIsNotNeeded`).
- The minimizer is meant to make the code smaller on each call (`include/nan_compiler.h:150`). It goes below what it had
  before exactly as the contract of `Folding.SizeMinimizer.Minimize` says, never for a code it has seen, and can make
  code longer (`Folding.SingleByteGrows`).
- The two front ends unescape differently: the AOT compiler has no escape for a backslash or a zero byte
  (`FrontEnds.SameEscapesExact`, `FrontEnds.SamePrintExact`).
- `strip_nops` and `fold_bytecode` look at bytes, so operands can be mistaken for instructions. Exactly when they are
  is `Folding.StripExact` and `Folding.FoldExact`.
- The native front end collects output behind a halt and prints the line of an MMIO write; the virtual machine stops at
  the halt and performs the write (`SourceLines.SourceAgreesExact`). An MMIO write out of range is an error for the
  bytecode compiler alone (`SourceLines.AcceptedExact`).

## Model

| member | source | states |
|---|---|---|
| Source.SourceRuns | src/nan_aot_compiler.cpp:42-174 | The executable of any source written with say lines without `=>`, halts, match blocks and lines without effect, in any spelling and layout, loads and, run from its entry point on any register contents, performs exactly the writes that first-match semantics gives up to the first halt, then exits with status 0, whatever the parser's statics were left at. Every displacement below 2^31. |
| Source.Compile | src/nan_aot_compiler.cpp:431-500 | The pipeline parser, generator, ELF builder returns the file that SourceRuns is about, and nothing for an empty source. |
| FrontEnd.Parser.CutComment | src/nan_aot_compiler.cpp:57-67 | The line up to the first `//` outside quotes, where every quote toggles. |
| FrontEnd.Parser.CleanLine | src/nan_aot_compiler.cpp:56-74 | The line without comment and without spaces and tabs around it. |
| FrontEnd.LayoutIgnored | src/nan_aot_compiler.cpp:56-74 | Indentation, trailing blanks and a comment change nothing about a line whose quotes close and which has no bare `//`. |
| FrontEnd.SayLineCloses | src/nan_aot_compiler.cpp:57-67 | A say line whose text has no quote is such a line, even with `//` in its text. |
| FrontEnd.Parser.UnescapeText | src/nan_aot_compiler.cpp:131-146 | The loop unescapes \n, \t, \r and the quote and keeps any other backslash; what that computes is FrontEnds.SameEscapesExact. |
| FrontEnds.SameEscapesExact | src/nan_aot_compiler.cpp:131-146 | It unescapes like the other front end if and only if no escape that the scan meets is that of a backslash or a zero byte. |
| FrontEnds.PlainUnchanged | src/nan_aot_compiler.cpp:131-146 | A text without a backslash is left as it is, by both. |
| FrontEnds.QuotedSurvivesExact | src/nan_aot_compiler.cpp:131-146 | A text that was quoted comes back if and only if it has no backslash. |
| FrontEnds.SamePrintExact | src/nan_aot_compiler.cpp:127-155 | So of one say line with a quoted text both front ends print the same if and only if the text has no backslash and the line no `=>`. |
| FrontEnd.Parser.HandleLine | src/nan_aot_compiler.cpp:76-162 | One line's effect on the two statics, what it emits, and whether a HALT has been emitted. |
| FrontEnd.SkippedExact | src/nan_aot_compiler.cpp:76-83 | The lines that are passed over are just empty ones, three kinds of braces, and those that start with one of six words. |
| FrontEnd.PrintsExact | src/nan_aot_compiler.cpp:127-155 | A say line prints if and only if it has two quotes. |
| FrontEnd.Parser.Parse | src/nan_aot_compiler.cpp:42-174 | Error on an empty source and otherwise main with the lowered lines, completed by a HALT if there is none; the statics end as the last line left them. |
| FrontEnd.SayHandled | src/nan_aot_compiler.cpp:127-155 | A say line without `=>`, with anything but quotes around its literal, emits one PRINT of the unescaped literal and a line feed, and changes no static. |
| FrontEnd.SayPrintedExact | src/nan_aot_compiler.cpp:107-155 | As long as the value matched on does not itself start with `say `, a say line is printed if and only if it has no `=>`. |
| FrontEnd.HeaderHandled | src/nan_aot_compiler.cpp:90-100 | A match header sets the value before its brace, trimmed, and forgets the arm taken before. |
| FrontEnd.OpenHeaderHandled | src/nan_aot_compiler.cpp:90-98 | A match header without a brace forgets the arm taken, but keeps the value. |
| FrontEnd.HaltHandled | src/nan_aot_compiler.cpp:157-162 | A line that starts with halt and has no `=>` emits a HALT. |
| FrontEnd.ArmHandled | src/nan_aot_compiler.cpp:107-126 | An arm whose pattern starts neither like a declaration nor like a header is taken exactly when none has been since the header and its pattern is the value or `_`. |
| FrontEnd.BodyLowered | src/nan_aot_compiler.cpp:107-126 | The lines of a match, those without effect among them, emit what the first arm that applies says, and nothing if one was taken already. |
| FrontEnd.SourceMeaning | src/nan_aot_compiler.cpp:56-163 | For every source of well-formed items the lowered code is that of first-match semantics, whatever the layout and the leftover statics. |
| FrontEnd.SourceMeaningExact | src/nan_aot_compiler.cpp:107-126 | Without the condition on say lines: the lowered code is the meaning if and only if no say line has `=>`, as long as no value matched on starts with `say `. |
| FrontEnd.AlwaysHalts | src/nan_aot_compiler.cpp:165-169 | main always has a HALT, and completing it adds no output. |
| Aot.X64Generator.EmitMovRegImm64 | src/nan_aot_compiler.cpp:234-240 | Appends the encoding of mov r64, imm64. |
| Aot.X64Generator.EmitLeaRsiRipPlaceholder | src/nan_aot_compiler.cpp:279-287 | Appends lea rsi with a zero displacement and returns the place of the displacement. |
| Aot.X64Generator.EmitPrint | src/nan_aot_compiler.cpp:332-358 | Appends the code of a PRINT, its string to the pool and the fixup that joins them. |
| Aot.X64Generator.EmitHalt | src/nan_aot_compiler.cpp:360-368 | Appends the code of a HALT. |
| Aot.X64Generator.GenerateInstruction | src/nan_aot_compiler.cpp:322-375 | Appends what one instruction stands for: immediate MOV, PRINT, HALT, or a NOP for anything else. |
| Aot.X64Generator.GenerateBasicBlock | src/nan_aot_compiler.cpp:316-320 | Appends the chunks of all instructions of a block. |
| Aot.X64Generator.GenerateFunction | src/nan_aot_compiler.cpp:289-314 | Prologue, blocks, epilogue and return of one function; main has only the return. |
| Aot.X64Generator.PlaceStrings | src/nan_aot_compiler.cpp:393-400 | Every string's offset is the total size of the strings before it. |
| Aot.X64Generator.PatchFixup | src/nan_aot_compiler.cpp:407-419 | One fixup patched in place makes one more displacement of the image final. |
| Aot.X64Generator.PatchAll | src/nan_aot_compiler.cpp:402-419 | Afterwards all displacements are final and nothing else has changed. |
| Aot.X64Generator.Generate | src/nan_aot_compiler.cpp:377-427 | The buffer ends as the linked program: code, final displacements, string pool. |
| Layout.PatchNext | src/nan_aot_compiler.cpp:407-419 | Writing a four-byte field at the next fixup turns the image with k final displacements into the one with k + 1. |
| Layout.RefPlaced | src/nan_aot_compiler.cpp:393-424 | In the linked image every reference's displacement leads from behind its field to its own data, and the data is there. |
| Process.FieldReadsBack | src/nan_aot_compiler.cpp:412-418 | What is read from the field, with its sign, is the displacement it was written for if and only if that is in the range of a signed 32-bit number. |
| Process.SmallFits | src/nan_aot_compiler.cpp:402-427 | All displacements are, if the linked code and data are below 2^31 bytes. |
| Process.Loaded | src/nan_aot_compiler.cpp:502-570 | The file around linked code loads as one readable and executable segment with the entry behind the headers. |
| Machine.DecodeMovImm64 | src/nan_aot_compiler.cpp:234-240 | The emitted bytes decode as mov r64, imm64 with exactly this register and value. |
| Machine.DecodeMovImm32 | src/nanlang_cpp.cpp:961-964 | The emitted bytes decode as a move of the sign-extended 32-bit immediate. |
| Machine.DecodeLeaRsi | src/nan_aot_compiler.cpp:279-287 | The emitted bytes decode as lea rsi relative to the next instruction, section 2.2.1.6 of the Intel SDM, volume 2. |
| Machine.RunWrite | src/nan_aot_compiler.cpp:346-356 | The five emitted instructions, placed anywhere, perform one write of just the bytes the displacement points at and go on behind themselves. |
| Machine.RunExit | src/nan_aot_compiler.cpp:360-368 | The emitted exit sequence ends the process with status 0 and leaves the trace. |
| Machine.OutcomeUnique | src/nan_aot_compiler.cpp:322-375 | A run has one outcome: what a program is shown to end in is the only thing it can end in. |
| AotCorrect.RunPrint | src/nan_aot_compiler.cpp:332-358 | A PRINT anywhere in a linked program writes its own text, whatever the registers hold. |
| AotCorrect.RunMov | src/nan_aot_compiler.cpp:324-330 | A move of an immediate loads just its register with just its value; any other move does nothing. |
| Frames.PrologueExact | src/nan_aot_compiler.cpp:289-299 | Outside main the prologue saves the caller's rbp below the return address and makes room for just the locals if and only if their size is at most 2^31 or within 2^31 of 2^64. |
| Frames.CallReturns | src/nan_aot_compiler.cpp:306-314 | A function that keeps rbp and its two slots goes back where its return address says, with the caller's rbp and the return address taken off, whatever became of rsp. |
| AotCorrect.RunReturn | src/nan_aot_compiler.cpp:308-313 | Reaching the return of main faults: there is no caller. |
| AotCorrect.GeneratedProgramRuns | src/nan_aot_compiler.cpp:234-427 | For every list of functions that starts with main, every displacement below 2^31: the file loads, and the run makes one write per PRINT before the first HALT of main, in order, with the right bytes, and exits with status 0 if main has a HALT, faults if it has none. |
| AotCorrect.CompileToNative | src/nan_aot_compiler.cpp:431-500 | The output is the linked code, wrapped as an ELF file exactly when asked for. |
| Elf.BuildElfExecutable | src/nan_aot_compiler.cpp:502-570 | Byte for byte the header fields of the gABI and the code. |
| Elf.BuildElfImage | src/nanlang_cpp.cpp:1183-1229 | The other builder, by 16-, 32- and 64-bit appends: the same file. |
| Elf.FieldsReadBack | src/nan_aot_compiler.cpp:512-566 | Read at the offsets of chapters 4 and 5 of the System V gABI, all header fields have the value they should, unused ones included. |
| Elf.LoadsBack | src/nan_aot_compiler.cpp:502-570 | A loader that follows the gABI accepts the file and maps the whole of it at its address. |
| Native.EmitNativePayload | src/nanlang_cpp.cpp:1127-1181 | The payload is the linked list of writes and an exit. |
| Native.PatchI32 | src/nanlang_cpp.cpp:973-978 | Four bytes change, to the little-endian displacement. |
| Native.PayloadRuns | src/nanlang_cpp.cpp:1127-1181 | For every list of texts, each text and every displacement below 2^31: the payload in its ELF file writes exactly those texts in order and exits with status 0. |
| Native.BackEndsAgree | src/nanlang_cpp.cpp:1127-1181 | Both native back ends, on the same texts, end in the same state with the same trace, on any register contents. |
| Native.BuildBoth | src/nanlang_cpp.cpp:1183-1229 | Both ELF builders return the same file for the same code. |
| Bytecode.EmitStoreSequence | src/nanlang_cpp.cpp:310-318 | LOAD value, STORE port. |
| SourceLines.KeywordExact | src/nanlang_cpp.cpp:171-176 | A line starts with a keyword if and only if that is its first word, up to a blank or semicolon; so the order in which keywords are tried does not matter. |
| SourceLines.SkipLine | src/nanlang_cpp.cpp:1500-1537 | The lines without effect, the same in both front ends. |
| SourceLines.ParsePulseOrEmit | src/nanlang_cpp.cpp:287-308 | The signal named by the word behind the keyword, or an error. |
| SourceLines.ParseMmio | src/nanlang_cpp.cpp:1575-1603 | A store, a line to ignore, or an error, by the two numbers around the equals sign. |
| Numbers.NumberExact | src/nanlang_cpp.cpp:1587-1588 | A number in octal, decimal or hexadecimal, of either case, with or without blanks and a sign before it and anything behind it, is read as it was written; a minus wraps around, and more than 64 bits are no number. |
| Numbers.ZeroRead | src/nanlang_cpp.cpp:1587-1588 | A zero with neither an octal digit nor a hexadecimal number behind it is a zero. |
| Numbers.NoNumber | src/nanlang_cpp.cpp:1587-1600 | Without a decimal digit there is no number. |
| SourceLines.CompileLine | src/nanlang_cpp.cpp:1500-1611 | What the bytecode compiler makes of a line, in the order of its tests. |
| SourceLines.CollectLine | src/nanlang_cpp.cpp:1022-1117 | What the native front end makes of it, in the order of its own tests. |
| SourceLines.CompileSource | src/nanlang_cpp.cpp:1471-1618 | For every source: an error, or magic number, the statements of its lines, and a HALT if there is none. |
| SourceLines.ParseNativeProgram | src/nanlang_cpp.cpp:1006-1125 | For every source: an error, or all writes in order; what a user interface directive writes is a parameter. |
| SourceLines.AcceptedExact | src/nanlang_cpp.cpp:1006-1618 | The bytecode compiler takes a source if and only if the native front end does and every MMIO write that can be read is in range. |
| Programs.SayLineCompiles | src/nanlang_cpp.cpp:1538-1552 | A say line with any quoted text, in any layout, is a say statement with that text. |
| Programs.OpenSayFails | src/nanlang_cpp.cpp:1538-1543 | A say line without quotes, or with one that does not close, is an error. |
| Programs.HaltLineCompiles | src/nanlang_cpp.cpp:1554-1560 | A halt line, with or without semicolon, in any layout, halts. |
| Programs.HaltExact | src/nanlang_cpp.cpp:1554-1560 | The lines that halt are just those whose first word is halt. |
| Programs.DirectiveExact | src/nanlang_cpp.cpp:1074-1080 | Directives are just the lines whose first word is ui: nothing to the bytecode compiler, and what the user interface makes of them to the native front end. |
| Programs.OtherLinesNothing | src/nanlang_cpp.cpp:1500-1611 | A line that starts with none of five words and not with an at sign has no effect in either front end. |
| Programs.SignalExact | src/nanlang_cpp.cpp:239-285 | Exactly five tokens are signals, and each is printed by its name. |
| Programs.SignalLineCompiles | src/nanlang_cpp.cpp:287-308 | A pulse or emit line is that statement if the word behind the keyword is one of the five, and an error if not. |
| Programs.SignalLineRead | src/nanlang_cpp.cpp:1562-1573 | So in any layout, with or without semicolon. |
| Programs.NameExact | src/nanlang_cpp.cpp:1646-1662 | Five bytes are printed by the name of their signal, the byte that their token stands for; all others by two hexadecimal digits. |
| Programs.StoreLineCompiles | src/nanlang_cpp.cpp:1575-1603 | An MMIO line with any numbers of 64 bits, in any layout, is that store if both are one byte and an error if not; the native front end takes it in any case. |
| Programs.NoStore | src/nanlang_cpp.cpp:1575-1603 | An MMIO line without an equals sign, or without a number on one side of it, is ignored by the bytecode compiler. |
| Programs.SizeExact | src/nanlang_cpp.cpp:1471-1618 | The size of the file: four bytes, each statement's, and one for a halt only if there is none. |
| Programs.PrintsConcat | src/nanlang_cpp.cpp:1471-1758 | Two sources one behind the other, compiled and run, print what both print, unless the first one halts: then what it prints. |
| Programs.HaltEnds | src/nanlang_cpp.cpp:1471-1758 | What stands behind a halt line is not printed. |
| Programs.SayLinePrints | src/nanlang_cpp.cpp:1538-1758 | A say line in any layout, compiled and run, prints its text and a line feed. |
| Programs.SignalLinePrints | src/nanlang_cpp.cpp:1562-1758 | A pulse or emit line in any layout, compiled and run, prints the name of its signal. |
| Programs.StoreLinePrints | src/nanlang_cpp.cpp:1575-1758 | An MMIO line, compiled and run, prints what it stores if its port is that of pulses or emits, and nothing otherwise. |
| SourceLines.SourceAgreesExact | src/nanlang_cpp.cpp:1006-1758 | For every source without user interface directives that both accept: the file halts, the executable exits with status 0, and both print the same bytes if and only if no output follows the first halt and there is no MMIO line. |
| Bytecode.RunBytecode | src/nanlang_cpp.cpp:1663-1758 | The dispatch loop prints and stops as the step function says, error reports included. |
| Files.FileRuns | src/nanlang_cpp.cpp:1663-1758 | Any file with the magic number that holds complete instructions and then something to stop at: it prints what the instructions print, and stops for that reason - end, halt, one of four ways to be cut off, or an unknown byte. |
| Files.EveryFile | src/nanlang_cpp.cpp:1663-1758 | Every file is of this kind, or is turned down as too short or for its magic number. |
| Bytecode.LengthExact | src/nanlang_cpp.cpp:1547-1549 | The length field holds a text's length if and only if it is below 2^32. |
| Bytecode.CompiledRuns | src/nanlang_cpp.cpp:1471-1758 | For every statement list with texts below 2^32 bytes: the compiled file is never truncated, has no unknown opcode, reaches HALT, and prints exactly what the statements mean up to the first halt. |
| Bytecode.SameOutputExact | src/nanlang_cpp.cpp:1063-1107 | All collected writes together are the bytes of the meaning up to the first halt if and only if no output follows it and there is no MMIO line, read or not: no later output makes up for one. |
| Bytecode.VmAgreesWithNative | src/nanlang_cpp.cpp:1127-1758 | Virtual machine and native executable print the same bytes if and only if no output follows the first halt and there is no MMIO line; the executable exits with status 0 in any case. |
| Text.QuoteForLog | src/nanlang_cpp.cpp:330-346 | The loop quotes every character as specified. |
| Text.UnescapeString | src/nanlang_cpp.cpp:178-205 | The loop unescapes as specified, a trailing backslash included. |
| Text.UnchangedExact | src/nanlang_cpp.cpp:178-205 | A text is changed by unescaping if and only if it has one of the six escapes, and gets shorter then. |
| Text.ExtractQuotedString | src/nanlang_cpp.cpp:207-237 | The scanner returns what its automaton reads, or nothing. |
| Text.StripLineComment | src/nanlang_cpp.cpp:142-164 | The line up to the first `//` outside quoted strings, escapes minded. |
| Text.CommentCut | src/nanlang_cpp.cpp:142-164 | Of a line in parts, outside quotes and inside, just the parts are left and the comment goes: a comment mark inside quotes, a backslash outside them and a single slash are nothing special. |
| Text.OpenKept | src/nanlang_cpp.cpp:142-164 | Behind a quote that does not close nothing is a comment. |
| Text.NormalizeSourceLine | src/nanlang_cpp.cpp:166-169 | Stripped and trimmed. |
| Directives.TokenizeUiDirective | src/nanlang_cpp.cpp:348-413 | The tokens and the success flag of its automaton. |
| Text.ExtractQuoted | src/nanlang_cpp.cpp:207-237 | Every string survives: a quoted text is read back, whatever stands behind it and whatever without quotes before it. |
| Text.OpenNotRead | src/nanlang_cpp.cpp:207-237 | Without a closing quote nothing is read. |
| Text.SayLineNormalized | src/nanlang_cpp.cpp:142-169 | A say line with any quoted text is unchanged by normalising; indentation, trailing blanks and a comment behind it go away. |
| Text.SayLineRead | src/nanlang_cpp.cpp:1063-1072 | So a say line in any layout yields its text. |
| Directives.TokenOfQuoted | src/nanlang_cpp.cpp:348-413 | A quoted text is a single token, itself. |
| Directives.TokensOfQuoted | src/nanlang_cpp.cpp:348-413 | Quoted texts after blanks are read as just these tokens. |
| Directives.TokensOfWords | src/nanlang_cpp.cpp:348-413 | Bare words and quoted texts in any mixture, with blanks or semicolons between them and a comment behind them or not, are read as just these words. |
| Directives.TokensOfOpenText | src/nanlang_cpp.cpp:405-412 | A quote that does not close is reported, and what stands behind it is the last word. |
| Directives.SameTextExact | src/nanlang_cpp.cpp:178-237 | A quoted text is the same to a say line and to a directive if and only if it has no escape of a zero byte. |
| Base64.Base64Encode | src/nanlang_cpp.cpp:1238-1254 | The loop over groups of three bytes with shifts and masks computes the encoding of section 4 of RFC 4648. |
| Base64.Alphabet | src/nanlang_cpp.cpp:1238-1240 | The 64 characters are those of Table 1 of RFC 4648, in order. |
| Base64.WrapBase64Lines | src/nanlang_cpp.cpp:1256-1263 | Lines of the given width, each ended by a line feed; width 0 leaves the text. |
| Base64.EncodedLength | src/nanlang_cpp.cpp:1238-1254 | 4 * ceil(n / 3) characters. |
| Base64.Padding | src/nanlang_cpp.cpp:1249-1251 | The padding character stands in the last one, two or no places, by the bytes left over, and nowhere else. |
| Base64.DecodeEncoded | src/nanlang_cpp.cpp:1238-1254 | Decoding by section 4 of RFC 4648 gives every byte string back. |
| Base64.EncodeDecoded | src/nanlang_cpp.cpp:1238-1254 | A text that decodes at all, with zero pad bits, is the encoding of what it decodes to. |
| Base64.WrappedRoundTrip | src/nanlang_cpp.cpp:1256-1263 | The same after wrapping to any width and joining the lines again. |
| Base64.Pack | src/nanlang_cpp.cpp:1295-1305 | With width 76 no line is longer than section 6.8 of RFC 2045 allows. |
| RingQueue.MaskIsMod | include/nan_perf.h:121-121 | The mask is the remainder, for every power of two. |
| RingQueue.StaticAssert | include/nan_perf.h:113-113 | The static assertion accepts exactly the powers of two among positive sizes. |
| RingQueue.WaitFreeQueue.Push | include/nan_perf.h:119-126 | Used alone: appends, or fails exactly when n - 1 items are outstanding. |
| RingQueue.WaitFreeQueue.Pop | include/nan_perf.h:128-134 | Used alone: takes the first item, or fails exactly when there is none. |
| RingQueue.WaitFreeQueue.Empty | include/nan_perf.h:136-139 | True exactly when there is no item. |
| RingQueue.StepKeepsInv | include/nan_perf.h:119-134 | Every single load or store of either side, index loads stale or not, keeps the invariant. |
| RingQueue.EveryInterleavingIsSafe | include/nan_perf.h:119-134 | In every interleaving of one producer and one consumer the popped values are a prefix of the pushed ones, at most n - 1 are outstanding, and the slot being written is neither the one being read nor one that holds an outstanding item. |
| RingQueue.StepRefinesFifo | include/nan_perf.h:119-134 | Every step is a step of the bounded queue: the tail store appends the value pushed, the head store takes the first item, all others change nothing. |
| RingQueue.GivingUpIsRight | include/nan_perf.h:119-134 | A side gives up exactly when the index value it loaded says full or empty. |
| RingQueue.WaitFree | include/nan_perf.h:119-134 | A side in the middle of an operation can always step, and each of its steps brings it closer to the end. |
| RingQueue.UndisturbedPush | include/nan_perf.h:119-126 | Four steps on the newest head append exactly when there is room. |
| RingQueue.UndisturbedPop | include/nan_perf.h:128-134 | Four steps on the newest tail deliver the first item exactly when there is one. |
| Deadlock.DeadlockDetector.HasCycle | include/nan_perf.h:154-168 | The bounded walk with its visited marks says whether the links come back to a thread within 32 steps. |
| Deadlock.DeadlockDetector.TryAcquire | include/nan_perf.h:170-183 | Yes exactly if the resource was free, and then the caller holds it; otherwise only the caller's wait changes, to that resource or to none. |
| Deadlock.DeadlockDetector.Release | include/nan_perf.h:185-190 | Frees the resource and ends the wait exactly if the thread holds the resource, and changes nothing else. |
| Exclusion.MutualExclusion | include/nan_perf.h:170-190 | Over every run: between two grants of one resource the thread that was granted it first has released it. |
| Exclusion.GrantedExact | include/nan_perf.h:170-190 | Over every run: a request is granted if and only if nobody has been granted the resource without releasing it since. |
| Exclusion.HolderExact | include/nan_perf.h:170-190 | Over every run: the table has a thread as holder if and only if it was granted the resource and has not released it since. |
| Exclusion.WaiterExact | include/nan_perf.h:170-190 | Over every run: a thread is down as waiting if and only if it started to wait and has neither been turned down again nor released anything since; a grant does not end a wait. |
| Exclusion.Perform | include/nan_perf.h:170-190 | A run on the real detector answers so. |
| Deadlock.HasCycleExact | include/nan_perf.h:154-168 | The walk finds a revisit if and only if there is one and its 32 steps are not spent on 32 different threads. |
| Deadlock.OneMoreStepWouldDo | include/nan_perf.h:157-157 | With one step more it would always be right, by pigeonhole. |
| Deadlock.HasCycleRight | include/nan_perf.h:154-168 | With fewer than 32 threads taking part it is right. |
| Deadlock.TakingFreeExact | include/nan_perf.h:171-174 | Taking a free resource keeps the graph free of deadlock if and only if the taker's chain of waits does not end in a waiter for that resource. |
| Deadlock.WaitingExact | include/nan_perf.h:175-182 | Asking for a held resource keeps it free of deadlock if and only if the wait does not close a ring of all 32 threads. |
| Deadlock.RefusalExact | include/nan_perf.h:175-182 | In a graph free of deadlock a wait is refused if and only if it closes a ring that the 32 steps can see, or leads to another thread's self-edge. |
| Deadlock.WaitSafeExact | include/nan_perf.h:175-182 | Granting it would have been safe if and only if its own thread would not be deadlocked. |
| Deadlock.NeedlessRefusal | include/nan_perf.h:170-183 | A wait that is refused though no deadlock would follow, because of a leftover self-edge. |
| Deadlock.StepExact | include/nan_perf.h:170-190 | Both, and release, as one step. |
| Deadlock.RunExact | include/nan_perf.h:170-190 | A run from the empty graph is free of deadlock at every moment if and only if no step of it is of one of the two overlooked kinds. |
| Deadlock.DisciplinedRunsAreSafe | include/nan_perf.h:170-190 | Every run of fewer than 32 threads in which a thread with an unfulfilled wait takes no other free resource is free of deadlock at every moment. |
| Deadlock.OnlySelfEdges | include/nan_perf.h:154-168 | In a graph free of deadlock a walk that comes back to a thread stands on a self-edge. |
| Deadlock.SelfEdgeOrigin | include/nan_perf.h:171-174 | A self-edge appears only when a waiter takes the resource it was waiting for. |
| Deadlock.UndisciplinedDeadlock | include/nan_perf.h:171-174 | A run of three threads that deadlocks because one of them takes a free resource while waiting for another. |
| Deadlock.FullRingDeadlock | include/nan_perf.h:157-167 | A run of 32 threads that deadlocks because the walk is one step too short. |
| Predictor.BranchPredictor.Predict | include/nan_perf.h:92-94 | Taken from 2 on, of the entry for the hash. |
| Predictor.BranchPredictor.Update | include/nan_perf.h:97-101 | One entry moves by one within 0 to 3, the others stay. |
| Predictor.EntryBound | include/nan_perf.h:86-101 | From a cold table, over every run: an entry's mispredictions plus its counter are at most twice its taken branches; plus its debt, at most two more than twice its branches not taken. |
| Predictor.CounterExact | include/nan_perf.h:86-101 | From a cold table, over every run, in closed form: an entry's counter is at least v if and only if some recent stretch of its branches has at least v more taken than not, and no end of that stretch less than v - 3. |
| Predictor.PredictionExact | include/nan_perf.h:86-101 | So it predicts taken if and only if some recent stretch has two more taken than not, and no end of it more than one less. |
| Predictor.Hysteresis | include/nan_perf.h:86-101 | After three equal outcomes at an entry, whatever happened before and at other entries, one opposite outcome does not change its prediction and two do. |
| Predictor.TableBound | include/nan_perf.h:86-101 | The table's mispredictions are at most twice the taken branches, and at most twice the entries used plus twice the branches not taken. |
| Predictor.WorstIsReached | include/nan_perf.h:86-101 | Both bounds are reached, by runs of every even length from 2 on in which every prediction is wrong. |
| Predictor.Simulate | include/nan_perf.h:86-101 | The real table predicts each branch as the closed form says, and is wrong just that often, within both bounds. |
| Reorder.FindReady | include/nan_perf.h:24-30 | The inner loop finds the first instruction left that does not read what was written last, by comparing stamps. |
| Reorder.DoReorder | include/nan_perf.h:18-39 | The output is that of the greedy order. |
| Reorder.ReorderGuarantees | include/nan_perf.h:18-39 | No instruction stands right behind one that writes a register it reads, none is used twice, and some are left out only if each of them reads what the last one writes. |
| Reorder.CompleteIsPermutation | include/nan_perf.h:18-39 | An output as long as the input is a permutation of it. |
| Reorder.UnchangedExact | include/nan_perf.h:18-39 | The input comes back unchanged if and only if it has no adjacent read after write. |
| Reorder.LosesExact | include/nan_perf.h:23-37 | Instructions are lost if and only if some pass finds every instruction left reading what was written last. |
| Reorder.PairExact | include/nan_perf.h:23-37 | Two instructions keep both exactly when the second does not read what the first writes. |
| Reorder.SpacedLosesNothing | include/nan_perf.h:23-37 | Told from the input: nothing is lost if, wherever an instruction reads what the one before it writes, the next one can be taken in between and the one after that can follow the delayed one. Wider than having no such instruction. |
| ReorderMeaning.KeptDependencesKeepMeaning | include/nan_perf.h:18-39 | Any permutation that keeps all read-after-write, write-after-read and write-after-write pairs in order computes the same registers, for every operation and every start. |
| ReorderMeaning.ReorderKeepsMeaning | include/nan_perf.h:18-39 | So does the output, if nothing is lost and such pairs keep their order. |
| ReorderMeaning.SpacedKeepsMeaning | include/nan_perf.h:18-39 | Told from the input: adjacent reads are spaced and each delayed instruction is independent of the one taken before it. |
| ReorderMeaning.MeaningIsTerms | include/nan_perf.h:18-39 | Two programs compute the same under every operation on integers if and only if their symbolic runs are equal. |
| ReorderMeaning.SingleAssignmentExact | include/nan_perf.h:18-39 | If no register is written twice, the meaning is kept under every operation if and only if nothing is lost and dependent pairs keep their order. |
| ReorderMeaning.KeepingIsNotNeeded | include/nan_perf.h:18-39 | With a register written several times dependent pairs may change places and a later write make up for it. |
| ReorderMeaning.ReadHoistedOverWrite | include/nan_perf.h:23-37 | Three additions of which the last is hoisted over the one that computes its operand; the result is right only for starts in which that register happens to hold it. |
| ReorderMeaning.WriteHoistedOverWrite | include/nan_perf.h:23-37 | Three additions of which the last is hoisted over an earlier write of its register; again with the exact starts that hide it. |
| Rle.RleCompress | include/nan_binary.h:42-53 | The nested loops compute the greedy encoding, runs capped at 255. |
| Rle.RleDecompress | include/nan_binary.h:55-62 | The loops expand pair after pair and ignore an odd last byte. |
| Rle.RoundTrip | include/nan_binary.h:42-62 | Decoding undoes encoding, for every byte string. |
| Rle.LengthExact | include/nan_binary.h:42-53 | The encoding is two bytes for every run, a run longer than 255 counted as often as it is cut. |
| Rle.SuffixNoLonger | include/nan_binary.h:42-53 | Dropping a prefix never makes the encoding longer. |
| Rle.Optimal | include/nan_binary.h:42-62 | No byte string that decodes to x is shorter than the encoding of x. |
| Folding.StripNops | include/nan_binary.h:25-32 | All zero bytes go, operands too. |
| Folding.FoldBytecode | include/nan_compiler.h:65-80 | The byte-wise loop, with its lookahead of three bytes. |
| Folding.BytesFold | include/nan_compiler.h:53-80 | Byte 5 adds, 6 subtracts and 9 is exclusive or, modulo 256, if anything is behind the operands; no other byte is taken for arithmetic. |
| Folding.ValueIsLowByte | include/nan_compiler.h:53-73 | The low byte of the folded 64-bit value is the machine's byte arithmetic, borrow included. |
| Folding.StripExact | include/nan_binary.h:25-32 | Stripping removes just the NOP instructions if and only if no operand is zero. |
| Folding.FoldExact | include/nan_compiler.h:65-80 | Folding turns just the arithmetic instructions, except one at the very end, into loads if and only if no LOAD or STORE operand with three bytes behind it looks like an arithmetic opcode. |
| Folding.FoldProgramSame | include/nan_compiler.h:65-80 | Loads of the values in place of the arithmetic leave accumulator and stores the same. |
| Folding.MinimizeKeepsMeaning | include/nan_compiler.h:154-160 | Under these two conditions the unpacked result ends with the same accumulator after the same stores. |
| Folding.SizeMinimizer.Minimize | include/nan_compiler.h:151-171 | The result, and the new baseline; it shrank if and only if twice the runs of the stripped and folded code is below the smallest result before, which no code seen before does. |
| Folding.SeenBefore | include/nan_compiler.h:151-171 | What was minimized before cannot go below the baseline. |
| Folding.SmallerExact | include/nan_compiler.h:151-171 | The result is smaller than the code if and only if the bytes left form fewer than half as many runs. |
| Folding.SingleByteGrows | include/nan_compiler.h:151-171 | Any single byte but a NOP becomes two. |
| Folding.BestIsMinimum | include/nan_compiler.h:151-171 | Over any history of calls the baseline is the smallest size seen. |
| Folding.ZeroOperandBreaks | include/nan_binary.h:28-30 | A zero operand changes the meaning. |
| Folding.FoldableOperandBreaks | include/nan_compiler.h:67-78 | So does an operand that looks like arithmetic. |
| Coloring.RegisterColoring.AddVar | include/nan_compiler.h:92-95 | A new variable without colour, and its index. |
| Coloring.RegisterColoring.AddConflict | include/nan_compiler.h:97-99 | The pair is recorded unless it names one variable twice. |
| Coloring.RegisterColoring.UsedColors | include/nan_compiler.h:105-109 | A mark is set exactly for the colours that neighbours show. |
| Coloring.RegisterColoring.Color | include/nan_compiler.h:102-116 | The loop over the variables assigns as specified, also when it gives up half way. |
| Coloring.SuccessExact | include/nan_compiler.h:102-116 | From any starting colours: success, a proper colouring in 0 to 15, and no variable whose neighbours show all 16 colours are the same thing. |
| Coloring.FewNeighboursSucceed | include/nan_compiler.h:102-116 | Fewer than 16 different neighbours everywhere are enough, whatever colours were there. |
| Coloring.FewLowerSucceed | include/nan_compiler.h:102-116 | Started without colours, fewer than 16 different lower-numbered neighbours everywhere are. |
| Coloring.FreshIsFirstFit | include/nan_compiler.h:102-116 | Started without colours, success gives the first-fit colouring. |
| Coloring.FirstFitUnique | include/nan_compiler.h:111-114 | There is only one. |
| Coloring.AgainChangesNothing | include/nan_compiler.h:102-116 | Colouring it again succeeds and changes nothing. |
| Coloring.ColorBound | include/nan_compiler.h:102-116 | No first-fit colour exceeds the number of different lower-numbered neighbours. |
| Coloring.ColorFresh | include/nan_compiler.h:85-116 | For a graph built with add_var and add_conflict: success exactly when the colouring is proper, and whenever everyone has fewer than 16 lower-numbered neighbours; then first fit, the only one, bounded, and unchanged by a second call. |
| Pulse.PulseFlowAnalyzer.Ingest | include/nan_pulse.h:135-140 | The whole state moves on as if the samples had come one by one. |
| Pulse.PulseFlowAnalyzer.CountLevels | include/nan_pulse.h:158-185 | By blocks of 32 with masks and population counts, or byte by byte: the same counts. |
| Pulse.PulseFlowAnalyzer.CountLevelsScalar | include/nan_pulse.h:145-156 | The counts of high and uncertain samples. |
| Pulse.PulseFlowAnalyzer.CountTransitionsAndStreaks | include/nan_pulse.h:187-222 | Streaks, edges and the last level, sample after sample. |
| Pulse.PulseFlowAnalyzer.Reset | include/nan_pulse.h:123-129 | Back to the start. |
| Pulse.MasksCount | include/nan_pulse.h:163-173 | The two masks of any block count high plus uncertain, and uncertain. |
| Pulse.FeedConcat | include/nan_pulse.h:135-140 | Two chunks are as good as their concatenation. |
| Pulse.AnyChunking | include/nan_pulse.h:135-140 | So is every way of cutting the stream. |
| Pulse.FedStatistics | include/nan_pulse.h:95-105 | The statistics kept are those of the whole stream: level counts, longest contiguous runs and edges, defined on positions. |
| Pulse.EdgeBalance | include/nan_pulse.h:207-217 | Rising and falling edges differ by at most the uncertain samples and one. |
| Pulse.Analyze | include/nan_pulse.h:107-222 | All of it for an analyser fed chunk by chunk, in either build. |

## Left out

- GTK and Cairo rendering, UI scenes and directives beyond their words, mouse handling: user interface.
- Reading and writing files, file modes, launching executables, logging to the console: a source is a sequence of lines, a write is one atomic event.
- Compile cache and freshness checks: they rest on file times outside the code.
- SourceLines.SourceAgreesExact: user interface directives are outside, because what they write is user interface; the bytecode compiler ignores them.
- Numbers.NumberExact: numbers are read as strtoul does by section 7.22.1.4 of C11, in the C locale; the binary prefix of later C libraries is not.
- Warnings and error texts of the line-based front ends: only whether there is an error.
- The assembly listing beside the native payload: a rendering of the same list.
- Hamming(7,4) coding, `write_minimal_elf`, `NanLinker`, `bit_swap_xor`, `hw_key_xor`, `embed_resources`: small or without a law to keep.
- `BranchResolver`, `CrossPlatformEmitter`, `ReservationStation`, `MiniContext`, `JITPulseGen`, CPU identification, timing and prefetch code: stubs or hardware.
- `RegisterAllocator`, `SignalBuffer`, `RegisterMap`, `ZeroCopySlice`, the kernel's spin lock: would only add easy members.
- The legacy compiler in `main.cpp` and the scripts: a weaker duplicate, and tools around the program.
- x86 state other than the sixteen registers, rip and the trace: the flags, and r11 as a system call leaves it, are not read by emitted code; the model leaves them out.
- Machine.RunWrite: a write never fails or writes less than asked for, because error handling is not in the emitted code.
- AotCorrect.GeneratedProgramRuns: programs with a displacement of 2^31 or more are outside, because it then does not fit its field (Process.FieldReadsBack); functions other than main are placed but not run, because no emitted instruction calls them (their frames are in Frames).
- Bytecode.CompiledRuns: texts of 2^32 bytes and more are outside, because their length field is cut down (Bytecode.LengthExact).
- FrontEnd.SourceMeaningExact: values matched on that start with `say ` are outside, because a say line can then be an arm that is taken.
- ReorderMeaning.SingleAssignmentExact: a condition on the input for programs that write a register several times is not given beyond comparing symbolic runs (ReorderMeaning.MeaningIsTerms).
- RingQueue.EveryInterleavingIsSafe: of the memory model only stale index loads that never go back are modelled; slot accesses are ordered as acquire and release order them.
- Folding.MinimizeKeepsMeaning: the other half is given per pass (Folding.StripExact, Folding.FoldExact) because a wrongly folded program can mean the same by coincidence.
- Pulse.PulseFlowAnalyzer.Ingest: counters do not wrap, because 2^64 samples would be needed.
- Wrap-around of container sizes at 2^64: no input reaches it.
