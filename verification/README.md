# codemakers-assembler in Dafny

A model of the two halves of codemakers-assembler:

- **The assembler.** `Compiler.compile` turns mnemonic source text for a toy 8-bit computer into a byte stream in five passes:
  1. Tokenize the lines into classified code parts (`CodePart`).
  2. Split every `@name` address into its high and low address byte.
  3. Check each instruction's operands against the instruction table (`getInstrucion`).
  4. Assign addresses and register labels.
  5. Encode every part as a number from 0 to 255 and its eight-digit binary text.
- **The SMPU emulator.** It fetches and executes those bytes against memory-mapped devices: byte memories (`ReadWriteMemory`) and range limiters (`RangeLimiter`, `shouldIgnore`). Its operations are register access (`getValue`, `setValue`), bus arbitration (`readDevices`, `writeDevices`), instruction fetch (`pullAtProgramCounter`), `mount`/`unmount`, `clock` and the 42 cases of `execute`.

The model is written with pure functions over immutable datatypes.

- **JavaScript arithmetic is spelled out:**
  - `%` truncates toward zero (`Js.Rem`), so registers can hold negative values.
  - Shift counts are masked to five bits.
  - `<<` is repeated doubling and `>>` repeated halving of the 32-bit value by the masked count (`Js.DoubledIsProduct`, `Js.HalvedIsQuotient` relate them to multiplication and division). `x & 1` is the low bit of the 32-bit value (`Js.LowBit`), which `Js.AndOneIsLowBit` proves equal to the bit-by-bit `&` used elsewhere.
  - `<<` and `>>` bind more loosely than `+`.
  - `Number()` reads `0x`/`0o`/`0b` prefixes and decimal exponents.
  - A `Uint8Array` store keeps the value modulo 256.
  - Reading a `Uint8Array` at a negative index gives `undefined`.
- **Running the emulator:** a run of `clock` is a sequence of machines, each the result of clocking the one before.
- **Modules:**
  - `Base`, `Numerals` and `Js` hold arithmetic, digit strings and the JavaScript built-ins.
  - `CodeParts`, `Instructions` and `Compiler` are the assembler.
  - `Devices` and `Emulator` are the emulator.
  - The `*Proofs` modules state and prove the properties.
  - `IsaProofs` ties the assembler's instruction table to the emulator's `execute`.

Behaviour of this revision of the code worth knowing:

- **Assembler:**
  - This revision has no macros (`#SKIPTO`) and no `export()`.
  - There is no "instruction not at start of line" check and no "excess argument" check.
  - A wrong-type operand marks only the instruction, not the operand as well.
  - The duplicate-label check can never fire. Its `find` callback has a block body without `return`, so it always yields `undefined` (`AssignmentProofs.DuplicateNeverFound`).
  - When an operand is missing, the validation loop's `break` leaves the cursor on that part, and the loop's own `i++` then steps over it. The part after a missing operand is therefore never validated (`ValidationProofs.ValidateSkipsArguments`). An unknown instruction stepped over in this way reaches the encoder's internal "instruction invalid" error.
  - The encoder's check for a malformed address byte only builds a message and never appends it. That branch is unreachable anyway (`EncodingProofs.AddressByteWellFormed`).
  - A byte literal like `1e2` is accepted: it is read by `Number` as 100.
- **Emulator:**
  - `INCR`/`DECR` and the stack pointer do not wrap below zero. `(x + 1) % 256` wraps 255 to 0 as expected (`INCR`, `POP`, `RET`), but JavaScript's `%` keeps the sign, so `DECR` at `q == 0` gives -1, and a push (`PSH`, `SUBR`) at `s == 0` leaves `s == -1`.
  - The stack-underflow warnings can never be issued.
  - `SHLC` shifts `a` by `1 + c`.
  - `SHRC` shifts by `1 + c*128`, which the five-bit mask turns back into 1, so `SHRC` behaves exactly like `SHR`.

## Model

| member | source | states |
|---|---|---|
| Js.Rem | emulator.js:34-40 | JavaScript `%`: the remainder lies strictly between -m and m. It agrees with the mathematical remainder for non-negative dividends, is never positive for negative ones, and leaves values already inside the range unchanged. |
| Js.ToUint8 | emulator.js:446-449 | A `Uint8Array` store keeps a byte, and keeps a value that already is a byte unchanged. |
| Js.ByteBitwise | emulator.js:300-317 | The bitwise AND, OR and XOR of two bytes are bytes. |
| Js.XorFF | emulator.js:309-317 | `x ^ 0xFF` on a byte is its complement `255 - x`. |
| Js.ShiftLeftByte | emulator.js:264-281 | A byte shifted left by at most two places is multiplied by 2, 4 or 1 accordingly. |
| Js.ShiftRightByte | emulator.js:282-299 | A byte shifted right by n is divided by 2 to the power of n modulo 32, because the shift count is masked to five bits. |
| Js.DoubledIsProduct | emulator.js:264-281 | Shifting left is repeated doubling, and doubling k times multiplies by 2 to the power k. |
| Js.HalvedIsQuotient | emulator.js:282-299 | Shifting a non-negative value right is repeated halving, and halving k times divides by 2 to the power k, rounding down. |
| Js.AndOneIsLowBit | emulator.js:319-322 | `x & 1`, computed bit by bit on the 32-bit form of `x`, is the lowest bit of that form, for every integer `x`. |
| Js.IndexOfSpec | compiler.js:67-69 | `indexOf` finds the first occurrence of the character, and finds nothing exactly when the character is absent. |
| Js.SplitKeepsOut | compiler.js:75 | No piece of a split holds the separator or any character the text did not hold. |
| Js.JoinSplit | compiler.js:75 | Joining the pieces of a split with the separator gives back the text. |
| Js.ParseDigits | compiler.js:272 | A digit run is a number exactly when it is non-empty and every character is a digit of the radix; the number is the positional value. |
| Js.NumberReadsDecimal | compiler.js:272 | `Number` reads a number's decimal rendering back as that number. |
| Js.NumberReadsPrefixed | compiler.js:272 | `Number` reads a number's hexadecimal rendering behind `0x`, and its binary rendering behind `0b`, back as that number. |
| Js.Number | compiler.js:272 | `Number(text)` for texts without sign or whitespace: `0x`, `0o` and `0b` prefixes, decimal digits with an optional exponent, and no number otherwise. `Js.NumberReadsDecimal` and `Js.NumberReadsPrefixed` show it inverts the renderings. |
| Js.Split | compiler.js:75 | `split(sep)`: the maximal separator-free pieces, empty ones included. `Js.JoinSplit` shows joining them restores the text. |
| Js.Prefix | emulator.js:435 | `slice(0, n)` is a prefix of length n, or the whole text when the text is shorter. |
| Js.TakeLast | compiler.js:229 | `slice(-k)` for `k > 0` is the last k characters, or the whole text when it is shorter. |
| Js.DropLast | compiler.js:228 | `slice(0, -k)` for `k > 0` is a prefix that is k characters shorter, or empty. |
| Numerals.ValueOfToRadix | compiler.js:215-219 | The digits `toString(radix)` prints read back as the number. |
| Numerals.PaddedBinary | emulator.js:434 | `toString(2).padStart(width, '0')` of a number below 2 to the power width is a bit string of exactly width digits that reads back as the number. |
| Numerals.BitsInjective | emulator.js:435 | Two bit strings of equal length and equal value are the same string. |
| CodeParts.NewCodePart | codePart.js:1-37 | A new part keeps its line and text and has no number or address. It is errored exactly when it is invalid. Its log holds the invalid-part error, or the note of the kind it was given. |
| CodeParts.Classification | codePart.js:12-33 | The kind is that of the first pattern, in the constructor's order, that accepts the text; no earlier pattern accepts it. The text can be rebuilt from the kind and the output. |
| Instructions.Find | src/instructions.js:11-19 | The scan finds an entry exactly when one with that name exists, and the entry it finds has that name. |
| Instructions.FindFirst | src/instructions.js:12-17 | The entry found is the first with that name; no entry before it has the name. |
| Instructions.Lookup | src/instructions.js:11-19 | The result is an error exactly when no entry has the name, and the error is the `HLT`/0 sentinel without operands. Otherwise the result is the first entry with that name: its name, id and operand kinds, with no earlier entry of that name. |
| Instructions.GetInstruction | src/instructions.js:11-19 | `getInstrucion` on the instruction set fails exactly for unknown names. Otherwise it returns the first table row with that name, with that row's id and operand kinds. |
| CompilerProofs.CutCommentSpec | compiler.js:67-69 | The comment cut keeps a dash-free prefix of the line, and the character after it, if any, is the first `-`. |
| CompilerProofs.StripLeadingSpacesSpec | compiler.js:71-73 | Stripping removes exactly the leading spaces: the result is a suffix that does not start with a space, and everything removed is a space. |
| CompilerProofs.NonEmptySpec | compiler.js:76-80 | Filtering keeps every non-empty piece, drops the empty ones, and keeps only pieces that were there. |
| CompilerProofs.NonEmptyAppend | compiler.js:76-80 | Filtering distributes over concatenation and keeps a single piece exactly when it is non-empty, so the kept pieces stay in input order. |
| CompilerProofs.LineTextsShape | compiler.js:65-80 | Every text a line yields is non-empty and holds neither a space nor a `-`. |
| CompilerProofs.LineTextsKeepCharacters | compiler.js:67-80 | A line's texts, concatenated, are exactly its characters before the comment, spaces removed, in order. |
| CompilerProofs.SourceWordsShape | compiler.js:62-81 | Every word of a source lies on one of its lines and is a non-empty text without spaces or dashes. |
| CompilerProofs.WordsOrdered | compiler.js:62-81 | Words come out in the order of their lines. |
| CompilerProofs.WordsByLine | compiler.js:62-81 | The words of source line n, read in order, are exactly that line's texts; an empty line contributes none. |
| CompilerProofs.TokenizeSpec | compiler.js:62-81 | Every code part is what the `CodePart` constructor makes of its text, the text is non-empty and holds no space or dash, and the part's line is a line of the source. Parts come in line order, and the texts of the parts on line `n` are exactly the pieces of that line. |
| CompilerProofs.ExpandAddress | compiler.js:88-99 | An address `@name` becomes two error-free address bytes, `name.h` and then `name.l`. Both stay on the address's source line, with texts `@name.h` and `@name.l`. |
| CompilerProofs.SplitPlaces | compiler.js:85-100 | Part `k` lands at `k` plus the number of addresses split before it. A part that is not split sits there unchanged, and a split address sits there as its high byte followed directly by its low byte. Since that position grows with `k`, the other parts keep their order. |
| CompilerProofs.SplitLength | compiler.js:85-100 | The split pass adds exactly one part per error-free address. |
| CompilerProofs.SplitLeavesNoAddress | compiler.js:85-100 | After the split pass every part is still classified and no part is a whole address. |
| CompilerProofs.Bin8Value | compiler.js:215-219 | The eight-digit padded binary text of a byte is a bit string whose value is the byte. |
| CompilerProofs.Bin8ReadBack | compiler.js:286-290 | JavaScript reads the rendered byte back as the same number when it is given the `0b` prefix. |
| CompilerProofs.Bin8Injective | compiler.js:286-290 | Different bytes render as different texts. |
| Compiler.Tokenize | compiler.js:62-81 | Pass 1: each non-empty line has its comment cut and leading spaces stripped, is split on spaces, and every non-empty piece becomes a code part on that line. `CompilerProofs.TokenizeSpec` states the result. |
| Compiler.Expand | compiler.js:88-99 | What the split pass makes of one part: an error-free address becomes its `.h` and `.l` bytes, anything else stays. `CompilerProofs.ExpandAddress` states the bytes. |
| Compiler.SplitAddresses | compiler.js:85-100 | Pass 2 over all parts. `CompilerProofs.SplitPlaces` and `CompilerProofs.SplitLength` give where each part lands, and `CompilerProofs.SplitLeavesNoAddress` shows no address is left. |
| Compiler.Visit | compiler.js:105-145 | One round of the validation loop: the part after the round and the next index, which is always larger. `ValidationProofs.VisitVerdict` and `ValidationProofs.VisitFrame` state the round. |
| Compiler.ValidateFrom | compiler.js:104-146 | Pass 3 from index `i`; it keeps the number of parts. `ValidationProofs.ValidateFrame`, `ValidationProofs.ValidateSkipsArguments` and `ValidationProofs.ValidateReportsUnknown` state the pass. |
| Compiler.AssignFrom | compiler.js:157-185 | The address loop from part `i`, with the counter and the labels so far; it keeps the number of parts. `AssignmentProofs.AssignClosedForm` gives every address in closed form. |
| Compiler.Assign | compiler.js:154-185 | Pass 4 from address 0 with no labels. `AssignmentProofs.AssignFrame` and `AssignmentProofs.LabelsBeforeSpec` state what it keeps and registers. |
| Compiler.Encode | compiler.js:190-300 | Pass 5: every part is encoded on its own, with the same label table, and the number of parts is kept. `EncodingProofs.ByteEncoding`, `EncodingProofs.InstructionEncoding` and `EncodingProofs.AddressByteEncoding` state the encoding. |
| Compiler.CompileWith | compiler.js:50-301 | The five passes in order for a given instruction table. `PipelineProofs.PlacedShape`, `PipelineProofs.ProgramBytes` and `PipelineProofs.CompiledLabels` state the result. |
| Compiler.Compile | compiler.js:50-301 | `compile()` with the table of src/instructions.js. `PipelineProofs.InstructionsAreKnown` states its instructions. |
| Compiler.FindLabel | compiler.js:236 | The label lookup fails exactly when no entry has the name, and otherwise returns an entry of the table with that name. |
| Compiler.EncodeOne | compiler.js:190-300 | Encoding keeps a part's kind, line, text and address. An errored part passes through unchanged. A byte-valued part that comes out error-free has a number from 0 to 255 and its eight-digit binary text. A label keeps its number and error flag. |
| ValidationProofs.ArgErrorsNone | compiler.js:123-140 | The argument loop reports nothing exactly when every required argument is present, error-free and of the required kind. |
| ValidationProofs.ArgErrorsMissing | compiler.js:125-129 | A missing argument is reported exactly when some argument is missing, and only as the last error, because it stops the loop. Each argument adds at most one error. |
| ValidationProofs.ArgErrorsCursor | compiler.js:123-129 | The loop leaves the cursor on the first missing argument when there is one, and on the last argument otherwise. |
| ValidationProofs.VisitFrame | compiler.js:104-146 | One round changes only the error flag and log of its part. It never clears the flag, only appends to the log, and leaves errored parts and non-instructions untouched. |
| ValidationProofs.ValidateKeepsBefore | compiler.js:104-108 | Parts before the loop's position are never changed. |
| ValidationProofs.ValidateFrame | compiler.js:104-146 | The pass changes only error flags and logs, and only of error-free instructions. It never clears an error and only appends to logs. |
| ValidationProofs.VisitVerdict | compiler.js:110-140 | An error-free instruction is marked errored exactly when its mnemonic is unknown, or some operand is missing, errored or of the wrong kind. |
| ValidationProofs.ValidateSkipsArguments | compiler.js:123-128 | The pass leaves an instruction's operands untouched, up to and including the first missing one. When an operand is missing, the part after it is never validated either. |
| ValidationProofs.ValidateAtReached | compiler.js:104-146 | A part the outer loop reaches ends up exactly as that loop round makes it from the parts before the pass. Earlier rounds change only parts the later rounds do not look at. |
| ValidationProofs.ValidateReportsUnknown | compiler.js:108-114 | After the whole pass, an error-free instruction the loop reaches has gained an "instruction not found" error exactly when its mnemonic is not in the table. In that case it is marked errored and the error is the only entry added, and earlier log entries are always kept. |
| AssignmentProofs.DuplicateNeverFound | compiler.js:167-172 | The duplicate-label lookup finds nothing, whatever the label table holds. |
| AssignmentProofs.AssignStep | compiler.js:157-185 | One round places the part at the counter. It advances the counter past every part that takes an address, and registers an error-free label inside the 16-bit range. |
| AssignmentProofs.AssignClosedForm | compiler.js:154-185 | Part k is placed with the counter equal to the number of address-taking parts before it. The label table is the registered labels, in order. |
| AssignmentProofs.SlotsMonotone | compiler.js:157-185 | The address counter never decreases, and strictly increases past an address-taking part. |
| AssignmentProofs.BytesGetDistinctAddresses | compiler.js:157-185 | Error-free parts other than labels get strictly increasing addresses, so every emitted byte has an address of its own. |
| AssignmentProofs.LabelAddressIsNextByte | compiler.js:164-184 | A label gets the address of the next byte when only labels lie in between. |
| AssignmentProofs.NoLabelsAddressIsIndex | compiler.js:157-185 | Without labels, the address of part k is k. |
| AssignmentProofs.LabelsBeforeSpec | compiler.js:174-180 | The label table holds exactly one entry per registered label, and every address in it is within 0 to 65535. |
| AssignmentProofs.AssignFrame | compiler.js:157-185 | Assignment leaves kinds, texts and lines alone and errored parts untouched. Every error-free part gets its closed-form address. The only new error is the out-of-range error on a label. |
| EncodingProofs.FindLabelFirst | compiler.js:236 | The label lookup returns the first entry with the name. |
| EncodingProofs.AddressByteWellFormed | compiler.js:228-234 | An address byte as classified has a non-empty label name and an `h` or `l` suffix, so the malformed branch is unreachable. |
| EncodingProofs.AddressByteEncoding | compiler.js:227-265 | An address byte whose label is unknown is reported. Otherwise it becomes the high byte (address div 256) or low byte (address mod 256) of the label's address, with the conversion note. |
| EncodingProofs.AddressBytesRebuildAddress | compiler.js:249-253 | The high and low bytes of an address give back the label's address as 256 × high + low. |
| EncodingProofs.ByteEncoding | compiler.js:271-291 | A byte literal becomes its `Number` value when that is 0 to 255. Otherwise an invalid syntax or an out-of-range value is reported. The rendering reads back as the value. |
| EncodingProofs.InstructionEncoding | compiler.js:202-220 | A known instruction becomes its opcode, and the rendering reads back as the opcode. |
| EncodingProofs.EncodeOneErrors | compiler.js:190-300 | Given what the earlier passes guarantee, every error the encoder adds is exactly one logged entry. Of the internal-error branches only the unknown mnemonic remains reachable. |
| EncodingProofs.TableOpcodesAreBytes | src/instructions.js:21-64 | Every opcode id of the instruction set is a byte, so the encoder's id range check never fires. |
| PipelineProofs.PlacedShape | compiler.js:85-185 | After splitting, validation and placement, every part keeps the shape the constructor gave it and no whole address remains; errors are never cleared. |
| PipelineProofs.EncodingErrors | compiler.js:190-300 | In a compiled program no part is a whole address, and every error encoding adds is one of the encoder's own logged errors. |
| PipelineProofs.ProgramBytes | compiler.js:190-300 | Every error-free byte of the program is a number from 0 to 255 whose eight-digit text reads back as that number. |
| PipelineProofs.InstructionsAreKnown | compiler.js:202-215 | An instruction that comes out error-free is in the table, and its byte is its opcode. |
| PipelineProofs.CompiledLabels | compiler.js:154-185 | The compiled label table is the closed form over the validated parts, with every address inside the 16-bit range. |
| Devices.ShouldIgnore | emulator.js:431-437 | Whether the 16-digit binary form of the address does not start with the high bits. `DeviceProofs.ShouldIgnoreComparesHighBits` gives the arithmetic form. |
| Devices.MemoryRead | emulator.js:443-445 | The cell at the address modulo `2^nbits`, with JavaScript's remainder, and `undefined` at a negative index. `DeviceProofs.MemoryReadsBack` and `DeviceProofs.NegativeAddress` state it. |
| Devices.MemoryWrite | emulator.js:446-449 | Stores the value modulo 256 at that index, and does nothing at a negative index. `DeviceProofs.MemoryReadsBack` states it. |
| Devices.Read | emulator.js:530-538 | A read of a memory, or of a limiter that passes the address on or answers `[0, false]`. `DeviceProofs.LimiterFilters`, `DeviceProofs.LimiterOffIsTransparent` and `DeviceProofs.ReadGivesByte` state it. |
| Devices.Write | emulator.js:539-547 | A write to a memory, or through a limiter that refuses ignored addresses. `DeviceProofs.LimiterFilters` and `DeviceProofs.WriteKeepsValid` state it. |
| Devices.Reset | emulator.js:450-452 | A memory becomes zeros of the same length; a limiter resets what it wraps. `DeviceProofs.ResetClears` states it. |
| Devices.SetNBits | emulator.js:510-523 | A memory takes the new width, keeping the common prefix and filling with zeros. `DeviceProofs.SetNBitsResizes` and `DeviceProofs.ResizeToSameSize` state it. |
| Devices.NewMemory | emulator.js:439-442 | A new memory is valid, has the given width and holds only zeros. |
| DeviceProofs.IndexInside | emulator.js:444 | For a non-negative address the cell index lies inside the memory, and is the address itself when that is below the size. |
| DeviceProofs.MemoryReadsBack | emulator.js:443-449 | After a write, a read at the address gives the value modulo 256. Cells with another index keep their contents, and the memory stays valid. |
| DeviceProofs.NegativeAddress | emulator.js:443-449 | At a negative address with a non-zero remainder, a write changes nothing and a read gives `undefined`. |
| DeviceProofs.ReadGivesByte | emulator.js:530-538 | Whatever a valid device yields, memory or limiter, is a byte, or `undefined`, which reads as 0. |
| DeviceProofs.WriteKeepsValid | emulator.js:539-547 | A write keeps a device valid, and changes only the contents of memories: resetting before and after gives the same device. |
| DeviceProofs.ResetClears | emulator.js:450-452 | A reset device is valid, responds where it did before, and reads 0 everywhere. |
| DeviceProofs.SetNBitsResizes | emulator.js:510-521 | Resizing gives 2 to the power nbits cells: the old contents as far as both sizes reach, then zeros. |
| DeviceProofs.ResizeToSameSize | emulator.js:511-513 | The early return for an unchanged width is unobservable: copying into a memory of the same size gives the same memory. |
| DeviceProofs.LimiterOffIsTransparent | emulator.js:530-547 | A limiter that is switched off reads and writes exactly like the device it wraps. |
| DeviceProofs.LimiterFilters | emulator.js:530-547 | A limiter that is on ignores an address outside its range: the read is `(0, false)`, and the write is refused with the device unchanged. Inside the range it passes the access through. |
| DeviceProofs.EmptyHighBitsPassAll | emulator.js:431-436 | With empty high bits no address is ignored. |
| DeviceProofs.ShouldIgnoreComparesHighBits | emulator.js:431-436 | For a 16-bit address, an address is ignored exactly when its top bits, read as a number, differ from the value of the high bits. |
| Emulator.GetValue | emulator.js:17-28 | `getValue`: a register, `r` as `256h + l`, `z` as whether `q` is 0, and no value for other names. `EmulatorProofs.GetValueSpec` states it. |
| Emulator.SetValue | emulator.js:29-44 | `setValue`: one of the eight registers takes the value under JavaScript `%`, and any other name is an error. `EmulatorProofs.SetValueSpec` states it. |
| Emulator.BusRead | emulator.js:45-55 | The read loop: the OR of every device's output and the number of devices that responded. `EmulatorProofs.BusReadSpec` states it. |
| Emulator.BusWrite | emulator.js:69-75 | The write loop: every device offered the value, and the number that accepted. `EmulatorProofs.BusWriteSpec` states it. |
| Emulator.ReadDevices | emulator.js:45-67 | `readDevices`: halts with a fatal message when nothing responds, and warns when several respond. `EmulatorProofs.ReadDevicesSpec` states it. |
| Emulator.WriteDevices | emulator.js:69-88 | `writeDevices`: halts with a fatal message when nothing accepts, and warns when several accept. `EmulatorProofs.WriteDevicesSpec` states it. |
| Emulator.Pull | emulator.js:89-99 | `pullAtProgramCounter`: a read at `p`, then `p` advances. `EmulatorProofs.PullSpec` states it. |
| Emulator.Mount | emulator.js:101-104 | `mount`: the device is added at the end. `EmulatorProofs.MountUnmount` states it. |
| Emulator.Unmount | emulator.js:105-108 | `unmount`: every copy of the device is removed. `EmulatorProofs.UnmountRemoves` states it. |
| Emulator.Clock | emulator.js:109-126 | `clock`: nothing on a halted machine, else a fetch and, when it worked, the execution. `EmulatorProofs.ClockStatus`, `EmulatorProofs.ClockFetches` and `EmulatorProofs.ClockSound` state it. |
| Emulator.Execute | emulator.js:127-429 | `execute`: the case for the opcode, and the fatal `default` otherwise. `EmulatorProofs.DecodeNone` and `EmulatorProofs.DecodeCaseLabel` state the dispatch. |
| Emulator.Run | emulator.js:139-423 | The 42 cases of `execute`. `EmulatorProofs.RunStatus` and `EmulatorProofs.RunSound` state them all, and `IsaProofs.OperandsFetched` ties them to the table. |
| Emulator.LoadAddress | emulator.js:144-157 | `ADR`: two bytes pulled into `h` and `l`. `IsaProofs.AddressFetched` states it. |
| Emulator.Move | emulator.js:173-198 | The register moves `LDB`, `LDH`, `LDL`, `STH`, `STL`, `LDQ` and `STQ`. `EmulatorProofs.MoveSpec` states them. |
| Emulator.Swap | emulator.js:176-180 | `SWP`. `EmulatorProofs.SwapSpec` states it. |
| Emulator.Sum | emulator.js:228-245 | `ADD` and `ADDC`. `EmulatorProofs.SumSpec` states them. |
| Emulator.Difference | emulator.js:246-263 | `SUB` and `SUBC`. `EmulatorProofs.DifferenceSpec` states them. |
| Emulator.ShiftUp | emulator.js:264-281 | `SHL` and `SHLC`. `EmulatorProofs.ShiftUpSpec` states them. |
| Emulator.ShiftDown | emulator.js:282-299 | `SHR` and `SHRC`. `EmulatorProofs.ShiftDownSpec` states them. |
| Emulator.Logic | emulator.js:300-317 | `AND`, `OR`, `XOR` and their complements. `EmulatorProofs.LogicSpec` states them. |
| Emulator.Checksum | emulator.js:318-332 | `CKSM` and `CKSMC`. `EmulatorProofs.ChecksumSpec` states them. |
| Emulator.Count | emulator.js:333-338 | `INCR` and `DECR`. `EmulatorProofs.CountSpec` states them. |
| Emulator.JumpIf | emulator.js:339-356 | `JMP`, `JMPC`, `JMPZ` and `JMPQ`. `EmulatorProofs.JumpSpec` states them. |
| Emulator.Push | emulator.js:357-365 | `PSH`. `EmulatorProofs.PushSpec` and `EmulatorProofs.PushPop` state it. |
| Emulator.Pop | emulator.js:366-376 | `POP`. `EmulatorProofs.PopSpec` states it. |
| Emulator.Call | emulator.js:377-398 | `SUBR`. `EmulatorProofs.CallSpec` and `EmulatorProofs.CallReturn` state it. |
| Emulator.Return | emulator.js:399-423 | `RET`. `EmulatorProofs.ReturnSpec`, `EmulatorProofs.ReturnFromEmpty` and `EmulatorProofs.ReturnToEmpty` state it. |
| EmulatorProofs.SetSpec | emulator.js:34-40 | Setting a register changes that register alone, to the value reduced by JavaScript's `%` with its modulus. |
| EmulatorProofs.GetValueSpec | emulator.js:17-27 | `getValue` reads the eight registers by name. `r` is `256·h + l`, `z` is 1 exactly when `q` is 0, and every other name gives `undefined`. |
| EmulatorProofs.SetValueSpec | emulator.js:29-43 | `setValue` throws exactly for names other than the eight registers, so also for `r` and `z`. Otherwise only that register changes, to the truncated remainder, which is in range for non-negative values. |
| EmulatorProofs.SetNegative | emulator.js:35 | Setting `q` to -1 leaves -1, not 255. |
| EmulatorProofs.BusReadSpec | emulator.js:45-55 | Nobody responds exactly when no device responds, and with valid devices the OR of their outputs is a byte. |
| EmulatorProofs.BusReadSingle | emulator.js:48-55 | With a single device the bus yields that device's value and response. |
| EmulatorProofs.BusReadSilentDevice | emulator.js:48-55 | A device that ignores the address contributes nothing to a read. |
| EmulatorProofs.BusWriteSpec | emulator.js:69-75 | Every device is offered the value. Nobody accepts exactly when no device does, and valid devices stay valid. |
| EmulatorProofs.ReadDevicesSpec | emulator.js:45-67 | `readDevices` changes neither registers nor devices. It fails, halting with a fatal message, exactly when no device responds. It warns exactly when several respond. |
| EmulatorProofs.ReadDevicesKeeps | emulator.js:45-67 | A bus read yields the arbitrated value, keeps registers and devices, halts exactly on failure and never raises the fetch warning. |
| EmulatorProofs.WriteDevicesSpec | emulator.js:69-87 | `writeDevices` offers the value to every device and leaves the registers alone. It fails, halting with a fatal message, exactly when no device accepts. It warns exactly when several accept. |
| EmulatorProofs.PullSpec | emulator.js:89-99 | A fetch reads at `p` and advances `p` modulo 65536, even when the read fails. It warns exactly when `p` becomes 0, and halts only on failure. |
| EmulatorProofs.MountUnmount | emulator.js:101-108 | `mount` adds the device, and `unmount` of a device that was not mounted undoes it. |
| EmulatorProofs.UnmountRemoves | emulator.js:105-107 | After `unmount` no copy of the device remains, and every other device stays. |
| EmulatorProofs.AccessStatus | emulator.js:45-99 | A bus read, a bus write and a fetch each report failure exactly when they leave the machine halted, or found it halted. |
| EmulatorProofs.RunStatus | emulator.js:138-427 | Every instruction reports failure exactly when it leaves the machine halted, or found it halted. |
| EmulatorProofs.ClockStatus | emulator.js:109-126 | `clock` reports failure exactly when it leaves the machine halted. On a halted machine it changes nothing. |
| EmulatorProofs.ClockFetches | emulator.js:109-126 | A failed fetch halts and executes nothing. A successful one executes the fetched value with `p` already advanced, and concatenates the messages. |
| EmulatorProofs.DecodeNone | emulator.js:424-426 | Values 16 to 19, and everything outside 0 to 45, reach `default`, which halts with a fatal message. `HLT` halts with an informational one. |
| EmulatorProofs.DecodeCaseLabel | emulator.js:138-427 | A value selects an opcode exactly when it is that opcode's `case` label. |
| EmulatorProofs.SumSpec | emulator.js:228-245 | `ADD`/`ADDC` are nine-bit additions: 256 × carry + `a` is exactly `a + b (+ c)`. No other register changes, and there are no messages. |
| EmulatorProofs.SumExample | emulator.js:228-236 | 200 + 100 leaves 44 with the carry set. |
| EmulatorProofs.DifferenceSpec | emulator.js:246-263 | `SUB` leaves `a - b` modulo 256, and sets the carry exactly when there is no borrow. `SUBC` adds the carry on top, so with the carry set it gives `a - b + 1`. |
| EmulatorProofs.ShiftUpSpec | emulator.js:264-281 | `SHL` doubles `a` with the overflow in the carry. `SHLC` multiplies by 2 to the power 1 + c, because the carry is added to the shift count. |
| EmulatorProofs.ShiftUpStores | emulator.js:264-281 | `SHL` and `SHLC` keep the product modulo 256 in `a` and set the carry exactly when it exceeds 255, with no message. |
| EmulatorProofs.ShiftUpDoubles | emulator.js:264-271 | After `SHL` the carry and `a` together hold twice the old `a`. |
| EmulatorProofs.ShiftDownSpec | emulator.js:282-299 | `SHR` halves `a` and clears the carry, and `SHRC` is identical to `SHR`. |
| EmulatorProofs.ShiftDownHalves | emulator.js:282-299 | `SHR` and `SHRC` each store half of `a`, rounded down, clear the carry and change nothing else. |
| EmulatorProofs.LogicSpec | emulator.js:300-317 | The logic instructions store a byte. `NAND`, `NOR` and `XNOR` store the byte complement of `AND`, `OR` and `XOR`, and nothing else changes. |
| EmulatorProofs.BitsOfBytes | emulator.js:300-308 | On bytes, the JavaScript bitwise operators agree with the bit-by-bit reference over eight bits. |
| EmulatorProofs.BitSumCounts | emulator.js:319-322 | The loop over `(a >> i) & 1` counts the set bits of `a`. |
| EmulatorProofs.ChecksumParity | emulator.js:318-332 | The loop total plus the carry, reduced with JavaScript `%`, is the parity of the number of set bits plus the carry. |
| EmulatorProofs.ChecksumSpec | emulator.js:318-332 | `CKSM` sets the carry to the parity of the set bits of `a`. `CKSMC` uses that count plus the carry. Nothing else changes. |
| EmulatorProofs.CountSpec | emulator.js:333-338 | `DECR` undoes `INCR` when `q` stays clear of the modulus. `INCR` at 255 wraps to 0, but `DECR` at 0 gives -1 rather than 255. |
| EmulatorProofs.JumpSpec | emulator.js:339-356 | A jump that is taken loads `256·h + l` into `p`, also for the negative `h` and `l` that `DECR` and a move can produce; otherwise nothing changes. |
| EmulatorProofs.SwapSpec | emulator.js:176-180 | `SWP` exchanges `a` and `b`, and swapping twice restores the machine. |
| EmulatorProofs.MoveSpec | emulator.js:173-198 | A move between 8-bit registers copies the value and changes nothing else. |
| EmulatorProofs.SingleWrite | emulator.js:69-87 | With one 64 KiB memory, a bus write stores the value modulo 256 at the address, silently and successfully. |
| EmulatorProofs.SingleRead | emulator.js:45-67 | With one 64 KiB memory, a bus read yields the byte at the address, silently and successfully. |
| EmulatorProofs.PushSpec | emulator.js:357-365 | `PSH` stores `a` at `0xFF00 + s` and decrements `s`, without any message, even below zero. |
| EmulatorProofs.PopSpec | emulator.js:366-376 | `POP` increments `s` modulo 256, then loads the byte at `0xFF00 + s` into `a`. It warns exactly when `s` becomes 0, which includes popping from the empty stack at 255. |
| EmulatorProofs.PushPop | emulator.js:357-376 | `PSH` then `POP` restores every register and leaves the pushed byte on the stack. |
| EmulatorProofs.CallSpec | emulator.js:377-398 | `SUBR` pushes the high and then the low byte of `p`, and jumps to `256·h + l`. |
| EmulatorProofs.ReturnSpec | emulator.js:399-422 | `RET` increments `s` twice, popping the low and then the high byte into `p`. It warns each time `s` becomes 0. This holds for every `s` from -255 to 253; the two values where an increment wraps are covered by the next two rows. |
| EmulatorProofs.ReturnFromEmpty | emulator.js:399-422 | `RET` from the empty stack (`s` = 255, as the constructor leaves it): `s` wraps to 0 and then moves to 1, with one overflow warning. `p` comes from `0xFF01` (high) and `0xFF00` (low). |
| EmulatorProofs.ReturnToEmpty | emulator.js:399-422 | `RET` at `s` = 254: the low byte comes from `0xFFFF`, then `s` wraps to 0 with one overflow warning, and the high byte comes from `0xFF00`. |
| EmulatorProofs.CallReturn | emulator.js:377-422 | `SUBR` then `RET` restores every register, `p` included, so execution resumes after the call. |
| EmulatorProofs.NoUnderflowWarning | emulator.js:357-398 | For an in-range `s`, the underflow warnings of `PSH` and `SUBR` are never issued. |
| EmulatorProofs.PushBelowZero | emulator.js:359 | From `s == 0` a push leaves `s == -1`, not 255. |
| EmulatorProofs.RunSound | emulator.js:127-427 | Every instruction keeps each register inside the open range its modulus allows, keeps devices valid, and keeps the number of devices. |
| EmulatorProofs.ClockSound | emulator.js:109-126 | A clock keeps the machine sound, whatever it fetches. |
| EmulatorProofs.InitialSound | emulator.js:2-15 | A freshly constructed SMPU is sound, running and has no devices. |
| EmulatorProofs.RunStaysSound | emulator.js:109-126 | Every machine of a run that starts sound is sound, with as many devices as at the start. |
| EmulatorProofs.RunStaysHalted | emulator.js:110-112 | Once halted, a machine never changes again, however often it is clocked. |
| IsaProofs.EntryOf | src/instructions.js:21-64 | Every opcode of `execute` has its row in the table: its mnemonic, its `case` label as id and the operands it fetches. |
| IsaProofs.TableIds | src/instructions.js:21-64 | The table has 42 rows whose ids run from 0 to 15 and then from 20 to 45. |
| IsaProofs.OpcodeAt | src/instructions.js:21-64 | Each row is the entry of the opcode its id selects in `execute`. |
| IsaProofs.NamesDistinct | src/instructions.js:21-64 | Mnemonics are pairwise distinct, so no row shadows another. |
| IsaProofs.MnemonicFacts | src/instructions.js:21-64 | Each mnemonic is classified as an instruction, and two opcodes with the same mnemonic are the same opcode. |
| IsaProofs.IdsAreCaseLabels | src/instructions.js:21-64 | Ids are pairwise distinct, lie in 0 to 45 outside 16 to 19, and each selects the `case` whose comment names the row's mnemonic. |
| IsaProofs.ArgumentSignatures | src/instructions.js:21-64 | `ADR` takes two address bytes; `CLA`, `CLB` and `CLQ` take one byte; all others take nothing. |
| IsaProofs.MnemonicsAreInstructions | codePart.js:12-14 | Every mnemonic of the table is classified as an instruction. |
| IsaProofs.LookupFindsOpcode | src/instructions.js:11-19 | `getInstrucion` finds every opcode under its mnemonic, with the opcode's `case` label and operands. |
| IsaProofs.KnownNames | src/instructions.js:11-19 | A name is known exactly when it is some opcode's mnemonic, and the id the assembler emits for it selects that opcode in `execute`. |
| IsaProofs.OperandsFetched | emulator.js:144-219 | `execute` fetches exactly the operand bytes the table demands. `ADR` pulls two bytes into `h` and `l`, `CLA`, `CLB` and `CLQ` pull one, and other non-jumping instructions leave `p` alone. |
| IsaProofs.AddressFetched | emulator.js:144-157 | `ADR` pulls the high and then the low address byte, keeps each modulo 256 and leaves `p` after both. |
| IsaProofs.ConstantFetched | emulator.js:199-219 | `CLA`, `CLB` and `CLQ` advance `p` by exactly one fetch. |
| IsaProofs.NoOperandKeepsCounter | emulator.js:139-377 | Every instruction that takes no operand and does not jump leaves `p` where the fetch of its opcode left it. |

## Left out

- **Not modelled:**
  - Markup stripping of the editor text (compiler.js:53-56): the model starts from the source lines, as `split("\n")` yields them.
  - The HTML rendering of the result (compiler.js:303-325) and the `infoScreen` tables: presentation only.
  - `console.log` calls, `updateDisplay()` at the end of `setNBits`, the emulator drawer, `restartEmulator`, the clock timer and the device widgets: user interface and timers.
  - The `RangeLimiter` setters `setNewDevice`, `setRangeLimitEnabled` and `setHighBits`: they replace one field. In the model that is a datatype update.
  - The unreachable statements after `case 15` in `execute` (emulator.js:220-227): code after a `return`, which never runs.
  - Macros and `export()`: this revision of the code has neither.
- **Simplified representations:**
  - Messages are a datatype of events, not strings: the text carries no behaviour.
  - `debugLog` is a list of notes and errors rather than concatenated text.
  - `unmount` compares devices by value, where JavaScript compares object identity.
- **Scope and preconditions of lemmas:**
  - `EmulatorProofs.RunSound` and `EmulatorProofs.ClockSound` state soundness only for a machine that is already sound. `setValue` with an arbitrary value can leave a register outside its range.
  - `EmulatorProofs.SumSpec`: states `ADD` and `ADDC` only for byte-valued `a`, `b` and `c`. Negative register values, which only arise from `DECR` and stack arithmetic, are covered by `EmulatorProofs.RunSound` alone.
  - `EmulatorProofs.DifferenceSpec`: states `SUB` and `SUBC` only for byte-valued `a`, `b` and `c`. Negative register values, which only arise from `DECR` and stack arithmetic, are covered by `EmulatorProofs.RunSound` alone.
  - `EmulatorProofs.ShiftUpSpec`: states `SHL` and `SHLC` only for byte-valued `a` and `c`. Negative register values, which only arise from `DECR` and stack arithmetic, are covered by `EmulatorProofs.RunSound` alone.
  - `EmulatorProofs.ShiftUpStores`: states `SHL` and `SHLC` only for byte-valued `a` and `c`. Negative register values, which only arise from `DECR` and stack arithmetic, are covered by `EmulatorProofs.RunSound` alone.
  - `EmulatorProofs.ShiftUpDoubles`: states `SHL` only for byte-valued `a` and `c`. Negative register values, which only arise from `DECR` and stack arithmetic, are covered by `EmulatorProofs.RunSound` alone.
  - `EmulatorProofs.ShiftDownSpec`: states `SHR` and `SHRC` only for byte-valued `a` and `c`. Negative register values, which only arise from `DECR` and stack arithmetic, are covered by `EmulatorProofs.RunSound` alone.
  - `EmulatorProofs.ShiftDownHalves`: states `SHR` and `SHRC` only for byte-valued `a` and `c`. Negative register values, which only arise from `DECR` and stack arithmetic, are covered by `EmulatorProofs.RunSound` alone.
  - `EmulatorProofs.LogicSpec`: states the six logic instructions only for byte-valued `a` and `b`. Negative register values, which only arise from `DECR` and stack arithmetic, are covered by `EmulatorProofs.RunSound` alone.
  - `EmulatorProofs.ChecksumSpec`: states `CKSM` and `CKSMC` only for byte-valued `a` and `c`. Negative register values, which only arise from `DECR` and stack arithmetic, are covered by `EmulatorProofs.RunSound` alone.
  - `EmulatorProofs.PushSpec`: assumes a single 64 KiB memory as the only device. Other device layouts are covered by the bus lemmas.
  - `EmulatorProofs.PopSpec`: assumes a single 64 KiB memory as the only device. Other device layouts are covered by the bus lemmas.
  - `EmulatorProofs.CallSpec`: assumes a single 64 KiB memory as the only device. Other device layouts are covered by the bus lemmas.
  - `EmulatorProofs.ReturnSpec`: assumes a single 64 KiB memory as the only device. Other device layouts are covered by the bus lemmas.
  - `EmulatorProofs.ReturnFromEmpty`: assumes a single 64 KiB memory as the only device. Other device layouts are covered by the bus lemmas.
  - `EmulatorProofs.ReturnToEmpty`: assumes a single 64 KiB memory as the only device. Other device layouts are covered by the bus lemmas.
  - `EmulatorProofs.PushPop`: assumes a single 64 KiB memory as the only device. Other device layouts are covered by the bus lemmas.
  - `EmulatorProofs.CallReturn`: assumes a single 64 KiB memory as the only device. Other device layouts are covered by the bus lemmas.
- **Weaker than JavaScript:**
  - `Js.Number`: does not model signs, whitespace, decimal points, `Infinity` or rounding to doubles. Code-part classification only lets hex-digit texts with an optional `0b`/`0x` prefix reach it, so none of these occur there.
  - `Emulator.GetValue`: names inherited from `Object.prototype` (`"toString"` and the like) are treated as unknown. JavaScript's `in` would find them.
  - `Devices.SetNBits`: takes the width as a number. The device widget passes the text of an input field, which `2 **` converts to a number, so only the early-return comparison can tell the difference, and that return is unobservable (`DeviceProofs.ResizeToSameSize`).
