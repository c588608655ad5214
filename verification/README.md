# Verified models of the profiling collector's algorithms

`one_collect` collects samples from the kernel or from ETW and .NET event streams, unwinds native stacks,
and builds call graphs. Behind the I/O it has a number of self-contained algorithms, each a fast form of
something simple or a state machine that has to hold over whole runs. This project models them in Dafny and
proves what they are for.

| files | what they model |
|---|---|
| `Leb128`, `CallFrame`, `FrameRules`, `FrameOffsets` | the DWARF call-frame reader: LEB128, pointers, instructions, CIE and FDE, the delta rows and their replay |
| `CallFrameTable`, `CallFrameAcceptance`, `CallFrameReplay`, `CallFrameRegisters` | the row table of section 6.4 of DWARF 4, which programs are accepted, and where the replayed deltas agree with the table: locations, CFA, registers |
| `Pointers`, `CallFrameCode`, `CallFrameEntries` | what a producer writes: encoded pointers, the byte code of section 7.23 of DWARF 4, whole entries; all of it undone by the loader |
| `AddressLookups`, `Mappings` | the sweep index over time-stamped address ranges, its cache, and the linear scan it replaces |
| `EventFormats`, `RecordLayouts`, `CutRecords`, `DescribedFields` | the lazy field resolver and the writers it has to undo: field after field, cut short, or behind descriptors |
| `Nettrace`, `NettraceTrees`, `NettraceDamage`, `NettraceMetadata`, `Tdh`, `TdhTrees`, `TypeTables` | the two schema parsers that feed the resolver against the trees they flatten and the types there are, damaged schemas, event metadata and extension labels |
| `Processes`, `UnwindSteps`, `UnwindTables`, `UnwindRuns`, `UnwindTurns` | modules of a process, single unwind steps, DWARF steps against the table, whole runs with their frame accounting, what turns and runs are |
| `CallGraphs`, `CallGraphTotals`, `CallGraphSamples`, `ExportGraphs` | the call graph with its callstack cache, against a graph counted from scratch |
| `Intern`, `AttributeWalks`, `ReplayStreams`, `Replays` | hash-consing, the walk over associated attributes, the merge of per-process replays |
| `PerfRecords`, `PerfLayouts`, `PerfSamples`, `PerfSessions`, `PerfTrailers`, `PerfHeaders` | the perf sample decoder against the ABI's layout, the trailer of other records, record headers |
| `Symbols`, `Clocks` | symbol matching and tick conversion |
| `Outcome`, `MachineInt`, `Bytes`, `Sorting` | results, fixed-width arithmetic, little-endian numbers, the library sort and binary search |

Code that changes objects step by step is a class or a method with loops, proved equal to a function of its
input or old state; what the source promises is proved about those functions. Arithmetic follows a build
without overflow checks: sums, products and casts wrap or truncate where the source's do, and shift amounts
are taken modulo 64. `Fault.Rejected` stands for an error the source returns, `Fault.OutOfBounds` for an
index past a slice, where the source panics.

Where a claim one would expect does not hold on some edge, the code was followed and the exact condition is
proved, with an input that shows the failure:

- The locations recorded for a program are those of its table exactly when each is followed: it stays an address
  and is not before the last in signed comparison (`LocationsAgreeIff`, `BackwardsIsMisplaced`). All the replay
  results below are about programs whose locations are followed.
- A program and all its beginnings, those in the initial instructions included, are replayed with the CFA
  registers of their tables exactly when the program gives its CFA registers by numbers below 2^63
  (`CfaRegisterIff`, `NegativeRegisterIsTruncated`).
- A register is replayed as the table has it, through a program and all its beginnings, exactly when every
  instruction, initial or not, treats it faithfully (`ReplayedIffFaithful`). All registers are replayed correctly
  for a set of instruction kinds exactly when the set has no value offsets and, next to offsets, nothing but
  `undefined` that takes one away (`ReplayableIffSupported`, `BadBodyFails`).
- Whatever the rows, the scratch array and the mask hold the replayed offsets exactly up to 64 registers: a
  longer array never gets register 64 right, whose bit is another's or whose number is too large for the length
  as a byte (`StoredIsReplayedIff`, `Register64IsLost`, `SharedBit`).
- A program is accepted exactly when its operands fit and no beginning restores more states than it remembered
  (`LoadsIffAcceptable`); what is written is loaded exactly when that holds, its entries are no longer than 2048
  bytes, and its CIE is accepted (`LoadUndoesEncode`). A code alignment of 2^63 or more is accepted as well and is
  cut to sixteen bits (`FactorsAreKeptIff`). An empty augmentation string makes the parser go out of bounds
  (`EmptyAugmentationFaults`).
- Pointers in formats the reader does not know, native ones among them, are read as zero from no bytes
  (`OtherFormatsAreZero`).
- The first address of an FDE with relative addresses is read right exactly when they are relative to the address
  that is the entry's position in the file, its size exactly when the first address is self-relative and four bytes
  wide, and the address of a relative `set_loc` exactly when the current location is what it is relative to
  (`StartIsKeptIff`, `SizeIsKeptIff`, `RelativeSetLocIff`).
- The index and the scan over mappings differ exactly when the one mapping that ends first at the address is
  strictly the latest (`AgreeIffNotHidden`, `HiddenAtAnEnd`).
- Every written record is read back exactly when the declared offsets leave no gap up to the first
  variable-length field (`GapFreeIff`, `GapIsMisread`, `GapBehindStringIsMisread`).
- All records of a gap-free layout can be cut anywhere without one field being taken for another exactly when no
  UTF-16 string is directly followed by a byte string or a one-byte field (`CutReadIff`, `HalfUnitIsMisread`).
- A plain object without fields is taken for a V2 block as soon as four bytes follow (`EmptyObjectIff`,
  `EmptyObjectIsMisread`); array element sizes agree for the integer codes only (`ElementSizeIff`,
  `OtherArraysDiffer`).
- The callstack cache changes no contribution exactly when the frames of every repeated callstack import at the
  sample's time as they did when it was first seen; a mapping that appears in between is missed
  (`CachingIsRemergingIff`, `LateMappingIsMissed`).
- A repeated callstack without frames is counted twice at the root (`CacheIsExact`,
  `EmptyCallstackCountsTwice`).
- The attribute walk goes out of bounds exactly when the id just past the table is reachable, because its
  bounds test lets that id through (`WalkAttributes`, `PastTheTable`).
- A replay shows a process' creation again on every step that stays at its time, so once for every sample or
  mapping of that time, whichever are more; it is shown exactly once unless two samples or two mappings share its
  time, and so is the exit (`StreamShowsStates`, `ShownOnceIff`, `CreationShownTwice`).
- Sample fields are all in place exactly under the condition of `FieldsAreOwnIff`; the comment in the decoder
  takes four bytes per register for the 32-bit ABI, while the layout it documents has words
  (`NarrowRecordIsMisread`).
- A record whose aligned length does not fit 16 bits is cut short when written (`ReadUndoesWriteIff`,
  `LongRecordIsCut`).
- Tick conversion is exact exactly when the rest does not overflow when scaled (`ConversionIsExactIff`,
  `FastCounterIsInexact`).

## Model

| member | source | states |
|---|---|---|
| Leb128.UlebRoundTrip | one_collect/src/ruwind/dwarf.rs:1043-1066 | Reading the unsigned section 7.6 encoding of any 64-bit pattern gives that pattern back, moves the cursor by exactly the encoded length and ignores what follows; below 2^63 the value itself |
| Leb128.SlebRoundTrip | one_collect/src/ruwind/dwarf.rs:1068-1095 | The same for the signed encoding of every 64-bit signed value |
| Leb128.AccumulateTen | one_collect/src/ruwind/dwarf.rs:1043-1066 | Of a ten-byte encoding the shifted accumulation is the encoded number modulo 2^64: only the lowest bit of the tenth byte survives |
| Leb128.AccumulateSignedValue | one_collect/src/ruwind/dwarf.rs:1068-1095 | Up to ten bytes, the sign-extended accumulator is the 64-bit signed value of the encoded number |
| Leb128.ReadUleb | one_collect/src/ruwind/dwarf.rs:1043-1066 | The loop reads exactly one encoding from the cursor, or fails at the end of the data; value and cursor are those of the specification |
| Leb128.ReadSleb | one_collect/src/ruwind/dwarf.rs:1068-1095 | The same with the sign extension that depends on the bits read |
| FrameRules.ReadValue | one_collect/src/ruwind/dwarf.rs:1097-1167 | The encoded-pointer reader: the value in its format, then relative to the position or to the data as the encoding asks, wrapping at 64 bits; an unknown format gives zero without reading, and a fault comes only from reading past the end |
| FrameRules.RuleReader.Apply | one_collect/src/ruwind/dwarf.rs:475-780 | One decoded instruction changes frame, location and CFA stack as the recording specification says, and reports whether a new location closed the frame |
| FrameRules.RuleReader.ReadRule | one_collect/src/ruwind/dwarf.rs:475-780 | One instruction from the bytes: cursor, location, open frame, CFA stack and the outcome flag, or the fault |
| FrameRules.RuleReader.ReadOperands | one_collect/src/ruwind/dwarf.rs:475-780 | The operands of every opcode are read in order, each with its own encoding, up to the first fault |
| FrameOffsets.ReadFrameEntry | one_collect/src/ruwind/dwarf.rs:328-366 | An entry of the frame section with its length and id words, or the fault that ends the read |
| FrameOffsets.ParseCie | one_collect/src/ruwind/dwarf.rs:252-326 | The common information entry: version, augmentation string and data, alignment factors, pointer encodings |
| FrameOffsets.FrameOffset.ReadRows | one_collect/src/ruwind/dwarf.rs:429-467 | The rows recorded from the CIE's initial instructions followed by the FDE's own, with the CFA rule carried over at each location |
| FrameOffsets.FrameOffset.LoadRules | one_collect/src/ruwind/dwarf.rs:368-473 | Either exactly the specified first address, size and delta rows and the entry valid, or the entry marked invalid |
| FrameOffsets.FrameOffset.UnwindToCfa | one_collect/src/ruwind/dwarf.rs:195-234 | For scratch arrays of any length, what the loop stores: registers below the length as a byte, mask bits modulo 64. With at most 64 registers the masked entries are exactly the replayed offsets, and the CFA rule is the replayed one |
| FrameOffsets.StoredIsReplayed | one_collect/src/ruwind/dwarf.rs:195-234 | With at most 64 registers the mask and the array hold exactly the replayed offsets, from any state in which they do |
| FrameOffsets.StoredIsReplayedIff | one_collect/src/ruwind/dwarf.rs:195-234 | They do so for all rows and addresses if and only if the array has at most 64 entries |
| FrameOffsets.Register64IsLost | one_collect/src/ruwind/dwarf.rs:195-234 | For every longer array a row with one rule, for register 64: the mask has register 0 instead, or nothing where the length as a byte is at most 64 |
| FrameOffsets.SharedBit | one_collect/src/ruwind/dwarf.rs:195-234 | With 65 registers, undoing the rule of register 64 takes the bit of register 0 |
| CallFrameReplay.ReplayIsLive | one_collect/src/ruwind/dwarf.rs:195-234 | Replaying the delta rows up to a target is running the recorded program once, without deltas, up to that target |
| CallFrameReplay.FollowsIff | one_collect/src/ruwind/dwarf.rs:482-560 | The source moves to the location section 6.4.2 asks for if and only if that is an address that is not before the current one |
| CallFrameReplay.LocationsAgreeIff | one_collect/src/ruwind/dwarf.rs:482-560 | All locations recorded for a program are those of its table if and only if each of them is followed |
| CallFrameReplay.ForwardsIsFollowed | one_collect/src/ruwind/dwarf.rs:482-560 | Locations that never go back and stay below 2^63 are followed |
| CallFrameReplay.BackwardsIsMisplaced | one_collect/src/ruwind/dwarf.rs:482-560 | A program with a location that goes back: at one address the replayed CFA offset is not the table's |
| CallFrameReplay.ReplayedCfaIsTableCfa | one_collect/src/ruwind/dwarf.rs:195-234 | For every accepted program whose locations are followed and every address at or after its start, the replayed CFA offset is that of the section 6.4 row. The register is the row's when the program's CFA register operands are below 2^63, and the row's reduced to a byte in any case |
| CallFrameReplay.CfaRegisterIff | one_collect/src/ruwind/dwarf.rs:69-80 | A program and every beginning of it, in the initial instructions or in the body, have the CFA register of their tables if and only if every CFA register operand is below 2^63 |
| CallFrameReplay.NothingBeforeStart | one_collect/src/ruwind/dwarf.rs:195-234 | Before the start of the program nothing is replayed |
| CallFrameReplay.NegativeRegisterIsTruncated | one_collect/src/ruwind/dwarf.rs:69-80 | A register operand of 2^63 or more passes the range check and loses all but its low byte |
| CallFrameRegisters.StepIsFaithfulIff | one_collect/src/ruwind/dwarf.rs:475-780 | One recorded instruction leaves a register with the offset its table row has if and only if it is faithful to it, by cases over the instructions |
| CallFrameRegisters.FaithfulIsReplayed | one_collect/src/ruwind/dwarf.rs:195-234 | A register that all instructions of a program treat faithfully is replayed as the table has it, at every address |
| CallFrameRegisters.ReplayedIffFaithful | one_collect/src/ruwind/dwarf.rs:195-234 | A program and every beginning of it, in the initial instructions or in the body, are replayed as their tables have a register if and only if every instruction is faithful to it |
| CallFrameRegisters.SavesThenBrackets | one_collect/src/ruwind/dwarf.rs:475-780 | Saving registers first and then changing only the CFA, with states remembered and restored, is faithful to every register |
| CallFrameRegisters.ReplayableIffSupported | one_collect/src/ruwind/dwarf.rs:475-780 | For a set of instruction kinds, every program of those kinds whose locations are followed has its register rules replayed as the section 6.4 table gives them if and only if the set has no value offsets and, next to offsets, nothing that takes an offset away except `undefined`; a failing program is given for every other set |
| CallFrameRegisters.BadBodyFails | one_collect/src/ruwind/dwarf.rs:475-780 | The program that shows it: for every set of kinds outside the supported ones a concrete body whose replay differs from its table |
| CallFrameRegisters.SupportedAgrees | one_collect/src/ruwind/dwarf.rs:195-234 | Programs of supported kinds: exactly the registers with an offset rule are masked, with that offset |
| CallFrameRegisters.FileReplayIsTable | one_collect/src/ruwind/dwarf.rs:368-473 | For the bytes of a file: loading then replaying gives the table of the program decoded from the same bytes, for the CFA offset, the CFA register, each register treated faithfully, and all registers of supported kinds |
| CallFrameTable.LoadedIsProgram | one_collect/src/ruwind/dwarf.rs:368-473 | Whatever loading accepts decodes to a program, and the rows are those recorded from that program |
| CallFrameAcceptance.LoadsIffAcceptable | one_collect/src/ruwind/dwarf.rs:69-115 | A program is accepted if and only if its register operands are at most 255 and its offsets and values fit sixteen bits, all as signed numbers, and no beginning of initial instructions and body restores more states than it remembered; otherwise it is rejected |
| CallFrameAcceptance.StepIffFits | one_collect/src/ruwind/dwarf.rs:475-780 | The same for one instruction, with the number of states remembered after it |
| CallFrameAcceptance.UnknownIsRejected | one_collect/src/ruwind/dwarf.rs:641-736 | A byte that is no opcode of the table, `def_cfa_expression` among them, ends the load in an error wherever it stands |
| CallFrameCode.DecodeUndoesEncode | one_collect/src/ruwind/dwarf.rs:475-780 | Every instruction of section 7.23, written with any correct LEB128 encoder and with absolute addresses in any format, is decoded as the instruction meant with its operands as signed 64-bit numbers, and the cursor stands behind it |
| CallFrameCode.RelativeSetLocIff | one_collect/src/ruwind/dwarf.rs:495-507 | A `set_loc` whose address is written relative to itself or to some data is read relative to the current location: as the address meant if and only if that location is where the entry, or the data, is |
| Pointers.PointerHere | one_collect/src/ruwind/dwarf.rs:1097-1167 | A pointer of any format, two, four or eight bytes or LEB128, signed or not, is read where it stands as what it refers to: relative to its position and the data, to the data alone, or to nothing, modulo 2^64 |
| Pointers.OtherFormatsAreZero | one_collect/src/ruwind/dwarf.rs:1097-1167 | In any other format nothing is read and the value is zero |
| CallFrameCode.CodeIsRecorded | one_collect/src/ruwind/dwarf.rs:429-467 | The rows recorded from the bytes of a whole program are those of the instructions meant, faults included |
| CallFrameCode.ShortestIsCorrect | one_collect/src/ruwind/dwarf.rs:1043-1095 | The shortest encoders of section 7.6 are such encoders |
| CallFrameEntries.CommonIsParsed | one_collect/src/ruwind/dwarf.rs:252-326 | A CIE as a producer writes it, with or without items in its augmentation, is rejected if and only if its id, version or numbers are not accepted; otherwise its factors and encodings are those written and its instructions are where they stand |
| CallFrameEntries.EntryIsRead | one_collect/src/ruwind/dwarf.rs:328-366 | An entry is read where it stands if and only if it is not empty and at most 2048 bytes long |
| CallFrameEntries.CutEntryIsRejected | one_collect/src/ruwind/dwarf.rs:328-366 | An entry the file ends in is rejected, wherever it ends |
| CallFrameEntries.CommonIsNoDescription | one_collect/src/ruwind/dwarf.rs:368-400 | A CIE is not loaded as an FDE |
| CallFrameEntries.FactorsAreKeptIff | one_collect/src/ruwind/dwarf.rs:282-296 | Advances mean what was written, and the return register is kept, if and only if the numbers are below 2^63; with an alignment of 2^63 no advance moves |
| CallFrameEntries.EmptyAugmentationFaults | one_collect/src/ruwind/dwarf.rs:298-298 | A CIE with an empty augmentation string goes out of bounds |
| CallFrameEntries.StartIsKeptIff | one_collect/src/ruwind/dwarf.rs:418-419 | The first address is read as it was meant if and only if it is absolute or what it is relative to is in memory where the entry is in the file, modulo 2^64 |
| CallFrameEntries.SizeIsKeptIff | one_collect/src/ruwind/dwarf.rs:420-421 | The size is read as it was written if and only if addresses are absolute, or self-relative with the size at byte twelve of the entry |
| CallFrameEntries.LoadUndoesEncode | one_collect/src/ruwind/dwarf.rs:368-473 | Loading a written FDE and the CIE it points back to, anywhere in a file, gives the rows recorded from the instructions meant, with the size and return register. It succeeds if and only if both entries are within the limit, the CIE is accepted, its augmentation string is not empty, and the instructions are acceptable |
| CallFrameEntries.WrittenReplayIsTable | one_collect/src/ruwind/dwarf.rs:368-473 | From the producer to the replay: what is loaded from written entries replays the section 6.4 table of the program meant, as far as `FileReplayIsTable` goes |
| AddressLookups.AddressLookup.Update | one_collect/src/helpers/exporting/lookup.rs:62-86 | The sweep leaves an index that lists, at every item's address, exactly the indices active there |
| AddressLookups.AddressLookup.RecordSnapshot | one_collect/src/helpers/exporting/lookup.rs:62-86 | One entry per active index at the address, earlier entries untouched |
| AddressLookups.AddressLookup.Find | one_collect/src/helpers/exporting/lookup.rs:36-60 | Every index recorded at the greatest recorded address at or below the one asked for, and no other |
| Mappings.CandidateIffNotMissed | one_collect/src/helpers/exporting/mappings.rs:307-327 | The index offers a mapping that contains the address if and only if it is not the one whose inclusive end is the first endpoint there |
| Mappings.AgreeIffNotHidden | one_collect/src/helpers/exporting/mappings.rs:329-390 | Indexed and scanned answer find a mapping together and at the same time if and only if no mapping is hidden at the address |
| Mappings.NotHiddenOffTheEnds | one_collect/src/helpers/exporting/mappings.rs:329-390 | Nothing is hidden at an address that is no mapping's inclusive end, whatever the overlaps |
| Mappings.NotHiddenWhenDisjoint | one_collect/src/helpers/exporting/mappings.rs:329-390 | With pairwise disjoint ranges nothing is hidden at any address |
| Mappings.HiddenAtAnEnd | one_collect/src/helpers/exporting/mappings.rs:329-390 | Two overlapping mappings for which the two branches answer with different mappings of different times |
| Mappings.ActiveBetween | one_collect/src/helpers/exporting/lookup.rs:62-86 | In the sorted endpoint list a mapping is active exactly from its start up to its end |
| Mappings.ExportMappingLookup.MappingsMut | one_collect/src/helpers/exporting/mappings.rs:294-299 | Every edit of the list, sorting included, leaves the cache cleared, so a later lookup never uses a stale index |
| Mappings.ExportMappingLookup.Clone | one_collect/src/helpers/exporting/mappings.rs:276-286 | A copy with the same mappings and threshold and a cache of its own |
| Mappings.ExportMappingLookup.BuildLookup | one_collect/src/helpers/exporting/mappings.rs:307-327 | The index built is the sweep over both endpoints of every mapping |
| Mappings.ExportMappingLookup.FindIndexed | one_collect/src/helpers/exporting/mappings.rs:329-390 | The indexed branch: the latest eligible mapping among all but the missed one; out of bounds exactly on an empty list |
| Mappings.ExportMappingLookup.FindScanned | one_collect/src/helpers/exporting/mappings.rs:329-390 | The linear branch: the first of the latest eligible mappings |
| Mappings.ScanIsUnchanged | one_collect/src/helpers/exporting/mappings.rs:329-390 | Between two times at which no mapping of an address appears the scan finds the same mapping |
| Mappings.ExportMappingLookup.FindIndex | one_collect/src/helpers/exporting/mappings.rs:329-390 | After any edits and threshold changes the branch the threshold selects gives its best eligible mapping |
| EventFormats.GetDataWithOffsetDirect | one_collect/src/event/mod.rs:507-632 | The slice for each location kind, empty wherever the data is too short; it never leaves the data |
| EventFormats.GetFieldDataClosure | one_collect/src/event/mod.rs:634-702 | The skip chain followed by the direct read, for any data |
| EventFormats.TryGetFieldDataClosure | one_collect/src/event/mod.rs:1225-1315 | The accessor of the first field of the name: plain when all earlier fields are fixed, a chain otherwise, none when a field in between cannot be skipped |
| DescribedFields.DescribedIs | one_collect/src/event/mod.rs:590-632 | A field with a descriptor is the bytes its length says at its distance from the start of the record, or from the end of the descriptor; nothing if they would end past the data |
| DescribedFields.DescribedReadsValue | one_collect/src/event/mod.rs:590-632 | A value that stands where its descriptor says is read back |
| DescribedFields.DescribedUndoesPlace | one_collect/src/event/mod.rs:1225-1315 | The accessor of such a field behind fixed-size ones reads the payload a writer put behind the fixed part, whatever follows it |
| DescribedFields.SizelessIsBytes | one_collect/src/event/mod.rs:562-588 | An array without an element size is counted in bytes |
| RecordLayouts.SkipsEncoding | one_collect/src/event/mod.rs:634-702 | A skip over a written variable-length field moves by exactly the bytes the writer laid down |
| RecordLayouts.ReadsValue | one_collect/src/event/mod.rs:507-632 | A direct read at the start of a written field returns its value |
| RecordLayouts.ChainArrives | one_collect/src/event/mod.rs:634-702 | The chain over the first k fields arrives at the position the writer gave value k |
| RecordLayouts.ReadUndoesWrite | one_collect/src/event/mod.rs:1225-1315 | Reading field k of a record written field after field returns value k, whatever follows the record |
| RecordLayouts.ReadByName | one_collect/src/event/mod.rs:1225-1315 | By name, with distinct names, the closure reads that field's value |
| RecordLayouts.GapFreeIff | one_collect/src/event/mod.rs:1225-1315 | All records of a layout are read back, whatever follows them, if and only if the declared offsets are the running sums up to the first variable-length field |
| RecordLayouts.GapIsMisread | one_collect/src/event/mod.rs:1225-1315 | A record that is not read back, for every layout with a gap |
| RecordLayouts.GapBehindStringIsMisread | one_collect/src/event/mod.rs:634-702 | Why gap-free layouts are asked for: behind a variable-length field the chain ignores declared offsets |
| CutRecords.CutIsRead | one_collect/src/event/mod.rs:507-702 | Wherever a record ends, each field gives its value if it is all there, of a string the complete characters that are left, and nothing otherwise, for layouts without a UTF-16 string directly before a field that takes one byte |
| CutRecords.CutReadIff | one_collect/src/event/mod.rs:634-702 | All records of a gap-free layout are read so, wherever they end, if and only if no UTF-16 string is directly followed by a byte string or a one-byte field |
| CutRecords.HalfUnitIsMisread | one_collect/src/event/mod.rs:634-702 | For every layout that has such a pair, a record and an end for which half a unit is taken for the next field |
| TypeTables.ReachedIff | one_collect/src/event/mod.rs:1225-1315 | A field has an accessor if and only if every field before it has a size or an extent that can be told, and its own elements are known if it is an array |
| TypeTables.ElementsAre | one_collect/src/event/mod.rs:1187-1217 | The resolver knows an element size if and only if the word is an integer of that width or a text counted in bytes |
| TypeTables.ElementWordIs | one_collect/src/event/mod.rs:1187-1217 | The word that counts may stand behind a marker of arrays and behind `unsigned` |
| Nettrace.ReadString | one_collect/src/helpers/dotnet/nettrace.rs:143-163 | A NUL-terminated UTF-16 string and the rest of the data; a surrogate unit becomes a question mark |
| Nettrace.EventFormat.AppendField | one_collect/src/helpers/dotnet/nettrace.rs:165-193 | The new field stands at the sum of the sizes before it |
| Nettrace.ParseHeader | one_collect/src/helpers/dotnet/nettrace.rs:325-375 | The field count and whether a V2 block follows, or nothing usable |
| Nettrace.Parse | one_collect/src/helpers/dotnet/nettrace.rs:325-452 | The parser's result is the specification's on any bytes and at any depth; it terminates within the depth limit |
| Nettrace.ParseOne | one_collect/src/helpers/dotnet/nettrace.rs:376-452 | One turn of the field loop, for both layouts |
| NettraceTrees.BodyRoundTrip | one_collect/src/helpers/dotnet/nettrace.rs:325-452 | Parsing an encoded object, plain or V2, adds its leaves to the format and leaves what follows it |
| NettraceTrees.UnitsAreRead | one_collect/src/helpers/dotnet/nettrace.rs:143-163 | Any UTF-16 name is read up to its terminator, a character for a unit, a question mark for half of a surrogate pair |
| NettraceTrees.ParseUndoesEncode | one_collect/src/helpers/dotnet/nettrace.rs:325-461 | For every tree within the depth limit: the in-order leaves with their names, types and sizes, at offsets that are the sums of the sizes before them, and the rest of the input untouched |
| NettraceTrees.ObjectLeavesSuffix | one_collect/src/helpers/dotnet/nettrace.rs:325-452 | On arbitrary bytes the parser returns a suffix of its input and only appends to the format |
| NettraceTrees.EmptyObjectIff | one_collect/src/helpers/dotnet/nettrace.rs:325-375 | A plain object without fields is parsed as such if and only if fewer than four bytes follow; otherwise it is taken for the head of a V2 block |
| NettraceTrees.EmptyObjectIsMisread | one_collect/src/helpers/dotnet/nettrace.rs:325-375 | An empty object with four zero bytes behind it |
| NettraceTrees.ElementSizeIff | one_collect/src/helpers/dotnet/nettrace.rs:195-323 | The element size the resolver uses for an array of a scalar type is the parser's if and only if the type is one of the integer codes |
| NettraceTrees.OtherArraysDiffer | one_collect/src/helpers/dotnet/nettrace.rs:195-323 | Arrays of 16-byte identifiers and of floats, whose element sizes the resolver has differently or not at all |
| NettraceDamage.DamageKeepsBefore | one_collect/src/helpers/dotnet/nettrace.rs:353-452 | Behind any fields, one whose type, length or array type is not understood ends the object: the leaves of those before it are kept, nothing else is added, and parsing goes on where it stopped, or nowhere behind an array of objects or arrays |
| NettraceDamage.DamagedObject | one_collect/src/helpers/dotnet/nettrace.rs:325-452 | The same for a whole plain object that announces more fields than are understood |
| NettraceDamage.DamagedBlock | one_collect/src/helpers/dotnet/nettrace.rs:334-362 | A V2 block without a size, its tag or its count has no fields |
| NettraceDamage.TooDeepIsSkipped | one_collect/src/helpers/dotnet/nettrace.rs:325-331 | An object below the deepest level adds nothing; a V2 field goes on behind it, a plain one has nothing left |
| TypeTables.CodesAreTypes | one_collect/src/helpers/dotnet/nettrace.rs:195-323 | The words and sizes of all type codes, against the .NET types: integers in pairs from code 5 on, each pair twice as wide, reals, identifiers and the unsized ones |
| NettraceTrees.ParsedTreeReadsRecords | one_collect/src/helpers/dotnet/nettrace.rs:325-461 | End to end: the fields of a parsed tree read back any record written for them |
| NettraceMetadata.ReadStringLen | one_collect/src/helpers/dotnet/nettrace.rs:543-556 | The bytes up to and including the first zero unit, or of all complete units |
| NettraceMetadata.Parse | one_collect/src/helpers/dotnet/nettrace.rs:566-601 | The seven parts of an event's metadata, empty from the first one that is not all there; never out of range |
| NettraceMetadata.MetadataRoundTrip | one_collect/src/helpers/dotnet/nettrace.rs:566-601 | Parsing what a writer laid down gives every part back, names included, and the field metadata behind them |
| NettraceMetadata.MissingPartsAreMissing | one_collect/src/helpers/dotnet/nettrace.rs:474-510 | In data that is too short each number after the first missing one is missing too, and there are no fields |
| NettraceMetadata.ParseEventExtensionV1 | one_collect/src/helpers/dotnet/nettrace.rs:19-90 | Of any untrusted bytes the first three labels, or fewer if they end earlier, without leaving the data |
| NettraceMetadata.LabelsRoundTrip | one_collect/src/helpers/dotnet/nettrace.rs:19-90 | Encoded labels are given back one by one, whatever follows them |
| Tdh.Walker.WalkProperties | one_collect/src/etw/tdh.rs:358-498 | The leaves below a range of properties depth first, or the error of a bad index or of structs nested too deep |
| Tdh.Walker.AddLeaf | one_collect/src/etw/tdh.rs:358-498 | A leaf is placed at the running offset, or at 0 once a variable-length field was seen |
| Tdh.PlacedIsGapFree | one_collect/src/etw/tdh.rs:358-498 | Offsets are the prefix sums up to and including the first variable-length field, so the layout is gap-free in the resolver's sense |
| Tdh.FlattenShapes | one_collect/src/etw/tdh.rs:627-678 | Every leaf that has a size is a plain static one |
| TypeTables.InTypesAreTypes | one_collect/src/etw/tdh.rs:627-678 | Word, location and size of every in-type, against what the type is |
| TypeTables.LeafIs | one_collect/src/etw/tdh.rs:358-498 | A leaf is unreadable for arrays, as long as the schema says for a type that is no text, and what its type is otherwise |
| Tdh.ReachedFieldsReadRecords | one_collect/src/event/mod.rs:1225-1315 | Whenever the resolver hands out an accessor in such a layout, it reads at the position of the sequential layout |
| Tdh.WalkedFieldsReadRecords | one_collect/src/etw/tdh.rs:358-498 | The fields of a walked schema read back any record written for them in order |
| TdhTrees.WalkGivesLeaves | one_collect/src/etw/tdh.rs:358-498 | Walking records that stand for a forest of property trees gives the in-order leaves of the forest under the dotted names of the structs above them, and fails if and only if structs nest more than eight levels deep |
| TdhTrees.WalkedIff | one_collect/src/etw/tdh.rs:358-498 | A schema is walked without an error if and only if its records stand for a forest of at most eight levels, so that every record a struct names is there |
| Processes.Process.Fork | one_collect/src/ruwind/process.rs:26-35 | A fresh process with the same modules, to be sorted anew |
| Processes.Process.Sort | one_collect/src/ruwind/process.rs:37-44 | Sorts by start address and marks the process sorted; a sorted one is left alone |
| Processes.Process.Find | one_collect/src/ruwind/process.rs:46-69 | The binary search gives the last module that starts at or before the address if it reaches that far |
| Processes.CoveringContains | one_collect/src/ruwind/process.rs:46-69 | A module that is found contains the address |
| Processes.CoveringIsComplete | one_collect/src/ruwind/process.rs:46-69 | Without overlaps a module that contains the address is found, and it is that one |
| Processes.RvaIsUndone | one_collect/src/ruwind/module.rs:65-72 | An address is as far from the start of its module as its file address from where the section is in the file, modulo 2^64 |
| UnwindSteps.StackValueReads | one_collect/src/ruwind/x64unwinder.rs:101-124 | In a window that does not wrap, a value is read if and only if its eight bytes end before the window does, and it is those bytes |
| UnwindSteps.ChainIsFirstHit | one_collect/src/ruwind/x64unwinder.rs:126-248 | The frame-pointer walk stops at the first of up to sixteen forward links that returns into a module |
| UnwindSteps.ScanIsFirstHit | one_collect/src/ruwind/x64unwinder.rs:126-248 | The stack scan stops at the first of 64 slot pairs that looks like a frame |
| UnwindSteps.StepMovesRsp | one_collect/src/ruwind/x64unwinder.rs:126-338 | Every step keeps RSP at or above the start of the captured stack: DWARF and scan steps raise it, a chain step puts it inside the window |
| UnwindTurns.PrologStepIs | one_collect/src/ruwind/x64unwinder.rs:126-248 | A step from the stack is decided by the first link that returns into a module, then by the first pair of slots, and both leave RSP, RBP and the address exactly as the words there say; with too short a stack or neither it leaves everything, and sets its error if there was a slot to look at |
| UnwindTurns.PrologStepByIff | one_collect/src/ruwind/x64unwinder.rs:126-248 | It goes by the chain, by the scan or by nothing if and only if there is such a link, no link but such a pair, or neither |
| UnwindTurns.TurnIs | one_collect/src/ruwind/x64unwinder.rs:384-450 | One turn of the loop: from the stack if and only if the module asks for it or no rules cover the address; by the rules if they give an address in a module, the end of the stack or none; and otherwise looked for again from the stack as it was before the turn |
| UnwindTurns.FramesAreAddresses | one_collect/src/ruwind/x64unwinder.rs:373-496 | The frames of a sample are the addresses the turns give, up to the first turn that fails, gives the end of the stack or an address outside all modules, or is the 128th; the last is dropped unless a turn failed or it is the sampled one. The error is that of the last turn made |
| UnwindTables.ApplyRowIsTableStep | one_collect/src/ruwind/x64unwinder.rs:278-333 | Applying a replayed row succeeds if and only if the CFA is above RSP and what the row says is saved can be read; then RSP is the CFA and RBP and the return address are read from where the row says |
| UnwindTables.ApplyRowObjects | one_collect/src/ruwind/x64unwinder.rs:278-333 | A row that cannot be used says why: register, missing return address, CFA that does not rise, or an unreadable word, in this order; one that can leaves the error |
| UnwindTables.RowsReach | one_collect/src/ruwind/x64unwinder.rs:37-92 | Of a loaded entry that ends within the address space, rules are found if and only if the address is before the declared end, or none is declared |
| UnwindTables.ModuleStepIsTableStep | one_collect/src/ruwind/x64unwinder.rs:250-338 | A DWARF step through a program that is followed and faithful to the two registers is the step by the section 6.4 row at the address |
| UnwindTables.DwarfStepIsTableStep | one_collect/src/ruwind/x64unwinder.rs:373-470 | So is every turn of a run that ends up with a caller found by frame rules |
| UnwindRuns.RspStaysAboveBase | one_collect/src/ruwind/x64unwinder.rs:373-496 | At the head of every turn of every run RSP is at or above where the captured stack starts |
| UnwindRuns.RunShape | one_collect/src/ruwind/x64unwinder.rs:373-496 | Every run extends the frames it was given, stays within the cap and pushes only addresses of modules before its last |
| UnwindRuns.FramesAreBounded | one_collect/src/ruwind/x64unwinder.rs:373-496 | Between 1 and 128 frames; the first is the sampled address, every other lies in a module |
| UnwindRuns.UnwoundFramesLieInModules | one_collect/src/ruwind/machine.rs:69-119 | The same in terms of the process: each frame after the first is inside one of its modules |
| UnwindRuns.Unwinder.GetFrameOffset | one_collect/src/ruwind/x64unwinder.rs:15-92 | The lazily filled and parsed cache gives the rows an uncached lookup of the file gives, for tables in any order |
| UnwindRuns.Unwinder.FindEntry | one_collect/src/ruwind/dwarf.rs:782-799 | The entry before the partition point the library finds, if it is at or below the address, for tables in any order |
| UnwindSteps.SortedEntryIsLast | one_collect/src/ruwind/dwarf.rs:782-799 | In a table sorted by address, with the partition point the library promises, the entry is the last one at or below the address, and there is none only if all are above |
| UnwindRuns.Unwinder.UnwindProlog | one_collect/src/ruwind/x64unwinder.rs:126-248 | Chain, then scan: registers and outcome are those of the specification |
| UnwindRuns.Unwinder.UnwindModule | one_collect/src/ruwind/x64unwinder.rs:250-338 | The module's kind of unwinding, with the fall back to the stack when no frame rules cover the address |
| UnwindRuns.Unwinder.ApplyCfa | one_collect/src/ruwind/x64unwinder.rs:278-333 | A replayed row moves RSP to the CFA and reads the saved registers and the return address below it |
| UnwindRuns.Unwinder.UnwindFrame | one_collect/src/ruwind/x64unwinder.rs:390-470 | The body of the loop up to the push, recovery included |
| UnwindRuns.Unwinder.Unwind | one_collect/src/ruwind/x64unwinder.rs:373-496 | The vector handed back is the caller's with the run's frames in place of the last, and the count in the result is exactly theirs |
| UnwindRuns.Machine.ForkProcess | one_collect/src/ruwind/machine.rs:27-45 | The child is a fresh process with a copy of the parent's modules, and the machine stays valid, so that both can be unwound |
| UnwindRuns.Machine.UnwindProcess | one_collect/src/ruwind/machine.rs:69-119 | The caller's old frames are untouched, the vector grows by exactly `frames_pushed`, which is between 1 and 128, the first new frame is the sampled address, and the rest are those of the run; the machine stays valid for the next sample |
| CallGraphs.PathIsInjective | one_collect/src/helpers/exporting/graph.rs:179-200 | Different nodes have different paths of targets |
| CallGraphs.ExtendPath | one_collect/src/helpers/exporting/graph.rs:179-200 | A merge reaches the node whose path is one target longer and changes no other node's path or id |
| CallGraphs.ExtendAllPresent | one_collect/src/helpers/exporting/graph.rs:336-396 | Merging a path that is there already ends at its node and adds nothing, which is what makes the cache sound |
| CallGraphTotals.RecountIsTree | one_collect/src/helpers/exporting/graph.rs:139-200 | Ids are positions, a parent comes before its children and lists them, siblings have different targets, only the root is its own parent |
| CallGraphTotals.TotalIsOwnPlusChildren | one_collect/src/helpers/exporting/graph.rs:162-200 | Every node's total is its exclusive value plus its children's totals; the root's also holds the excess |
| CallGraphTotals.RootTotalIsAllValues | one_collect/src/helpers/exporting/graph.rs:305-401 | The root's total is the sum of all sample values plus the excess |
| CallGraphTotals.RemergedIffNoExcess | one_collect/src/helpers/exporting/graph.rs:305-401 | The cached graph is the re-merged one if and only if the excess is zero |
| CallGraphTotals.CacheIsExact | one_collect/src/helpers/exporting/graph.rs:305-401 | When the frames of repeated callstacks import as they did first, the cache gives the graph of re-merging every frame of every sample if and only if every repeated callstack that adds something has a frame; without the latter it never gives it |
| CallGraphTotals.LateMappingIsMissed | one_collect/src/helpers/exporting/graph.rs:336-380 | Two samples of one callstack, before and after its mapping appears: the cached graph is not the re-merged one |
| CallGraphTotals.SameGraphSameCounts | one_collect/src/helpers/exporting/graph.rs:305-401 | Equal graphs have equal values at the end of every path |
| CallGraphTotals.EmptyCallstackCountsTwice | one_collect/src/helpers/exporting/graph.rs:162-177 | Two samples of one empty callstack: the second value is in the root's total twice |
| CallGraphSamples.CachingIsRemergingIff | one_collect/src/helpers/exporting/graph.rs:336-380 | The cached contributions are those of importing every frame anew if and only if the frames of every repeated callstack import at the sample's time as when the callstack was first seen |
| CallGraphSamples.PathGoesInwards | one_collect/src/helpers/exporting/graph.rs:348-380 | The path of a callstack goes from its outermost frame, which is stored last, to its innermost |
| CallGraphSamples.ContributionIs | one_collect/src/helpers/exporting/graph.rs:305-401 | Every sample contributes its value at the path of its callstack, imported at the time of the first sample that has it, followed by its own address at its own time |
| CallGraphSamples.KeptAre | one_collect/src/helpers/exporting/graph.rs:325-328 | The samples taken are exactly those of the kind, in their order |
| CallGraphSamples.UnmappedInBetween | one_collect/src/helpers/exporting/graph.rs:214-229 | Frames import alike at two times between which no mapping that contains one of them appears, however many appear elsewhere |
| CallGraphSamples.NoExcessIff | one_collect/src/helpers/exporting/graph.rs:336-380 | The excess is zero if and only if every repeated callstack has a frame or adds nothing |
| CallGraphSamples.ChargedIsCounted | one_collect/src/helpers/exporting/graph.rs:162-177 | Charging the nodes above a cached node gives the counts of a sample whose frames end there |
| CallGraphSamples.MergedIsCounted | one_collect/src/helpers/exporting/graph.rs:179-200 | Merging one more frame gives the counts for the longer path |
| CallGraphSamples.LandedIsCounted | one_collect/src/helpers/exporting/graph.rs:387-396 | Adding the value to the top frame's node completes the counts of the sample |
| ExportGraphs.ExportGraph.Reset | one_collect/src/helpers/exporting/graph.rs:139-151 | Only the root is left |
| ExportGraphs.ExportGraph.Charge | one_collect/src/helpers/exporting/graph.rs:162-177 | Exactly the totals of the parent and of every node above it grow by the value; above the root is the root |
| ExportGraphs.ExportGraph.Merge | one_collect/src/helpers/exporting/graph.rs:179-200 | The child for the target is found or added, and only the parent's total grows |
| ExportGraphs.ExportGraph.AddSamples | one_collect/src/helpers/exporting/graph.rs:305-401 | The nodes, ids and totals are those counted from scratch over all contributions, each callstack with the path it was first imported with, plus the excess at the root |
| Intern.SameIdIffSameSlice | one_collect/src/intern.rs:115-158 | Over any history and for any hash, two ids are equal if and only if the slices are |
| Intern.IdsAreDense | one_collect/src/intern.rs:115-158 | Every id below the number of distinct slices was handed out, first for the slice it names, in first-seen order |
| Intern.FromIdUndoesToId | one_collect/src/intern.rs:167-176 | An id finds its slice again however many calls come after |
| Intern.DistinctIsStable | one_collect/src/intern.rs:115-158 | Later calls never move what is interned |
| Intern.MaskIsRemainder | one_collect/src/intern.rs:87-92 | Masking with a power of two less one is the remainder of the division by it |
| Intern.NextPowerOfTwo | one_collect/src/intern.rs:57-63 | The bucket count is the least power of two that is no smaller |
| Intern.InternedSlices.constructor | one_collect/src/intern.rs:55-75 | An empty store with a power of two of buckets |
| Intern.InternedSlices.FindId | one_collect/src/intern.rs:84-106 | Finds a slice if and only if it was interned, with its id |
| Intern.InternedSlices.ToId | one_collect/src/intern.rs:115-158 | Returns the id the history determines and extends the history |
| Intern.InternedSlices.FromId | one_collect/src/intern.rs:167-176 | The slice of an id, none for an id never handed out |
| Intern.InternedSlices.ForEach | one_collect/src/intern.rs:182-188 | Every interned slice once, with its id, in id order |
| AttributeWalks.ExportAttributeWalker.PopId | one_collect/src/helpers/exporting/attributes.rs:25-27 | The id pushed last |
| AttributeWalks.ExportAttributeWalker.PushId | one_collect/src/helpers/exporting/attributes.rs:43-49 | Pushes an id unless it was pushed since the start |
| AttributeWalks.ExportAttributeWalker.PushAttributes | one_collect/src/helpers/exporting/attributes.rs:29-41 | Appends the pairs the filter lets through, in order |
| AttributeWalks.WalkAttributes | one_collect/src/helpers/exporting/mod.rs:1599-1618 | Terminates on any association graph; collects the filtered pairs of every reachable id, each id once; goes out of bounds if and only if the id just past the table is reachable |
| AttributeWalks.PastTheTable | one_collect/src/helpers/exporting/mod.rs:1599-1618 | A table whose entry 0 is associated with the id just past it |
| AttributeWalks.CollectedIff | one_collect/src/helpers/exporting/mod.rs:1599-1618 | A pair is collected if and only if it passes the filter and some visited entry has it |
| AttributeWalks.ClosedIsAll | one_collect/src/helpers/exporting/mod.rs:1599-1618 | A set closed under association that has the start has every reachable id |
| AttributeWalks.CgroupId | one_collect/src/helpers/exporting/mod.rs:957-997 | Gives the number some reachable entry has under the name if any has one, and zero otherwise; zero as well without attributes or without the name |
| AttributeWalks.NumberIsFirst | one_collect/src/helpers/exporting/mod.rs:983-989 | The number of an entry is that of its first pair with the name and a number |
| ReplayStreams.StreamShowsAll | one_collect/src/helpers/exporting/process.rs:404-538 | A process' replay shows every sample and mapping with a time below the maximum exactly once, in sorted order |
| ReplayStreams.FromIsOrdered | one_collect/src/helpers/exporting/process.rs:482-538 | Shown times never go back and each thing shown happens at the time it is shown with |
| ReplayStreams.StreamShowsStates | one_collect/src/helpers/exporting/process.rs:432-450 | The exact number of times creation and exit are shown: none without a time or at the maximum time, else the number of samples or of mappings at that time, whichever is greater, and at least once |
| ReplayStreams.StreamShowsTimes | one_collect/src/helpers/exporting/process.rs:404-538 | A stream shows a time as often as it takes to get past the samples and the mappings of that time, one of each in a step, and once if there is only a creation or exit |
| ReplayStreams.ShownOnceIff | one_collect/src/helpers/exporting/process.rs:432-450 | A creation, or an exit, is shown exactly once if and only if at most one sample and at most one mapping have its time |
| ReplayStreams.CreationShownTwice | one_collect/src/helpers/exporting/process.rs:432-450 | Two samples at the time of the creation |
| ReplayStreams.AdvanceDecreases | one_collect/src/helpers/exporting/process.rs:482-538 | Every advance leaves less to show, so a replay ends |
| ReplayStreams.SkippedAtStart | one_collect/src/helpers/exporting/process.rs:413-425 | The advance made at the start can only step over an event without a time |
| Replays.ExportProcessReplay.Advance | one_collect/src/helpers/exporting/process.rs:482-538 | Steps over the sample and the mapping shown and on to the earliest event left, creation and exit included |
| Replays.ExportProcessReplay.ShowEvents | one_collect/src/helpers/exporting/process.rs:432-470 | What the accessors show at the current time |
| Replays.ExportMachine.SortSelected | one_collect/src/helpers/exporting/mod.rs:1503-1514 | Exactly the selected processes are sorted by time |
| Replays.ExportMachine.ToReplays | one_collect/src/helpers/exporting/mod.rs:1516-1524 | One replay per selected process, each at its start |
| Replays.SelectedAre | one_collect/src/helpers/exporting/mod.rs:1516-1524 | The processes replayed are exactly those selected, in their order |
| Replays.ExportMachine.ReplayByTime | one_collect/src/helpers/exporting/mod.rs:1499-1562 | Terminates; the log is in time order. When every call succeeds, each process' part of it is its whole stream, which has every timed sample and mapping once and creation and exit as often as counted above; when one fails it is a prefix, after which no call is made |
| Replays.EmitAt | one_collect/src/helpers/exporting/mod.rs:1547-1558 | A round shows and advances every replay that stands at the earliest time, and leaves less to show |
| Replays.MergeReplays | one_collect/src/helpers/exporting/mod.rs:1526-1561 | Rounds at the earliest time until all are done or a call fails |
| Replays.EmitNext | one_collect/src/helpers/exporting/mod.rs:1547-1558 | Showing the next of one replay keeps the log and what is left together the whole streams, in order |
| PerfSessions.PerfSession.ParseSample | one_collect/src/perf_event/mod.rs:952-1125 | Succeeds exactly when all sections decode; the fields and the tracepoint id are then those of decoding the sections in order |
| PerfSessions.PerfSession.FillSection | one_collect/src/perf_event/mod.rs:957-1113 | A section that is present moves the offset and points its field as the specification of that section says |
| PerfSessions.PerfSession.ClearSection | one_collect/src/perf_event/mod.rs:957-1125 | A section that is absent clears its field; the id is only ever updated |
| PerfLayouts.SectionSteps | one_collect/src/perf_event/mod.rs:952-1125 | In a record in the layout of the ABI, a section is stepped over with its field on its own bytes exactly when it is supported |
| PerfRecords.AlignIsPadding | one_collect/src/perf_event/abi.rs:8-10 | Aligning adds fewer than eight bytes, up to a multiple of eight |
| PerfRecords.FormatSizeIs | one_collect/src/perf_event/mod.rs:132-158 | Counters take eight bytes for every part of the read format |
| PerfLayouts.NarrowRegsMiss | one_collect/src/perf_event/mod.rs:1061-1074 | With the 32-bit register ABI four bytes per register are assumed where the kernel writes eight |
| PerfSamples.SupportedIsExact | one_collect/src/perf_event/abi.rs:12-45 | All sections supported: every reference is where the layout puts its bytes |
| PerfSamples.UnsupportedIsBroken | one_collect/src/perf_event/mod.rs:952-1125 | The first unsupported section leaves its own field wrong for good |
| PerfSamples.FieldsAreOwnIff | one_collect/src/perf_event/abi.rs:12-45 | For every sample type and contents, all references stand on their own bytes if and only if counters that were read have the assumed size, user registers are not 32-bit or there are none, and no unparsed section stands before a control group |
| PerfSamples.NarrowRecordIsMisread | one_collect/src/perf_event/mod.rs:1061-1074 | A whole record with three 32-bit registers whose field is not where the layout has them |
| PerfSamples.OwnFieldsGiveOwnBytes | one_collect/src/event/mod.rs:89-101 | Such references give each consumer exactly the bytes its section was written with |
| PerfSamples.SampleGivesItsBytes | one_collect/src/perf_event/mod.rs:952-1125 | End to end: decoding a record of supported sections and asking a field for its data gives what was written |
| PerfSamples.AbsentFieldsAreEmpty | one_collect/src/perf_event/mod.rs:952-1125 | The field of an absent section is empty |
| PerfSamples.EventIsInRaw | one_collect/src/perf_event/mod.rs:1038-1049 | The tracepoint id is the first two bytes of the raw data, and there is none without raw data |
| PerfTrailers.NonSampledIdOffsets | one_collect/src/perf_event/abi.rs:229-272 | Each part that is present is at the sum of the sizes of the parts before it; none without the flag |
| PerfTrailers.ParseTrailer | one_collect/src/perf_event/mod.rs:892-948 | The offsets added up again from the end of the record are those of the trailer's parts; the identifier takes the id's field; other fields stay |
| PerfTrailers.TrailerGivesItsBytes | one_collect/src/perf_event/mod.rs:892-948 | Of a record that ends with the trailer the kernel writes, every field gives its own part, or nothing if that is absent |
| PerfHeaders.Write | one_collect/src/perf_event/abi.rs:318-338 | Appends header and data brought to the length the 16-bit size field says: padded, or cut when the aligned length does not fit |
| PerfHeaders.FromSlice | one_collect/src/perf_event/abi.rs:283-316 | Type, flags, size and the data behind the header; out of bounds below eight bytes |
| PerfHeaders.ReadUndoesWriteIff | one_collect/src/perf_event/abi.rs:283-338 | Reading what was written gives the parts, the length and the data followed by fewer than eight zeros up to a multiple of eight, if and only if header and data are at most 65528 bytes |
| PerfHeaders.LongRecordIsCut | one_collect/src/perf_event/abi.rs:318-338 | Of data of 65529 bytes nothing is written |
| PerfHeaders.RecordIsAligned | one_collect/src/perf_event/abi.rs:7-9 | A record is a multiple of eight bytes long, as its size field says |
| Symbols.VaRangeIsMappedFileRange | one_collect/src/helpers/exporting/mappings.rs:160-200 | An address is in the converted range if and only if it is mapped and its file offset is in the file's range, so the converted range lies inside the mapping |
| Symbols.HitIffSampled | one_collect/src/helpers/exporting/mappings.rs:202-257 | A symbol of a mapped file is added if and only if an address was sampled where its file range is mapped |
| Symbols.RangeIsCovered | one_collect/src/helpers/exporting/mappings.rs:160-200 | The range of a symbol in a mapping of any kind: as the reader gives it for kernel and anonymous ones, where its part of the file is mapped for others |
| Symbols.MatchingAre | one_collect/src/helpers/exporting/mappings.rs:202-257 | What is added is, in reader order, exactly the symbols one of whose addresses was sampled, each with its addresses and its name, demangled if it can be |
| Symbols.ExportMapping.AddMatchingSymbols | one_collect/src/helpers/exporting/mappings.rs:202-257 | Appends exactly the symbols that are hit, in reader order |
| Symbols.ExportMapping.IsHit | one_collect/src/helpers/exporting/mappings.rs:218-233 | Binary search for the range's start decides whether any sampled address is in the range |
| Symbols.SortingKeepsHits | one_collect/src/helpers/exporting/mappings.rs:207-208 | The order the addresses come in does not matter |
| Clocks.QpcToNs | one_collect/src/helpers/exporting/mod.rs:1459-1474 | What the loop computes in 64 bits; zero without a frequency |
| Clocks.ConversionIsExactIff | one_collect/src/helpers/exporting/mod.rs:1459-1474 | The result is the rounded-down nanosecond count, as far as 64 bits hold it, if and only if the ticks left over do not overflow when scaled |
| Clocks.FastCounterIsInexact | one_collect/src/helpers/exporting/mod.rs:1459-1474 | A frequency and a tick count that are converted to the wrong number |
| Clocks.LowFrequencyIsExact | one_collect/src/helpers/exporting/mod.rs:1459-1474 | For frequencies with (freq - 1) * 10^9 below 2^64 every conversion is exact |

## Left out

- Files, procfs, ring buffers, ioctls, sessions, hooks, scripting, logging and export formats: they are I/O or
  plumbing. Files are byte sequences, a module's file is its frame table and section bytes.
- ELF sections, the search table's own parsing and demanglers: the frame table is given as entries in any order,
  and the library's partition point is a function of the addresses; on sorted ones it is the one the library
  promises (`SortedEntryIsLast`).
- DWARF expressions and `val_expression` operands are skipped as the code skips them; an expression block whose
  length has its top bit set is reported as a fault.
- The mask of replayed registers is a set of bit positions.
- DecodeUndoesEncode: addresses of `set_loc` are absolute; relative ones are the subject of `RelativeSetLocIff`.
- UnwindProcess: entries of the frame cache are modelled as values, and the ways files are opened as a map.
- FindIndex: mapping indices are not truncated to 32 bits, and the order among indices of one snapshot, which
  the source takes from a hash set, is any order.
- GetDataWithOffsetDirect: the offsets and sizes of fields are unbounded numbers, so that sums of declared sizes do
  not wrap around.
- The resolver's closures are values (`Accessor`) that are applied to data; field descriptions other than
  name, type, location, offset and size are left out. Type names are lists of words.
- `push_u64`, `Guid`, the argument tokenizer and the module metadata parser would add only easy members.
- ETW types are an enumeration; the numeric codes belong to an external crate that is not part of this model.
- AddSamples: importing an address is a function of time and address; interning its strings and resolvables
  (`import_ip`, `import_resolvable`) and values that exceed 64 bits in sum are not modelled. The helpers of `AddSamples`
  are parts of the one loop body of the source.
- InternedSlices: the hash is any function; bucket counts beyond 2^63 are not treated.
- ReplayByTime: processes are selected by their id, and the outcome of a callback is a function of the calls
  made so far; the order of equal times among processes is that of the process list.
- ParseSample: what a failed decode leaves in the fields is not stated. Sample kinds are bit numbers and field
  references are kept by the bit of their section.
- `PERF_SAMPLE_READ` contents are any bytes; which sizes the kernel writes is not part of this model. Sections
  after the control group and the dispatch to events are left out.
- Write: the buffer and the record together stay below the address space.
- AddMatchingSymbols: symbol names are kept as text rather than interned.
