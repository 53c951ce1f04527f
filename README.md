# MSP430 memory-trace classes, modelled in Dafny

This project models the memory-trace machinery of an MSP430 (Sancus) LLVM
fork. The fork labels each instruction with a class that describes the
memory accesses it makes in every clock cycle. Four parts are modelled:

- **The TableGen emitter** (`MSP430InstrMemTraceInfo.cpp`). It enumerates
  test fixtures for each instruction from the instruction's `As`/`Ad`
  addressing-mode bits. It then emits them as numbered rows of a generated
  `.inc` table (`mem_trace_info.dfy`).
- **The trace post-processing script** (`generate_memtrace_classes.py`).
  It picks the table rows to simulate for a memory-region pair
  (`inc_selection.dfy`). It then:
  - tokenises the simulator's trace lines (`split.dfy`);
  - merges glitch lines and collects the lines of the instructions under
    analysis (`trace_lines.dfy`);
  - extracts the per-cycle enable signals (`signals.dfy`);
  - turns those signals into a class string, `classify_instruction`
    (`classification.dfy`).
- **The compiler's decoder** `getInstrMemTraceClass`. It maps the class
  string that a generated table lists for an opcode to a small integer code
  (`trace_class.dfy`).
- **The branch hooks of `MSP430InstrInfo`.** These are
  `reverseBranchCondition`, `removeBranch`, `insertBranch` and
  `analyzeBranch`. `removeBranch`, `insertBranch` and `analyzeBranch`
  update a machine basic block in place. They are modelled as methods of a
  `Block` class whose `instrs` field they reassign. Each is proved against a
  specification function, and the lemmas relate those functions. The
  module also models the size and latency queries (`instr_info.dfy`).

A class string reads `"<n> | <peripheral> | <data> | <program>"`. It gives a
cycle count, then one marker per trace sample for peripheral, data and
program memory accesses. `TraceClassification.ParseClass` is its parser. It
is the common partner of the script that builds class strings and of the
decoder that reads them.

The Python loops are methods (`Split`, `RemoveGlitches`,
`FindInstructionLines`, `ExtractSignals`, `UpdateFlag`, `SelectTable`,
`SelectRange`). The C++ loops are methods too (`GetValueFromBits`,
`SourceOperands`, `ExtractOpcode`, `ComputeMemoryTrace`, `EmitRows`). Each
one is proved equal to a specification function on values, and the
properties are lemmas about those functions. A Python exception (an index
past the end of `split(line)`, an `int()` of a non-number) is `None` in an
`Option` result.

## Model

| member | source | states |
|---|---|---|
| MSP430InstrInfo.ReverseCondCode | llvm/lib/Target/MSP430/MSP430InstrInfo.cpp:143-163 | each of E, NE, HS, LO, GE, L maps to a different code of the same six |
| MSP430InstrInfo.ReverseCondCodeInvolution | llvm/lib/Target/MSP430/MSP430InstrInfo.cpp:143-163 | reversing a condition twice gives the original condition back |
| MSP430InstrInfo.ReverseBranchCondition | llvm/lib/Target/MSP430/MSP430InstrInfo.cpp:137-167 | reports success (false) and leaves a one-operand condition, different from the old one, whose reverse is the old one |
| MSP430InstrInfo.Block.RemoveBranch | llvm/lib/Target/MSP430/MSP430InstrInfo.cpp:112-135 | the block becomes StripBranches of the old block, and the count returned is the number of instructions erased |
| MSP430InstrInfo.StripBranchesShape | llvm/lib/Target/MSP430/MSP430InstrInfo.cpp:116-132 | removal keeps the block up to its last instruction that is neither debug nor a branch (JMP, JCC, Br, Bm), then only the debug instructions that followed it; everything after that point is debug or a branch |
| MSP430InstrInfo.StripBranchesIdempotent | llvm/lib/Target/MSP430/MSP430InstrInfo.cpp:112-135 | removing the branches a second time changes nothing |
| MSP430InstrInfo.Block.InsertBranch | llvm/lib/Target/MSP430/MSP430InstrInfo.cpp:259-289 | appends JMP tbb, or JCC tbb cc, or JCC tbb cc followed by JMP fbb, and returns how many instructions it added |
| MSP430InstrInfo.RemoveAfterInsert | llvm/lib/Target/MSP430/MSP430InstrInfo.cpp:259-289 | removeBranch undoes insertBranch: stripping a block with inserted branches gives the stripped original block |
| MSP430InstrInfo.Block.AnalyzeBranch | llvm/lib/Target/MSP430/MSP430InstrInfo.cpp:169-257 | the verdict, TBB/FBB/Cond and the edited block are those of the bottom-up walk AnalyzeFrom over the old block |
| MSP430InstrInfo.AnalyzeWithoutModifyKeepsBlock | llvm/lib/Target/MSP430/MSP430InstrInfo.cpp:198-202 | without AllowModify the analysis never edits the block |
| MSP430InstrInfo.AnalyzeSkipsDebug | llvm/lib/Target/MSP430/MSP430InstrInfo.cpp:177-180 | debug instructions are passed over: the analysis from above them equals the analysis from below them |
| MSP430InstrInfo.AnalyzeStopsBeforeTerminators | llvm/lib/Target/MSP430/MSP430InstrInfo.cpp:182-185 | a block whose remaining part ends in a non-terminator is analysable and keeps the information found so far |
| MSP430InstrInfo.AnalyzeAfterInsert | llvm/lib/Target/MSP430/MSP430InstrInfo.cpp:169-257 | analyzeBranch is the inverse of insertBranch: after inserting (tbb, fbb, cond) behind a non-terminator, the analysis without AllowModify returns exactly (tbb, fbb, cond) and the block is untouched |
| MSP430InstrInfo.AnalyzeModifyAfterInsert | llvm/lib/Target/MSP430/MSP430InstrInfo.cpp:204-236 | with AllowModify, a JMP or final JMP to the layout successor is deleted and dropped from the result; otherwise the inserted branch is reported as inserted |
| MSP430InstrInfo.AnalyzeRejectsLastTerminator | llvm/lib/Target/MSP430/MSP430InstrInfo.cpp:187-228 | a last non-debug terminator that is not a branch, is an indirect branch (Br, Bm) or is a JCC with COND_INVALID makes the block unanalysable |
| MSP430InstrInfo.AnalyzeTwoConditionals | llvm/lib/Target/MSP430/MSP430InstrInfo.cpp:238-253 | two conditional branches in a row are analysable only when they have the same target and the same condition |
| MSP430InstrInfo.InstSizeInBytes | llvm/lib/Target/MSP430/MSP430InstrInfo.cpp:294-321 | 0 bytes for CFI, EH_LABEL, IMPLICIT_DEF, KILL and DBG_VALUE; the inline-assembly length for INLINEASM(_BR); 12 for the five Sancus instructions; the descriptor size otherwise |
| MSP430InstrInfo.InstrLatency | llvm/lib/Target/MSP430/MSP430InstrInfo.cpp:326-343 | the table's base latency, plus the PC correction modulo 2^32 exactly when the instruction defines PC; always below 2^32 |
| MSP430TraceClass.RegionClass | llvm/lib/Target/MSP430/MSP430InstrInfo.cpp:346-370 | the region-key dispatch: the class column of the table that the key names, "no class" for any other key; its contract is carried by InstrMemTraceClass (an unknown key gives 0) |
| MSP430TraceClass.ClassCode | llvm/lib/Target/MSP430/MSP430InstrInfo.cpp:372-456 | the if/else chain as a first-match walk over the 41 arms in source order; its contract is carried by ClassCodeNonzero, ArmDecodes, ClassCodeInjective and ShortStringsDecodeToZero |
| MSP430TraceClass.InstrMemTraceClass | llvm/lib/Target/MSP430/MSP430InstrInfo.cpp:344-458 | an unknown region key gives 0; the code is nonzero exactly when the table entry for the opcode is one of the 41 listed class strings, and then it is that arm's code and the class is well formed |
| MSP430TraceClass.ChainFromSpec | llvm/lib/Target/MSP430/MSP430InstrInfo.cpp:372-456 | the if/else chain returns nonzero exactly when some arm's string equals the class, and then that arm's code |
| MSP430TraceClass.ListedCodesAscend | llvm/lib/Target/MSP430/MSP430InstrInfo.cpp:372-456 | the 41 codes are positive and strictly increasing in chain order, so no two arms share a code |
| MSP430TraceClass.ArmWellFormed | llvm/lib/Target/MSP430/MSP430InstrInfo.cpp:372-456 | every listed class has count n and three groups of n bits |
| MSP430TraceClass.ArmLeadingDigit | llvm/lib/Target/MSP430/MSP430InstrInfo.cpp:372-456 | the leading decimal digit of every code is the cycle count of its class |
| MSP430TraceClass.ClassCodeNonzero | llvm/lib/Target/MSP430/MSP430InstrInfo.cpp:372-456 | a string decodes to a nonzero code exactly when it is a listed class |
| MSP430TraceClass.ArmDecodes | llvm/lib/Target/MSP430/MSP430InstrInfo.cpp:372-456 | every listed class decodes to its own arm's code (no earlier arm shadows it) |
| MSP430TraceClass.ClassCodeOfListed | llvm/lib/Target/MSP430/MSP430InstrInfo.cpp:372-456 | a listed class decodes to its arm's code and is well formed |
| MSP430TraceClass.ClassCodeInjective | llvm/lib/Target/MSP430/MSP430InstrInfo.cpp:372-456 | two strings with the same nonzero code are the same string |
| MSP430TraceClass.ShortStringsDecodeToZero | llvm/lib/Target/MSP430/MSP430InstrInfo.cpp:372-456 | strings shorter than 13 characters, the length of the shortest listed class "1 \| 0 \| 0 \| 1", decode to 0; "no class" is one of them |
| MSP430TraceClass.ArmTextLength | llvm/lib/Target/MSP430/MSP430InstrInfo.cpp:372-456 | every listed class string has at least 13 characters |
| MSP430TraceClass.OneCycleExample | llvm/lib/Target/MSP430/MSP430InstrInfo.cpp:372-373 | "1 \| 0 \| 0 \| 1" decodes to 10 |
| MSP430TraceClass.FourCycleDataExample | llvm/lib/Target/MSP430/MSP430InstrInfo.cpp:392-393 | "4 \| 0000 \| 0001 \| 1001" decodes to 41 |
| MSP430TraceClass.FourCyclePeripheralExample | llvm/lib/Target/MSP430/MSP430InstrInfo.cpp:418-419 | "4 \| 0001 \| 0000 \| 1001" decodes to 4440 |
| MemTraceInfo.GetValueFromBits | llvm/utils/TableGen/MSP430InstrMemTraceInfo.cpp:60-69 | the loop computes the unsigned value of the bits, least significant first, and it fits in 64 bits |
| MemTraceInfo.BitsValueBound | llvm/utils/TableGen/MSP430InstrMemTraceInfo.cpp:60-69 | n bits have a value below 2^n |
| MemTraceInfo.BitsOfValue | llvm/utils/TableGen/MSP430InstrMemTraceInfo.cpp:60-69 | the n bits can be read back from their value |
| MemTraceInfo.BitsValueInjective | llvm/utils/TableGen/MSP430InstrMemTraceInfo.cpp:60-69 | two bit fields of the same width with the same value are equal |
| MemTraceInfo.SourceOperands | llvm/utils/TableGen/MSP430InstrMemTraceInfo.cpp:71-100 | mode 'r' gives the 16 register sources r0..r15; mode 'm' gives 12 indexed sources 1(r4)..1(r15), each register loaded with 3999 first, then symbolic and absolute 4000; any other mode gives none |
| MemTraceInfo.OpcodeOfPrefix | llvm/utils/TableGen/MSP430InstrMemTraceInfo.cpp:107-114 | the opcode is the longest tab-free prefix of the assembly string |
| MemTraceInfo.ExtractOpcode | llvm/utils/TableGen/MSP430InstrMemTraceInfo.cpp:107-114 | the loop returns that prefix |
| MemTraceInfo.ComputeMemoryTrace | llvm/utils/TableGen/MSP430InstrMemTraceInfo.cpp:102-205 | the fixtures returned are MemoryTrace of the record, selected by As and Ad |
| MemTraceInfo.MemoryTraceCounts | llvm/utils/TableGen/MSP430InstrMemTraceInfo.cpp:118-202 | non-IForm gives ["nothing yet"]; As=0/Ad=0 gives 256 fixtures, As=0/Ad=1 gives 216, As=1/Ad=0 gives 224, As=2/Ad=0 gives ["Indirect"], As=3 gives [""], and every other combination gives none |
| MemTraceInfo.PairWithDestRegs | llvm/utils/TableGen/MSP430InstrMemTraceInfo.cpp:137-142 | the nested loop pairs every source with destinations r0..r15, source-major |
| MemTraceInfo.WithDestRegsRR | llvm/utils/TableGen/MSP430InstrMemTraceInfo.cpp:134-143 | pairing the register sources gives the INS#rr fixtures |
| MemTraceInfo.WithDestRegsRM | llvm/utils/TableGen/MSP430InstrMemTraceInfo.cpp:175-184 | pairing the 14 memory sources gives the INS#rm fixtures |
| MemTraceInfo.GenerateRR | llvm/utils/TableGen/MSP430InstrMemTraceInfo.cpp:134-143 | the loops produce the INS#rr fixtures: source register i with destination j at position 16i+j |
| MemTraceInfo.FixturesMRAt | llvm/utils/TableGen/MSP430InstrMemTraceInfo.cpp:145-168 | the INS#mr fixture at each position: indexed 1(rj) after "mov rj, #2999", then symbolic 3000 and absolute &3000 for r4..r15 |
| MemTraceInfo.GenerateMR | llvm/utils/TableGen/MSP430InstrMemTraceInfo.cpp:145-168 | the three loops produce the INS#mr fixtures in that order |
| MemTraceInfo.GenerateRM | llvm/utils/TableGen/MSP430InstrMemTraceInfo.cpp:175-184 | the loops produce the INS#rm fixtures |
| MemTraceInfo.EmitInstrRows | llvm/utils/TableGen/MSP430InstrMemTraceInfo.cpp:228-232 | one row per fixture, in order, each carrying the instruction's number and name |
| MemTraceInfo.EmitRows | llvm/utils/TableGen/MSP430InstrMemTraceInfo.cpp:222-234 | the emitted rows are AllRows of the instruction records |
| MemTraceInfo.AllRowsOrdered | llvm/utils/TableGen/MSP430InstrMemTraceInfo.cpp:222-234 | row numbers are below the number of instructions and never decrease down the table |
| MemTraceInfo.AllRowsOfInstr | llvm/utils/TableGen/MSP430InstrMemTraceInfo.cpp:222-234 | the rows numbered n are exactly instruction n's fixtures, in order |
| IncSelection.RowCarriesTag | llvm/utils/TableGen/MSP430InstrMemTraceInfo.cpp:229-231 | every emitted row contains the "/* n*/" tag that the script's range selection looks for |
| TraceClassification.ClassifyInstruction | llvm/utils/TableGen/MemoryTraceGeneration/mem_trace_classification.py:1-6 | the class string of classify_instruction; its contract is carried by ClassifyReadsBack, ClassifyGroupsAreSamples and ClassifyIgnoresInstruction |
| TraceClassification.ClassifyReadsBack | llvm/utils/TableGen/MemoryTraceGeneration/mem_trace_classification.py:1-6 | when no sample holds a space, parsing the class string gives half the number of clock samples and the peripheral, data and program samples joined in that order |
| TraceClassification.ClassifyGroupsAreSamples | llvm/utils/TableGen/MemoryTraceGeneration/mem_trace_classification.py:1-6 | with '0'/'1' samples, each group is a bit string with one character per sample, in sample order |
| TraceClassification.ClassifyIgnoresInstruction | llvm/utils/TableGen/MemoryTraceGeneration/mem_trace_classification.py:1-6 | the last instruction and the instruction samples do not affect the class |
| TraceClassification.ParseClassText | llvm/utils/TableGen/MemoryTraceGeneration/mem_trace_classification.py:6 | parsing is the inverse of the class-string format: it returns the count and the three groups |
| TraceClassification.ClassTextInjective | llvm/utils/TableGen/MemoryTraceGeneration/mem_trace_classification.py:6 | two class strings with space-free groups are equal only when their counts and groups are |
| SpaceSplit.Split | llvm/utils/TableGen/MemoryTraceGeneration/generate_memtrace_classes.py:28-42 | the loop returns Tokens: the words of the line, after an empty first word when the line starts with a space |
| SpaceSplit.TokensSnoc | llvm/utils/TableGen/MemoryTraceGeneration/generate_memtrace_classes.py:32-40 | a space adds nothing; a character after a space starts a new token; any other character extends the last token |
| SpaceSplit.TokensShape | llvm/utils/TableGen/MemoryTraceGeneration/generate_memtrace_classes.py:28-42 | there is at least one token; no token holds a space; the tokens joined are the line without spaces; the result is [""] exactly for an all-space line; only the first token can be empty |
| TraceLines.RemoveGlitches | llvm/utils/TableGen/MemoryTraceGeneration/generate_memtrace_classes.py:44-62 | the loop returns Deglitched of the lines, None where the script raises |
| TraceLines.DeglitchedRegular | llvm/utils/TableGen/MemoryTraceGeneration/generate_memtrace_classes.py:44-62 | lines whose times are all multiples of 25 come back unchanged behind an initial empty line |
| TraceLines.DeglitchedFirstGlitch | llvm/utils/TableGen/MemoryTraceGeneration/generate_memtrace_classes.py:49-52 | a glitch on the first line raises, because the empty previous line has no clock field |
| TraceLines.DeglitchedBadTime | llvm/utils/TableGen/MemoryTraceGeneration/generate_memtrace_classes.py:49 | a line whose first field is not an integer raises |
| TraceLines.DeglitchedStartsEmpty | llvm/utils/TableGen/MemoryTraceGeneration/generate_memtrace_classes.py:46-58 | when the first line is regular, the output starts with the empty line |
| TraceLines.DeglitchedAppendRegular | llvm/utils/TableGen/MemoryTraceGeneration/generate_memtrace_classes.py:55-58 | a regular line is appended, and replaces the last output line when the previous line was a glitch |
| TraceLines.DeglitchedAppendGlitch | llvm/utils/TableGen/MemoryTraceGeneration/generate_memtrace_classes.py:49-54 | a glitch replaces the last output line by the merged line and appends the merged line again |
| TraceLines.MergedLineTokens | llvm/utils/TableGen/MemoryTraceGeneration/generate_memtrace_classes.py:52 | the merged line splits into the time, clock and instruction of the previous line, then the six enable signals of the glitch line |
| TraceLines.CollectLine | llvm/utils/TableGen/MemoryTraceGeneration/generate_memtrace_classes.py:72-84 | one iteration of the collection loop is CollectStep |
| TraceLines.FindInstructionLines | llvm/utils/TableGen/MemoryTraceGeneration/generate_memtrace_classes.py:64-88 | fails exactly when a nonempty line has no instruction field; otherwise returns CollectedLines and CollectedLast of the nonempty lines |
| TraceLines.ScanLinesCollected | llvm/utils/TableGen/MemoryTraceGeneration/generate_memtrace_classes.py:64-88 | the loop skipping empty lines equals the run-based specification on the nonempty lines |
| TraceLines.CollectedLastRun | llvm/utils/TableGen/MemoryTraceGeneration/generate_memtrace_classes.py:76-84 | the collected lines are a contiguous block from the start line, and the last-instruction index starts a maximal run of equal instructions that reaches the end of the block |
| TraceLines.CollectedRuns | llvm/utils/TableGen/MemoryTraceGeneration/generate_memtrace_classes.py:76-84 | the instruction changes at most count-1 times inside the block; when the block stops before the end of the trace it changes exactly count-1 times, and the next line starts a new instruction |
| TraceSignals.ExtractSignals | llvm/utils/TableGen/MemoryTraceGeneration/generate_memtrace_classes.py:193-202 | the loop returns SignalsOf the lines from start_last_instr on, None where the script raises |
| TraceSignals.SignalsOfFails | llvm/utils/TableGen/MemoryTraceGeneration/generate_memtrace_classes.py:193-202 | extraction fails exactly when some line lacks the per_en field |
| TraceSignals.SignalsOfFields | llvm/utils/TableGen/MemoryTraceGeneration/generate_memtrace_classes.py:194-202 | one sample per line; the clock, instruction, data and peripheral samples are the line's fields |
| TraceSignals.SignalsOfProgram | llvm/utils/TableGen/MemoryTraceGeneration/generate_memtrace_classes.py:197-200 | the program sample is "1" exactly when eu_pmem_en or fe_pmem_en is "1", else "0" |
| TraceSignals.SamplesNoSpace | llvm/utils/TableGen/MemoryTraceGeneration/generate_memtrace_classes.py:193-202 | no sample holds a space, and every program sample is a single character |
| TraceSignals.ExtractedClass | llvm/utils/TableGen/MemoryTraceGeneration/generate_memtrace_classes.py:188-216 | the class built from the samples parses back to half the number of lines, the data and peripheral fields joined in line order, and one program bit per line |
| IncSelection.HeaderFlagKey | llvm/utils/TableGen/MemoryTraceGeneration/generate_memtrace_classes.py:239-316 | for one of the six script keys, a table header selects the table exactly when the key names that table |
| IncSelection.UpdateFlag | llvm/utils/TableGen/MemoryTraceGeneration/generate_memtrace_classes.py:239-316 | the six header tests set found_table as LineFlag does |
| IncSelection.FlagAfterLastHit | llvm/utils/TableGen/MemoryTraceGeneration/generate_memtrace_classes.py:239-316 | when a line names several tables, the last test wins |
| IncSelection.SelectTable | llvm/utils/TableGen/MemoryTraceGeneration/generate_memtrace_classes.py:236-319 | the loop returns the kept lines of TableScan |
| IncSelection.UnknownRegionKeepsNothing | llvm/utils/TableGen/MemoryTraceGeneration/generate_memtrace_classes.py:236-319 | a region that is none of the six keys selects no line |
| IncSelection.TableSection | llvm/utils/TableGen/MemoryTraceGeneration/generate_memtrace_classes.py:236-319 | after a header of table i and up to the next header, rows are kept exactly when the region is table i's key, and then they are the section's row lines in order |
| IncSelection.KeptAreRows | llvm/utils/TableGen/MemoryTraceGeneration/generate_memtrace_classes.py:317-319 | every kept line holds "{" and "}," but not "nothing yet", and comes from the input |
| IncSelection.EmittedRowKept | llvm/utils/TableGen/MemoryTraceGeneration/generate_memtrace_classes.py:318 | an emitted row passes the row filter exactly when it does not mention "nothing yet", so a non-IForm row never passes |
| IncSelection.RowTextNoHeader | llvm/utils/TableGen/MSP430InstrMemTraceInfo.cpp:228-231 | an emitted row holds a table header only when its fixture, the namespace or the instruction name holds one: the number tag and the separators cannot |
| IncSelection.EmittedRowsKeepNothing | llvm/utils/TableGen/MSP430InstrMemTraceInfo.cpp:212-240 | the emitter writes rows but no table header, so unless a fixture, the namespace or an instruction name spells a header, the script's table scan over the emitted rows keeps nothing, whatever the region |
| IncSelection.SelectRange | llvm/utils/TableGen/MemoryTraceGeneration/generate_memtrace_classes.py:329-338 | the loop returns the lines RangeScan selects |
| IncSelection.RangeNoStart | llvm/utils/TableGen/MemoryTraceGeneration/generate_memtrace_classes.py:332-336 | with no line carrying the start tag, nothing is selected |
| IncSelection.RangeSelected | llvm/utils/TableGen/MemoryTraceGeneration/generate_memtrace_classes.py:329-338 | with one start-tagged line and a later end-tagged line, exactly the lines from the first to the second, both included, are selected |

## Left out

- The `|=` of `getValueFromBitsInit` is modelled as `+`. The bit being set is always still 0, because the value stays below 2^i.
- `FlattenAsmStringVariants` is not part of this model. `ComputeMemoryTrace` takes the already flattened assembly string as input.
- The `.inc` header, the namespace lines and the closing braces that `run` writes around the rows are not modelled. Only the rows are.
- The `.inc` tables that `getInstrMemTraceClass` reads and the `LatencyTable` of `getInstrLatency` are generated at build time. They are uninterpreted inputs here.
- The region keys differ between the two sides. The decoder accepts "pd" and "ppe", while the script asks for "prd" and "prpe". Each side is modelled as written.
- The emitter writes a single `Generated_Instructions` table and no `Instruction_classes_<pair>` header. The script's table scan keeps only rows that follow such a header, so on the emitter's output as written it keeps nothing, unless a fixture, the namespace or an instruction name happens to spell a header. IncSelection.EmittedRowsKeepNothing states this. Each side is modelled as written.
- The script's class strings have one bit per trace line and a count of half the number of lines. The decoder's listed strings have n bits per group for a count of n. Both are modelled as written, and nothing connects the two.
- MSP430InstrInfo.InstSizeInBytes: the inline-assembly length (`getInlineAsmLength`) is a parameter.
- MSP430InstrInfo.InstrLatency: whether the instruction defines PC (`findRegisterDefOperandIdx`) is a parameter.
- `isUnpredicatedTerminator` is modelled as an `isTerminator` flag on each instruction. `isDebugInstr` is an `isDebug` flag. `isBranch` holds exactly for JMP, JCC, Br and Bm.
- The assertions of `removeBranch`, `insertBranch` and `analyzeBranch` become requires clauses or are provable invariants (`InfoOk`). The `BytesRemoved`/`BytesAdded` outputs are not modelled.
- MSP430InstrInfo.ReverseBranchCondition: the assertion that the condition has one operand, and the `llvm_unreachable` default that rejects COND_N, COND_NONE and COND_INVALID, become the requires `|cond| == 1 && Reversible(cond[0])`. The model says nothing about the aborting cases.
- MemTraceInfo.GetValueFromBits: the assertion that a `BitsInit` has at most 64 bits becomes a requires. So do the matching requires of MemTraceInfo.ComputeMemoryTrace on `As` and `Ad` and of MemTraceInfo.EmitRows on every record (`BitsFit`). The model says nothing about the aborting case.
- MSP430InstrInfo.InstSizeInBytes: it is modelled as a case table. Its ensures spell out that table by opcode group, and no property is proved beyond its definition, because the source promises nothing beyond its switch.
- IncSelection.TableSection: it covers a section whose body holds no further table header. A header line that names several tables is covered by FlagAfterLastHit instead.
- `storeRegToStackSlot`, `loadRegFromStackSlot`, `copyPhysReg` and `insertNoop` build machine instructions through LLVM's builder, which is not part of this model.
- Python's `int()` also accepts surrounding whitespace, a sign and `_` separators. `ParseInt` accepts an optional sign and decimal digits only.
- The lines read from the `.inc` file keep their trailing newline, and the model keeps it as an ordinary character.
- All file and process I/O of the script is not modelled: `input`, `open`, `os.system`, the generated C file, the makefile, the simulator run and the class files written at the end. So is `generate_instruction` as a whole, apart from the signal extraction and the classification it performs. The memory-region key and the start and end numbers become parameters.
- The helper scripts `generate_mem_trace.py` and `dummy_generation.py`, and the NemesisDefender and DMADefender passes, are not part of this model.
