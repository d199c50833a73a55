# A verified model of the eBPF profiler's user-space core

This project models, in Dafny, the parts of the profiler whose correctness is hardest to see from the
code, and proves what they promise for every input, run or reachable state. It needs nothing but
Dafny 4.11: `dafny verify dfyconfig.toml` checks all of it.

Code that computes is modelled by functions; code that works by updating things is modelled by
classes and methods with loops, each proved against a specification function, and the properties are
then lemmas about those functions.

## What is modelled

**Symbolic execution of x86-64 code** (`Words`, `Expressions`, `ExpressionLaws`, `Matching`,
`OperandSort`, `Completeness`, `X86`, `X86Soundness`, `SignExtension`, `LoadWidths`, `Tsd`, `TsdExact`, `TsdPrograms`,
`TsdComplete`). Terms over 64-bit words with their simplifying constructors, pattern matching with captures, the interpreter object that
steps through decoded instructions, and the extraction of a libc's thread-specific-data layout. Terms are
given a meaning in an environment, instructions a meaning on a concrete machine, and the two are proved
to stay in step; of the layout it is proved exactly when it is extracted and exactly when it is right.
Words are integers below 2^64 with the wrap-around written out.

**Longest-prefix tables** (`Lpm`, `LpmLaws`). The decomposition of an address range into aligned
blocks, by its two loops over a counted array.

**The process manager** (`ProcessModel`, `ProcessTable`, `ProcessInvariant`, `ProcessLedger`,
`ProcessDetach`, `ProcessRuns`, `ProcessLookups`, `MappingSearch`, `ProcessFind`, `ProcessSync`, `ProcessMark`,
`ProcessManager`). A state machine whose steps are the pieces between which the lock is free, so that ProcessedUntil may come
in between; invariants over every run; and the manager as an object whose methods are proved to carry out those steps. The eBPF
map is a finite map whose updates may fail and whose deletes remove what is present. Reference counts
are a bag of files. What the maps file delivers, whether a file is usable, whether an interpreter
attaches and which probes want a file are inputs. Synchronizations and exits run on one goroutine
(tracer/events.go:47-60), ProcessedUntil on another.

**Kernel symbols and the kernel frame cache** (`Kallsyms`, `Symbolizer`, `FrameCache`).
Copy-on-write tables named by generations, their lookups, and the cache keyed by address and
generation. A snapshot may pair any two revisions, since the two tables are loaded one after the
other; evictions may happen at any time.

**Thread-local variables** (`Tls`, `TlsLocate`). The fold over relocations that chooses an access
path, and what following that path finds in a process whose loader has applied the relocations, as
described in section 4 of Drepper's "ELF Handling For Thread-Local Storage" and for TLS descriptors.

**The trace watermark** (`Watermark`). The poll loop that decides up to when traces have been
handled. Monitor and handler are two processes on an unbuffered channel, whose steps interleave in any
order.

**.NET debug info and range structures** (`Nibbles`, `RangeWalk`). The nibble reader, the search of a
method's bounds while decoding them, and the walks over a target's possibly corrupt memory, with a log
of every read.

**Trace records** (`Frames`, `TraceRecord`). The regions of a record's variable data, their copies in
the frame buffer, and the frames in them.

## Where the code differs from what one would expect

Each of these is kept as the code has it. The lemma named gives the case, and the exact condition where
there is one to give.

- Matching ignores the width of memory accesses: `Matching.WidthIsIgnored`. An extracted layout is wrong
  on some machine whenever a load in the address is narrower than 8 bytes (`TsdExact.NarrowUnnamed`), as
  in the program of `TsdPrograms.NarrowLoadFails`.
- An absolute address in [2^31, 2^32) is taken for a negative 32-bit displacement:
  `X86Soundness.AbsoluteLoadMisread`. An instruction is followed rightly exactly when it does not load
  from one: `X86Soundness.FollowedIff`.
- MOVSX and MOVSXD extend from the operand size, which changes nothing, and from a register not at all:
  they are right exactly for sources that are not negative, `SignExtension.SignMoveIff`. A write to an
  8- or 16-bit register clears the bits above, which a processor keeps: `SignExtension.NarrowWriteIff`.
- Folding multiplier2 into the offset is wrong for keys whose sum with it wraps in 32 bits: the program
  of `TsdPrograms.WrappedKeyFails`. `TsdExact.ExtractionIff` says exactly when a layout is right for every
  machine and key.
- A prefix whose update failed is not retried while its mapping stays (`ProcessLookups.FailureStays`), as
  in the run of `ProcessLookups.RefusedThenRecorded`; lookups are right exactly when no recorded mapping
  has one: `ProcessLookups.RunLookups`.
- References taken before a maps read fails are not given back: `ProcessRuns.ReadThenFail`.
  `ProcessRuns.RunAccounts` counts them as leaked, and there are none exactly when no read fails after
  delivering a new mapping: `ProcessRuns.NothingLeaked`.
- The comment on the search in findMappingForTrace promises the entry equal to or below the address;
  the search skips an equal one, so the first address of a mapping is not found: `ProcessFind.LeadsBack`.
- The same search is by file address in a list sorted by memory address. A later mapping of the file can
  hide an earlier one (`MappingSearch.TwoBiases`, exactly when: `MappingSearch.MissedIff`), and where a
  file's mappings are out of order the answer depends on the mappings of other files
  (`MappingSearch.OutOfOrder`). Each part of a file being mapped once, all is found exactly when the two
  orders agree: `MappingSearch.FindsAllIff`.
- A BPF symbol hides behind an empty one at its address, and one that reaches the top of the address
  space is not found: `Kallsyms.LookupIsScan`.
- The comment in appendKernelFrames relies on BPF code not overlapping modules. Where it does, the
  cache can keep answering with the module: `FrameCache.CacheTransparent`, `FrameCache.AddedOverModule`.
- The addend of a named TPOFF64 or TLSDESC relocation is not taken back out: `TlsLocate.NamedAddend`.
  The place found is right exactly when the relocation chosen has none: `TlsLocate.ResolveThenLocate`.
- A capture time of 0 resets the running minimum: `Watermark.ZeroForgets`. A call is safe exactly when
  neither of its two batches has such a time: `Watermark.CallSafe`.
- A batch is meant to stop at 4096 events, but does so only when the 4096th is a trace and not a
  skipped record: `Watermark.StopsAtLimit`.
- A region that ends above 65528 makes the next one start over from 0: `TraceRecord.LabelsOverlap`, and
  exactly then regions do not ascend: `TraceRecord.AscendIff`.

## Model

| member | source | states |
|---|---|---|
| `Expressions.Add` | asm/expression/add.go:6-36 | The loops over operands and nested sums yield the simplified sum `Sum` |
| `Expressions.Multiply` | asm/expression/mul.go:6-43 | The folding and distributing loops yield the simplified product `Product`, and terminate by the total size of the operands |
| `ExpressionLaws.SumValue` | asm/expression/add.go:6-36 | Add denotes the sum of its operands modulo 2^64 in every environment |
| `ExpressionLaws.ProductValue` | asm/expression/mul.go:6-43 | Multiply denotes the product of its operands modulo 2^64 in every environment |
| `ExpressionLaws.DistributeValue` | asm/expression/mul.go:32-40 | Distributing a factor over a sum keeps its value |
| `ExpressionLaws.ZeroExtendValue` | asm/expression/extend.go:32-60 | ZeroExtend keeps exactly the low bits, whichever simplification applies |
| `ExpressionLaws.ClearValue` | asm/expression/clear.go:23-38 | Clear subtracts exactly the low bits, also when it merges with a Clear below |
| `ExpressionLaws.ExtendTwice` | asm/expression/extend.go:32-60 | Extending twice gives the same term as extending from the fewer bits, and extending from 64 gives the term itself |
| `ExpressionLaws.ClearTwice` | asm/expression/clear.go:23-38 | Clearing twice gives the same term as clearing the more bits, and clearing none the term itself |
| `ExpressionLaws.SumIsNormal` | asm/expression/add.go:6-36 | Of normal operands Add makes a normal form: no sum in a sum, at most one immediate, not zero and last |
| `ExpressionLaws.ProductIsNormal` | asm/expression/mul.go:6-43 | Of normal operands Multiply makes a normal form |
| `ExpressionLaws.ExtendAndClearAreNormal` | asm/expression/extend.go:32-60 | ZeroExtend and Clear keep normal forms |
| `OperandSort.SinkInto` | asm/expression/expression.go:49-63 | Swapping adjacent operands inserts one by rank and leaves the rest of the array alone |
| `OperandSort.SortByRank` | asm/expression/expression.go:39-40 | Sorting in place by rank gives the sorted sequence |
| `OperandSort.RankedSorts` | asm/expression/expression.go:65-84 | That sequence is a permutation in ascending rank |
| `OperandSort.MatchOperands` | asm/expression/expression.go:27-47 | Operand lists are compared through sorted copies, neither list is changed, and lists of different length do not match |
| `OperandSort.CompareInOrder` | asm/expression/expression.go:41-46 | The early exit of the comparison gives the result of comparing all |
| `Matching.MatchFrame` | asm/expression/imm.go:33-43 | A match writes only the pattern's own captures, and on success all of them |
| `Matching.MatchSound` | asm/expression/op.go:30-41 | A successful match with captures that occur once means equal values, whatever permutation the sort makes of ties, where widths do not matter or agree |
| `Matching.MatchMeansEqual` | asm/expression/expression.go:27-47 | The term equals the pattern with the captured constants substituted, in every environment that ignores access width |
| `Matching.MatchMeansEqualAtWidths` | asm/expression/mem.go:47-57 | The same in every environment at all when each matched pair of loads has the same width |
| `Matching.WidthIsIgnored` | asm/expression/mem.go:47-57 | Otherwise a match can succeed on terms of different value |
| `Completeness.MatchComplete` | asm/expression/expression.go:27-47 | A term that is the pattern with constants for its captures, operands of distinct kind in any order, matches, and captures those constants |
| `Completeness.RankedSame` | asm/expression/expression.go:39-84 | Operands of distinct kind are sorted into the same list from any order |
| `X86.Interpreter.constructor` | asm/amd/interpreter.go:28-33 | A new interpreter has named registers, counter 0 and its code |
| `X86.Interpreter.At` | asm/amd/interpreter.go:35-40 | Starting at an address puts it into RIP |
| `X86.Interpreter.EffectiveAddress` | asm/amd/interpreter.go:180-197 | The address term of a memory operand |
| `X86.Interpreter.Load` | asm/amd/interpreter.go:121-139 | The term of a loaded operand with segment and width |
| `X86.Interpreter.Arithmetic` | asm/amd/interpreter.go:82-103 | The register terms after ADD and SUB |
| `X86.Interpreter.Move` | asm/amd/interpreter.go:114-140 | The register terms after the MOV family |
| `X86.Interpreter.Perform` | asm/amd/interpreter.go:81-166 | The register terms after any instruction, unhandled ones included |
| `X86.Interpreter.StepOnce` | asm/amd/interpreter.go:64-167 | One step consumes one instruction, advances the counter and RIP, and changes nothing when decoding fails |
| `X86.Interpreter.LoopWithBreak` | asm/amd/interpreter.go:50-62 | The loop runs up to and including the first instruction that stops it, or to the error that ends it, and returns the last instruction stepped over |
| `X86Soundness.AddressValue` | asm/amd/interpreter.go:180-197 | The address term denotes base + index * scale + displacement, or the absolute address, exactly when that one is outside [2^31, 2^32) |
| `X86Soundness.DisplacementRecovered` | asm/amd/interpreter.go:173-178 | Every 32-bit displacement is recovered from either form; an absolute one passes exactly outside [2^31, 2^32) |
| `SignExtension.SignExtendMeans` | asm/expression/extend.go:20-22 | Sign extension gives the signed number of that many bits which agrees with the word in them |
| `SignExtension.SignMoveIff` | asm/amd/interpreter.go:114-140 | After MOVSX or MOVSXD the terms follow the processor exactly when the source is not negative or is as wide as the destination |
| `SignExtension.SignFollowedIff` | asm/amd/interpreter.go:130-138 | So from every state exactly when it has nothing to extend; the extension starts at the operand size instead of the size of what is loaded |
| `SignExtension.SignedLoad` | asm/amd/interpreter.go:130-138 | A sign-extended load is a term of its own, whose value is that of the plain load |
| `SignExtension.NarrowWriteIff` | asm/amd/regs_state.go:211-217 | The terms follow a write to an 8- or 16-bit register exactly when the bits above were zero |
| `X86Soundness.ArithmeticSound` | asm/amd/interpreter.go:82-103 | ADD and SUB keep terms and machine in step, with zero extension of 32-bit results |
| `X86Soundness.ShiftSound` | asm/amd/interpreter.go:104-113 | SHL by less than the width keeps them in step |
| `X86Soundness.MoveSound` | asm/amd/interpreter.go:114-140 | MOV and MOVZX keep them in step, absolute addresses outside [2^31, 2^32) included |
| `X86Soundness.OthersSound` | asm/amd/interpreter.go:141-165 | XOR of a register with itself, AND with 3, LEA and instructions without effect keep them in step |
| `X86Soundness.StepSound` | asm/amd/interpreter.go:64-167 | Every followed step keeps every register's term equal to its value, RIP included |
| `X86Soundness.RunSound` | asm/amd/interpreter.go:50-167 | So does every program of followed instructions, from every machine state |
| `X86Soundness.FollowedIff` | asm/amd/interpreter.go:173-197 | A handled instruction keeps terms and machine in step from every state exactly when it does not load from an absolute address in [2^31, 2^32) |
| `X86Soundness.MisreadFails` | asm/amd/interpreter.go:173-178 | Every instruction that does goes wrong on some machine |
| `X86Soundness.AbsoluteLoadMisread` | asm/amd/interpreter.go:173-178 | A MOV from the absolute address 0x80000000 is such an instruction |
| `LoadWidths.RunWide` | asm/amd/interpreter.go:64-167 | Code without narrow loads into whole registers leaves only 8-byte loads outside extensions, in every register |
| `X86Soundness.InitialState` | asm/amd/interpreter.go:28-40 | Both ways of starting begin in step |
| `X86Soundness.NamesDistinct` | asm/amd/interpreter.go:199-203 | The initial register names are distinct |
| `Tsd.ExtractTSDInfoX86` | libc/libc_x86.go:15-84 | The three patterns are tried in turn on RAX at the first RET, and captures written by a failed attempt stay |
| `TsdComplete.ExtractedIff` | libc/libc_x86.go:15-84 | A layout is extracted exactly from code that reaches its RET with one of the three patterns in RAX, and is that pattern's |
| `TsdComplete.OneShape` | libc/libc_x86.go:31-74 | No term matches two of the patterns |
| `TsdComplete.ExtractComplete` | libc/libc_x86.go:15-84 | From code that leaves in RAX a load from a pattern's address, with any constants and any order of operands, those constants are extracted |
| `TsdComplete.MuslExtracted` | libc/libc_test.go:94-111 | From musl's pthread_getspecific: offset 0x80, multiplier 8, indirect |
| `Tsd.ShapesAreLinear` | libc/libc_x86.go:31-74 | No pattern uses a capture twice |
| `Tsd.ShapeValue` | libc/libc_x86.go:31-74 | The address each pattern denotes, in every environment |
| `Tsd.FoldedOffset` | libc/libc_x86.go:75-82 | What folding multiplier * multiplier2 into the offset changes |
| `Tsd.LayoutAddress` | libc/libc_x86.go:44-82 | The layout names the pattern's address exactly when the 32-bit truncation drops nothing visible |
| `Tsd.FitsIff` | libc/libc_x86.go:44-82 | The constants survive the narrowing exactly when they are a signed 16-bit and an 8-bit number; the offset is always kept modulo 2^16 |
| `Tsd.ExtractionSound` | libc/libc_x86.go:15-84 | For every machine state and all followed code, RAX is loaded from one address, and the extracted layout whose constants fit names it exactly under that condition when no load in the address is narrow |
| `Tsd.ShapeWidths` | asm/expression/mem.go:47-57 | A term that matches a pattern has one load of the thread pointer, in the first pattern below one of a pointer, of whatever width, and no others |
| `Tsd.MatchedValue` | libc/libc_x86.go:31-74 | Such a term denotes the pattern's address with loads of the widths it has |
| `Tsd.WordsSuffice` | libc/libc_x86.go:15-30 | In the address that code without narrow loads into whole registers leads to no load is narrow |
| `TsdExact.NarrowUnnamed` | libc/libc_x86.go:31-74 | Whichever load in the address is narrow, the extracted layout names another address on some machine |
| `TsdExact.NeverDropsIff` | libc/libc_x86.go:75-82 | The truncation drops nothing visible for any key exactly when the multiplier is 0, or multiplier2 has no lower half and the multiplier hides its upper one |
| `TsdExact.ExtractionIff` | libc/libc_x86.go:15-84 | The extracted layout names the loaded address on every machine and for every key exactly when no load in the address is narrow and, with multiplier2, that condition holds |
| `TsdPrograms.WrappedKeyFails` | libc/libc_x86.go:60-82 | Followed code that adds 1 to the key, whose extracted layout names another address for key 0xffffffff on every machine |
| `TsdPrograms.NarrowLoadFails` | libc/libc_x86.go:15-84 | Followed code with a 1-byte load of the thread pointer, whose extracted layout names another address |
| `Lpm.RightmostSetBitExp` | lpm/lpm.go:19-21 | The rightmost set bit is the largest power of two that divides |
| `Lpm.RightmostSetBitMask` | lpm/lpm.go:19-21 | On machine words, x & -x is the lowest set bit alone |
| `Lpm.RightmostSetBitIsMask` | lpm/lpm.go:19-21 | The two are the same on every machine word |
| `Lpm.CalculateRmb` | lpm/lpm.go:96-108 | The size of the largest aligned block that starts here and stays in range |
| `Lpm.CalculatePrefixList` | lpm/lpm.go:71-94 | An error exactly for an empty range; otherwise both passes follow the same blocks and the list has their prefixes |
| `LpmLaws.Greedy` | lpm/lpm.go:71-108 | Each block is aligned, inside the range and the largest possible at its start |
| `LpmLaws.Partition` | lpm/lpm.go:71-108 | The blocks are ascending, disjoint and cover exactly the range |
| `LpmLaws.PrefixMatchesBlock` | lpm/lpm.go:85-91 | A prefix matches exactly the addresses of its block |
| `LpmLaws.Minimal` | lpm/lpm.go:71-108 | No cover of the range by aligned blocks inside it is smaller |
| `LpmLaws.BlocksCover` | lpm/lpm.go:71-108 | The blocks are such a cover |
| `LpmLaws.RiseThenFall` | lpm/lpm.go:71-108 | Sizes rise strictly, then fall strictly, so there are at most 126 |
| `ProcessTable.InstallMapping` | processmanager/processinfo.go:321-343 | Installing a disjoint mapping adds only its entries, counts what it added, and all of them when no update fails |
| `ProcessTable.PruneTable` | processmanager/processinfo.go:345-361 | Deleting stale mappings leaves exactly the entries of the others |
| `ProcessTable.ExitTable` | processmanager/processinfo.go:523-532 | Exit leaves no entry of the pid |
| `ProcessTable.LookupsRightIffComplete` | processmanager/processinfo.go:321-361 | Longest-prefix lookups answer with the one mapping around each address exactly when no prefix of a recorded mapping is missing |
| `ProcessTable.NothingElsewhere` | processmanager/processinfo.go:144-152 | Outside every mapping only the dummy entry is found, at address 0 |
| `ProcessTable.ZeroFindsDummy` | processmanager/processinfo.go:144-152 | Address 0 finds the dummy entry, even inside a mapping |
| `ProcessInvariant.StepTable` | processmanager/processinfo.go:597-873 | Every step keeps recorded mappings disjoint, the table made of their prefixes, and the size counter equal to the number of entries |
| `ProcessInvariant.RemoveSize` | processmanager/processinfo.go:790-796 | The clamp of the size counter never takes effect |
| `ProcessLedger.StepRefs` | processmanager/processinfo.go:345-469 | Every step keeps references equal to those held by recorded and pending mappings plus the leaked ones |
| `ProcessDetach.StepDetach` | processmanager/processinfo.go:365-394 | Every step keeps each instance, and each attacher per pid life, attached and not detached or detached once |
| `ProcessDetach.ExitDetachesOnce` | processmanager/processinfo.go:493-539 | After exit all that was ever attached for the pid has been detached exactly once |
| `ProcessDetach.ForgetDetachesNothing` | processmanager/processinfo.go:976-993 | ProcessedUntil never finds an instance left to detach |
| `ProcessRuns.RunInv` | processmanager/processinfo.go:597-995 | All of these hold after every run of synchronizations, exits and interleaved ProcessedUntil calls |
| `ProcessRuns.RunAccounts` | processmanager/processinfo.go:345-539 | Between synchronizations the size counter is the number of entries, and references taken minus released are those of the recorded mappings of pids not awaiting cleanup, plus the leaked ones |
| `ProcessRuns.NothingLeaked` | processmanager/processinfo.go:747-784 | Nothing leaks in a run exactly when no maps read in it fails after delivering a new mapping |
| `ProcessRuns.ReadThenFail` | processmanager/processinfo.go:747-784 | A legal run that ends with a reference taken and no mapping recorded |
| `ProcessRuns.RunDetaches` | processmanager/processinfo.go:365-539 | After every run each instance and attacher not attached any more was detached exactly once |
| `ProcessLookups.RunLookups` | processmanager/processinfo.go:653-838 | After every run each lookup for a settled pid gives file and bias of the recorded mapping around the address, although only differences were applied, exactly when no recorded mapping had an update fail in the installation since which it has been held |
| `ProcessLookups.RunWhole` | processmanager/processinfo.go:321-343 | After every run nothing of a mapping is missing from the table exactly when no update failed in the installation since which it has been held |
| `ProcessLookups.StepHeld` | processmanager/processinfo.go:653-838 | Only an installation of the mapping makes it held or changes which of its prefixes are there |
| `ProcessLookups.RefusedThenRecorded` | processmanager/processinfo.go:331-342 | A legal run in which all updates fail and the mapping is recorded, so that lookups are wrong |
| `ProcessLookups.ReachableFresh` | processmanager/processinfo.go:683-742 | In every reachable state a mapping is delivered as new only when it was not recorded before |
| `ProcessLookups.FailureStays` | processmanager/processinfo.go:331-342 | Over every legal run a prefix whose update failed stays missing while its mapping stays recorded |
| `MappingSearch.FindMapping` | processmanager/processinfo.go:921-960 | For every list the binary search answers as the function `Search`, and only with a mapping that holds the address |
| `MappingSearch.MissedIff` | processmanager/processinfo.go:938-959 | In the order of the sort, where no mapping of the file that starts below the address follows one that does not, the search misses an address that a scan finds exactly when a later mapping of the file is the last to start below it and ends before it |
| `MappingSearch.FindsAllIff` | processmanager/processinfo.go:938-959 | For lists that map each part of a file once, search and scan agree on all files and addresses exactly when mappings of a file ascend in the file as in memory |
| `MappingSearch.OneBiasFinds` | processmanager/processinfo.go:938-959 | So they agree when every file has one bias |
| `MappingSearch.OutOfOrder` | processmanager/processinfo.go:938-959 | Where a file's mappings are out of order, a mapping of another file decides whether an address is found |
| `ProcessFind.SortedInOrder` | processmanager/processinfo.go:471-487 | The published order is ascending by file and start address |
| `ProcessFind.RunInOrder` | processmanager/processinfo.go:825-838 | After every run all recorded mappings are in that order |
| `ProcessFind.LeadsBack` | processmanager/processinfo.go:938-959 | The search for the file address of a pc leads back to the mapping around it exactly when pc is not the mapping's first address |
| `ProcessFind.RunResolves` | processmanager/processinfo.go:921-960 | After every run, for a recorded mapping none of whose updates failed since it has been held, table lookup and then search recover the mapping for every pc strictly inside it |
| `MappingSearch.TwoBiases` | processmanager/processinfo.go:938-959 | With two biases for a file the search answers nothing where a scan finds a mapping |
| `ProcessManager.ProcessManager.constructor` | processmanager/types.go:60-110 | A new manager is the initial state |
| `ProcessManager.ProcessManager.GetOrCreateProcessInfo` | processmanager/processinfo.go:127-160 | An unknown pid gets a dummy entry, a record and a count, unless the update fails |
| `ProcessManager.ProcessManager.ProcessNewMapping` | processmanager/processinfo.go:321-343 | Prefixes are inserted up to the first update that fails, and counted |
| `ProcessManager.ProcessManager.ProcessRemovedMapping` | processmanager/processinfo.go:345-361 | The mapping's prefixes are deleted and counted and its reference is released |
| `ProcessManager.ProcessManager.ProcessRemovedInterpreters` | processmanager/processinfo.go:365-394 | Exactly the instances whose file is gone are detached, and an empty record is dropped |
| `ProcessManager.ProcessManager.NewFrameMapping` | processmanager/processinfo.go:398-469 | A usable file is referenced, its interpreter and probes attached, and its part from its virtual address on returned; an unusable one changes nothing |
| `ProcessManager.ProcessManager.ProcessPIDExit` | processmanager/processinfo.go:493-539 | Exit is the model's exit step, and does nothing for an unknown or already exited pid |
| `ProcessManager.ProcessManager.RemoveStale` | processmanager/processinfo.go:790-796 | Removing stale mappings in any order comes to removing them at once, with the counter lowered by what was deleted |
| `ProcessManager.ProcessManager.OnMapping` | processmanager/processinfo.go:683-742 | The callback on a line of the maps file is the model's line step |
| `ProcessManager.ProcessManager.SynchronizeProcess` | processmanager/processinfo.go:597-838 | One synchronization is the run of its steps, whatever the maps read delivers, however it ends and whenever ProcessedUntil gets the lock |
| `ProcessSync.ScriptSynchronizes` | processmanager/processinfo.go:597-838 | With a maps read that completes, that run is a synchronization in the sense of the next rows |
| `ProcessSync.SyncRecords` | processmanager/processinfo.go:683-742 | A completed synchronization records exactly one mapping for each needed line that is repeated or usable: the one recorded before, or the file's part from its virtual address on |
| `ProcessSync.NewLineFound` | processmanager/processinfo.go:321-343 | When no update for a new usable line was refused, every lookup of its addresses but 0 gives its file and a bias that leads to the place counted from the file's virtual address |
| `ProcessMark.SyncMarks` | processmanager/processinfo.go:175-186 | After a completed synchronization the dummy entry holds the value for changed interest in anonymous mappings, else what it held, and 0 for a new pid; no mapping's update or removal touches it |
| `ProcessSync.SyncEquips` | processmanager/processinfo.go:365-394 | Exactly those interpreters are left that the pid had or that attached and whose file is among those lines, the old ones as the same instances; probes only grow, by what new lines wanted |
| `ProcessManager.ProcessManager.CleanupPIDs` | processmanager/processinfo.go:877-895 | Every recorded pid that is not running any more ends up awaiting cleanup, or forgotten when ProcessedUntil gets the lock between two exits |
| `ProcessManager.ProcessManager.ProcessedUntil` | processmanager/processinfo.go:962-995 | Exactly the pids that exited at or before the time are dropped |
| `Kallsyms.GenerationNames` | kallsyms/kallsyms.go:94-123 | Generations keep their parity, and are equal exactly when the number of changes between is a multiple of 2^63 |
| `Kallsyms.GenerationsIncrease` | kallsyms/kallsyms.go:119-123 | Within 2^63 changes a generation names one revision, and generations increase until they wrap |
| `Kallsyms.AddedSorted` | kallsyms/bpf.go:88-101 | An addition keeps the table sorted and adds exactly the symbol |
| `Kallsyms.RemovedSorted` | kallsyms/bpf.go:116-125 | A removal keeps the table sorted and removes exactly one symbol of the address |
| `Kallsyms.AddThenRemove` | kallsyms/bpf.go:81-131 | Removing by address undoes the addition before, for every table |
| `Kallsyms.LookupIsScan` | kallsyms/bpf.go:29-53 | On ranges that do not overlap, lookup finds what a scan finds for every address exactly when no symbol reaches the top of the address space and none stands behind an empty one |
| `Symbolizer.HistorySorted` | kallsyms/bpf.go:81-131 | Under every sequence of loads, additions and removals each revision is sorted and takes the next generation |
| `Symbolizer.HistoryHolds` | kallsyms/bpf.go:81-131 | After every sequence of events each table holds, address by address, exactly what was loaded and added and not removed since, and its generation counts the events that changed something |
| `Symbolizer.BpfGenerationNames` | kallsyms/bpf.go:55-60 | Over fewer than 2^63 events a BPF generation is odd and names one table |
| `Symbolizer.BinarySearch` | kallsyms/bpf.go:34-36 | The search finds the leftmost position not below the address |
| `Symbolizer.BpfSymbolizer.LookupSymbol` | kallsyms/bpf.go:71-78 | The lookup on the current table, none before the first load |
| `Symbolizer.BpfSymbolizer.AddBPFSymbol` | kallsyms/bpf.go:81-107 | Unless its name is known at the address, exactly the symbol is added, before others of its address and under the next generation, in a fresh table; the old one is unchanged |
| `Symbolizer.BpfSymbolizer.RemoveBPFSymbol` | kallsyms/bpf.go:110-131 | Exactly the first symbol of the address is removed, under the next generation, in a fresh table; without one nothing changes; the old table is unchanged |
| `Symbolizer.GetModuleByAddress` | kallsyms/kallsyms.go:720-732 | The search over descending starts settles on the first module that starts at or below the address |
| `Symbolizer.ModuleAtIsScan` | kallsyms/kallsyms.go:720-732 | For disjoint modules that is the module around the address, or none |
| `Symbolizer.LookupSymbolByAddress` | kallsyms/kallsyms.go:306-318 | The symbol with the greatest offset at or below the address, none for a stub; the offset is that in the module, cut to 32 bits |
| `FrameCache.ResolveMeans` | kallsyms/kallsyms.go:771-794 | On tidy tables an address resolves to the BPF symbol that covers it, otherwise to the module that does, otherwise to nothing |
| `FrameCache.FreshMeans` | processmanager/kernelsymbolization.go:13-44 | On tidy tables the frame has the covering BPF symbol's name and the offset in it; otherwise the covering module's mapping, the byte before the address relative to it and the name of the symbol nearest below; otherwise the byte before the address alone |
| `FrameCache.CachedNext` | processmanager/manager.go:271-278 | An address of a BPF program or of a module with a mapping is found in the cache the next time, with the same frame; nothing else is cached |
| `FrameCache.CachedAnswers` | processmanager/manager.go:256-269 | What is cached under the kernel's generation is answered, and else what is under the BPF one |
| `FrameCache.CountsAre` | processmanager/manager.go:252-283 | The counts are of the addresses found and of those added, each against the cache left by the ones before |
| `FrameCache.AddsIff` | processmanager/manager.go:271-278 | A frame is added exactly for an address of a BPF program or mapped module that is not cached yet |
| `FrameCache.AnswerFresh` | processmanager/manager.go:252-283 | Against a consistent cache the answer is that of uncached resolution where BPF and module ranges do not overlap |
| `FrameCache.CacheTransparent` | processmanager/manager.go:256-269 | Every consistent cache answers as uncached resolution exactly when no BPF symbol and mapped module overlap at the address |
| `FrameCache.RememberConsistent` | processmanager/manager.go:271-278 | Caching under the generation that resolved keeps the cache consistent |
| `FrameCache.RunTransparent` | processmanager/manager.go:252-283 | After every run of updates, evictions and lookups the answer for any pair of revisions is the uncached one where ranges do not overlap |
| `FrameCache.AddedOverModule` | processmanager/manager.go:257-269 | A BPF symbol added over a cached module address is not seen |
| `FrameCache.KernelFrameCache.AppendKernelFrames` | processmanager/manager.go:252-283 | One frame per address, each as uncached resolution gives it unless ranges overlap there, the exact numbers of hits and of frames added, and the cache stays consistent |
| `FrameCache.KernelFrameCache.Probe` | processmanager/manager.go:256-281 | Module generation first, then BPF generation, then resolution, and only cacheable frames are added |
| `Tls.First` | tls/resolve.go:108-123 | The first matching relocation, found exactly when there is one |
| `Tls.Best` | tls/resolve.go:126-136 | The symbol-less descriptor with the largest addend at or below the symbol |
| `Tls.OnReloc` | tls/resolve.go:104-151 | The visitor's update of its captured variables |
| `Tls.Visit` | tls/resolve.go:104-153 | Stopping at a named TPOFF64 loses nothing |
| `Tls.Resolve` | tls/resolve.go:75-186 | The chosen path by precedence, local-exec for executables, and every error, that of reading the relocations included |
| `Tls.RoundUpIsLeast` | libpf/pfelf/tls.go:14-16 | Rounding up gives the least multiple of the alignment at or above the size |
| `Tls.StaticOffsetIff` | libpf/pfelf/tls.go:22-47 | A static offset is given exactly for a symbol within a segment of at most 2^31 - 1 bytes whose alignment is none or a power of two |
| `Tls.StaticOffsetInside` | libpf/pfelf/tls.go:49-62 | The whole symbol is past the 16 reserved bytes above the thread pointer, or below it |
| `TlsLocate.TlsdescReturnsArg` | tls/tlsdesc_aarch64.go:52-70 | True exactly when after at most two hints the resolver loads its argument and returns |
| `TlsLocate.ResolverCode` | tls/tlsdesc_aarch64.go:14-70 | The resolvers taken for static: LDR X0, [X0, #8] and RET, after no, one or two hints |
| `TlsLocate.DescriptorPlace` | tls/tls.go:190-235 | A relocated descriptor, static or dynamic, of either variant leads to what the loader put into it |
| `TlsLocate.LocalExecPlace` | libpf/pfelf/tls.go:22-62 | The static offset is the executable's block, at the least aligned place past the reserved bytes or as far below the thread pointer as its aligned size, plus the symbol |
| `TlsLocate.ResolveThenLocate` | tls/tls.go:117-235 | For every relocation list and every loader state that applied it, the place found is the variable's, or the part of it that the chosen path uses is reported not to fit, exactly when the relocation chosen does not name the symbol with an addend of its own |
| `TlsLocate.NamedAddend` | tls/tls.go:122-143 | A named TLSDESC with an addend leads past the variable |
| `TlsLocate.Precedence` | tls/resolve.go:155-174 | By name or addend of the relocations there are: a TP offset is preferred to a descriptor, and a module number is used only when there is neither |
| `TlsLocate.Outcomes` | tls/resolve.go:75-186 | When each error is given, when a path through a relocation and when the static offset of an executable, by what the file and the symbol are and which relocations there are |
| `TlsLocate.OrderFree` | tls/resolve.go:104-174 | Access model and adjustment do not depend on the order of the relocations |
| `TlsLocate.StaticRight` | tls/location.go:56-63 | A static offset, shifted by an addend or not, is kept exactly or reported not to fit 32 bits, and is the variable's exactly when not shifted |
| `TlsLocate.DynamicRight` | tls/location.go:67-80 | So are module and offset |
| `Watermark.MinIff` | tracer/events.go:235-237 | The running minimum is one exactly when no time is 0, the last one is, or one is below 0 |
| `Watermark.CallSafe` | tracer/events.go:185-277 | Over every sequence of batches, a call's time is at most every capture time of the current and previous batch exactly when none of those is 0 or below |
| `Watermark.CallIs` | tracer/events.go:264-276 | A call's time is the lesser of the two batches' minima, and there is one unless the previous batch's is not above 0 or was used already |
| `Watermark.DroppedSafely` | processmanager/processinfo.go:976-993 | A record is dropped only when its exit time is at or below all of those |
| `Watermark.ZeroForgets` | tracer/events.go:235-237 | A capture time of 0 breaks that |
| `Watermark.StopsAtLimit` | tracer/events.go:216-244 | A batch stops at 4096 counted records exactly when that one is a trace; otherwise it takes all up to the end or to a record that stops the monitor |
| `Watermark.TraceMonitor.ReadBatch` | tracer/events.go:185-245 | The batch, its minimum and what was sent, for every sequence of records |
| `Watermark.TraceMonitor.Poll` | tracer/events.go:185-277 | One iteration appends to the monitor's program the sends of the batch and, when there is a call, nil and the call |
| `Watermark.InterleavingInOrder` | internal/controller/controller.go:192-212 | For every program that sends nil before each call and every interleaving with the handler, all traces sent before a call are handled at it and the handler is idle |
| `Watermark.CalledByProgram` | tracer/events.go:240-276 | The calls are exactly the times decided for the batches, one per batch that decides on one, in the order of the batches |
| `Watermark.CallsAfterHandling` | tracer/events.go:240-276 | So over every sequence of batches: at each call all traces read up to and including its batch are handled, and its time is the one decided for that batch |
| `Watermark.RunsThrough` | internal/controller/controller.go:192-212 | Some interleaving carries any program out up to each of its actions, its calls included |
| `Nibbles.DecodeEncode` | interpreter/dotnet/nibblereader.go:55-66 | Decoding inverts the encoding of every 32-bit number, whatever follows |
| `Nibbles.DecodeFails` | interpreter/dotnet/nibblereader.go:55-66 | Reading a number fails exactly when none of the next eleven nibbles ends one |
| `Nibbles.PackedNibbles` | interpreter/dotnet/nibblereader.go:31-51 | Nibbles packed into bytes, the earlier one in the lower half, are read back |
| `Nibbles.NibbleReader.ReadNibble` | interpreter/dotnet/nibblereader.go:31-51 | The next nibble, low one first; failure sticks |
| `Nibbles.NibbleReader.Uint32` | interpreter/dotnet/nibblereader.go:55-66 | The next number, failing after eleven nibbles |
| `Nibbles.MapPCOffsetToILOffset` | interpreter/dotnet/method.go:51-109 | The search while decoding, for every byte string |
| `Nibbles.StreamingIsSearch` | interpreter/dotnet/method.go:51-109 | For every list of bounds that search answers as decoding all and then searching, for plain and call-site lookup |
| `Nibbles.MeantAnswer` | interpreter/dotnet/method.go:51-109 | On the encoding of any bounds by meaning, IL offsets shifted by 3 and calls marked 0x10, the answer is the IL offset of the last bound that has one before the first bound past pc; for call sites the one in force at the last call; 0 when no bound is past pc |
| `Nibbles.MeantBytes` | interpreter/dotnet/method.go:51-109 | So on the bytes of the encoding |
| `Nibbles.NoPlace` | interpreter/dotnet/method.go:87-93 | Codes below 3 and those that are negative after the shift leave the IL offset as it is |
| `RangeWalk.RangeWalker.MarkSeen` | interpreter/dotnet/instance.go:166-175 | An address is fresh once, before its first read, and never more than 2^20 are marked |
| `RangeWalk.RangeWalker.WalkRangeSectionList` | interpreter/dotnet/instance.go:391-414 | Terminates on every image, reads follow the list without repeats, success means all of it was reached, and it fails only at the node limit or a read that does |
| `RangeWalk.RangeWalker.WalkRangeList` | interpreter/dotnet/instance.go:279-323 | Terminates on every image, reads each block at most once, the ranges are those of the blocks read added in turn, and it ends only at a null or repeated pointer, a failed read, an unused range or the node limit |
| `RangeWalk.RangeWalker.AddRanges` | interpreter/dotnet/instance.go:307-320 | Exactly the ranges of a block up to the first unused one are added |
| `RangeWalk.AddedKeeps` | interpreter/dotnet/instance.go:307-320 | Known ranges keep their ends |
| `RangeWalk.AddedMeans` | interpreter/dotnet/instance.go:307-320 | A range that is not empty, before the first unused one and whose start is new is there with its end |
| `RangeWalk.AddedOnly` | interpreter/dotnet/instance.go:307-320 | Nothing else is there |
| `RangeWalk.BlocksGive` | interpreter/dotnet/instance.go:292-322 | Every proper range before the first unused one of every block read has its start known |
| `RangeWalk.BlocksGiveOnly` | interpreter/dotnet/instance.go:292-322 | Every range known was known before or is such a range, with its end |
| `RangeWalk.BlockChainMeans` | interpreter/dotnet/instance.go:292-322 | The first block stands 8 bytes behind the head, each other one where the one before points |
| `RangeWalk.ChainMeans` | interpreter/dotnet/instance.go:391-414 | Sections are read from the head on, each where the one before points |
| `RangeWalk.RangeWalker.WalkFragments` | interpreter/dotnet/instance.go:418-454 | Terminates, success means every fragment and section was reached and read, and failure the node limit or a read that failed |
| `RangeWalk.RangeWalker.WalkLevel` | interpreter/dotnet/instance.go:457-492 | Terminates by the remaining budget, success means all that new nodes point to was reached and read, and failure the node limit or a read that failed |
| `RangeWalk.RangeWalker.WalkRangeSectionMap` | interpreter/dotnet/instance.go:495-498 | On every image the reads after the root's first one are of distinct addresses, each marked before and pointed to by an earlier read in the role it is read in; at most 2^20 are marked; success means everything any node points to was reached and read, and failure the node limit or a read that failed |
| `Frames.HeaderRoundTrip` | libpf/trace.go:215-244 | A header gives back its fields exactly when each fits its bits |
| `Frames.SplitJoined` | processmanager/manager.go:385-386 | Walking joined well-formed frames gives back exactly those |
| `Frames.JoinedSplit` | processmanager/manager.go:385-386 | What a walk yields is well-formed and joins to the data |
| `Frames.WalkFrames` | processmanager/manager.go:385-386 | The loop yields those frames, and for all other data panics after well-formed frames |
| `TraceRecord.RegionsAscend` | tracer/tracer.go:1261-1272 | For data of up to 65528 bytes decoding fails or gives ascending, disjoint, aligned, in-bounds regions |
| `TraceRecord.AscendIff` | tracer/tracer.go:1261-1272 | For every list of ends regions ascend exactly when none that ends above 65528 is followed by a present one |
| `TraceRecord.LabelsOverlap` | tracer/tracer.go:1261-1272 | A record of five regions that decodes to Go labels that are the first bytes of its thread labels |
| `TraceRecord.DecodedRegions` | tracer/tracer.go:1325-1355 | A record decodes exactly when its ends give regions whose words fit, and yields their contents |
| `TraceRecord.DecodeRecord` | tracer/tracer.go:1261-1272 | Decoding recovers every list of regions laid out in up to 65528 bytes |
| `TraceRecord.RecordRoundTrip` | tracer/tracer.go:1325-1355 | Context values, kernel frames, frames and labels are all recovered |
| `TraceRecord.VariableDataDecoder.DecodeBytes` | tracer/tracer.go:1261-1272 | The bytes of a region and the next position, or failure |
| `TraceRecord.VariableDataDecoder.CopyUint64` | tracer/tracer.go:1274-1290 | The words of a region are appended to the used part of the buffer, which keeps what it had |
| `TraceRecord.LoadBpfTrace` | tracer/tracer.go:1293-1357 | The three word regions end up in adjacent parts of the buffer, for exactly the records that decode |

## Left out

- Stores and other opcodes: the interpreter's steps on them are modelled, but it does not aim to be exact there, so they are not handled instructions. Of MOVSX, MOVSXD and writes to 8- and 16-bit registers it is proved when the step is right (`SignExtension`), but they are not part of the programs of `X86Soundness.RunSound`.
- Decoding of x86 instructions and the ARM interpreter: decoded instructions are the input.
- asm/amd/tls.go and asm/amd/insn.go: they would only add easy members.
- Sign extension as a constructor: modelled as part of loads and moves only.
- 32-bit address registers (an address-size prefix): the interpreter adds up the zero-extended registers without truncating the sum, and such operands are not handled instructions.
- OperandSort.SortByRank: is the insertion sort that sort.Sort uses on short lists, and not the algorithm it uses on long ones; what is proved of matching holds for every sort that permutes.
- MappingSearch.MissedIff: is about file mappings that fall on both sides of the address in list order; for others no condition on the file's mappings alone can be exact, as OutOfOrder shows.
- RangeWalk.RangeWalker.WalkRangeSectionMap: an address met in two roles is expanded in the first one only, so what is reached is stated for nodes as they were expanded.
- Nibbles.MapPCOffsetToILOffset: reads from a byte string; the caching reader of remote memory is not part of this model.
- The eBPF map handler, the executable info manager, LRU internals and remote memory: abstract, with the contracts named above.
- ELF parsing, /proc and sysfs reading, kallsyms text scanning, and the names packed in a module: their results are inputs.
- Clearing low bits with a power-of-two mask in alignment computations is written as arithmetic.
- libc information, process metadata, context mappings and anonymous mappings for interpreters in SynchronizeProcess: they do not touch the state that is proved about, except for the value of the dummy entry.
- Prefixes that interpreters install for themselves: written by other components and not counted by the manager.
- User frames in the frame cache: their keys differ from kernel keys, since a frame of kernel type is never cached when converted.
- Building eBPF descriptors from a location and a DTV layout, reporters, metrics, logging and configuration.
