# idatool analysis layer and `.lst` parser, modelled in Dafny

This project models two parts of idatool, a Python 2 toolkit that scripts the
IDA disassembler:

- **The analysis layer of `idatool/disassembly.py`.** This covers:
  - operand decoding and the instruction record;
  - instruction filters;
  - the function walker that builds instruction lists, basic blocks and the block successor map;
  - the call-reference split;
  - the loop finder;
  - the call-tree walker;
  - the structural hash text and the unique-hash index;
  - stack arguments;
  - the save and replay of names and comments.
- **The IDA listing parser of `idatool/list.py`.** This covers line tokenising and the `proc`/`endp` grouping state machine.

The disassembler database is an immutable value, `Backend.Backend`, made of finite maps. Every IDA call the source makes becomes a lookup in those maps:

- flags and item sizes;
- mnemonics and raw operand records;
- canonical feature bits;
- code references tagged `Next`/`Jmp`/`Call`, and data references;
- names, comments and segments;
- function starts and containing functions;
- incoming-reference counts;
- frame members;
- the register-name and reserved-name predicates.

Where the source raises an exception, the model usually returns a `Failure` carrying `Model.Fault` or `Listing.ListError`. The exception is the `IndexError` of `MatchInstructionFilter` on an instruction without operands. `Filters.MatchAsWritten` models that raise, but the walkers apply the corrected `Filters.Match`, which rejects such an instruction (see "## Findings" and "## Left out").

Pure code is written as functions:
- `GetOperand`;
- `GetOperandStr`;
- `GetFilter`;
- `MatchInstructionFilter`;
- the `'%x'`, `split()` and `strip()` helpers.

Code that loops and accumulates is written as methods. Each method is proved equal to a specification function, and the properties are proved as lemmas about that function:
- the block worklist (`Walker.WalkFunction` against `Blocks.FunctionWalk`);
- the block cut (`Partition.CutAndEmit` against `Partition.Cut`/`EmitAll`);
- the path enumeration (`Loops.EnumeratePaths` against `Loops.Enumerate`);
- the hash text loop, the stack-frame scan and the annotation loops;
- the listing parser.

The call-tree walker's closure mutates three variables of its enclosing call. It is the class `CallTree.TreeWalker`, whose fields are those variables. The `.lst` parser's `Entries` list is a field of the class `Listing.Parser`.

Modules follow the source's structure:

| module | models |
|---|---|
| `Model`, `Backend` | records and the database |
| `Operands` | `GetDtypSize`, `GetRegName`, `GetOperand`, `GetOperandStr` |
| `Filters` | `GetFilter`, `MatchInstructionFilter` |
| `Instructions` | `GetInstruction` |
| `Blocks`, `Walker` | phase one of `_GetFunctionInstructions` |
| `Partition`, `EdgeMaps` | phase two, and `GetFunctionMap`'s grouping |
| `CallRefsLoop` | `GetFunctionCallRefs`' loop |
| `Functions` | the four public wrappers |
| `Loops` | `EnumeratePaths`, `FindFunctionLoops` |
| `CallTree` | `FindUtilityFunctions`, `GetFunctionTree` |
| `Hashing` | `GetInstructionsHash`, `GenHash2Name` |
| `Frames` | `GetStackArgs` |
| `Notations` | `GetNotations`, `SaveNotations`, `LoadNotations` |
| `Listing` | `list.py` |

`Text`, `Seqs`, `Sets` and `Wrappers` are shared helpers.

Behaviour kept as written (each one is stated by a lemma):

- **The entry block can be walked twice.** `_GetFunctionInstructions` queues the function entry without putting it in `block_starts`, so a jump back to the entry walks it a second time (`Blocks.SelfLoopWalkedTwice`). The `block_start_map` it builds is never read.
- **The filter does not steer the walk.** It only decides which visited instructions are recorded (`Blocks.FilterOnlySelects`).
- **Loops are deduplicated only within one root.** `FindFunctionLoops` concatenates the per-root results. Dictionary iteration order is unspecified, so the key order of `src_map` is a parameter (`order`).
- **The separator regex needs a comma, a space and one more blank.** The listing parser's `', [ \t]+'` therefore does not split `"a, b"` (`Listing.OneSpaceDoesNotSplit`).
- **The hashed branch of `LoadNotations` never writes.** It stores notations under addresses (disassembly.py:1035) but looks them up by hash (1055), so with a non-empty `hash_types` it writes nothing (`Notations.LoadWrites`).
- **`_GetFunctionNotations` discards its notes.** It builds a list of per-function notes and throws it away; only the set of addresses it checked reaches `GetNotations`.
- **`GetOperandStr` always raises when the scale is not 1.** Its branch for that case formats the `Index` register name with `'%d'`, so it always raises `TypeError`. The model returns `Failure(FormatError)`.
- **An address outside any function raises.** `get_func` returns `None` there, and `_GetFunctionInstructions` then reads `func.startEA` and raises. The model returns `Failure(NotInFunction(ea))`.

## Model

| member | source | states |
|---|---|---|
| Operands.DtypSize | idatool/disassembly.py:48-66 | a width is defined exactly for the nine listed data types, and every width is one of 1, 2, 4, 8, 16, 32, 64 |
| Operands.SibFieldRanges | idatool/disassembly.py:194-197 | the base and index fields of `specflag2` are in 0..7 and the scale field is in 0..3 |
| Operands.Pow2 | idatool/disassembly.py:209 | `int(math.pow(2, k))` in exact arithmetic is at least 1 |
| Operands.AddressingFields | idatool/disassembly.py:190-210 | Scale is always in {1,2,4,8}; it is 2^scale-field with `specflag1` set and 1 with it clear; Base is empty for base field 5 on a memory operand (phrase 5 when `specflag1` is clear); Index is empty for index field 4 or with `specflag1` clear |
| Operands.AddressingSentinels | idatool/disassembly.py:199-206 | when register names are never empty: Base is empty iff the base field (the phrase, without `specflag1`) is 5 on a memory operand, and with `specflag1` set Index is empty iff the index field is 4 |
| Operands.GetOperand | idatool/disassembly.py:162-219 | the decode is absent exactly for a void operand; a decoded operand keeps its data type and starts with Use and Chg unset and position 0 |
| Operands.GetOperandKinds | idatool/disassembly.py:170-217 | a decoded operand has exactly the kind its raw type names; far/near keep the address, registers get the register name at the operand's width, immediates keep the value, memory keeps the address and its segment name, displacements keep the offset |
| Operands.DecodedScale | idatool/disassembly.py:209 | every decoded scale is a power of two in {1,2,4,8} |
| Operands.GetOperandStr | idatool/disassembly.py:221-250 | fails exactly on a displacement with scale ≠ 1; far/near give the address, immediates the value, registers the name, memory/phrase/special `''`, and a displacement text starts with its base and ends with `+offset` |
| Operands.DisplacementOffsetReadable | idatool/disassembly.py:243 | the decimal offset at the end of a displacement text reads back as the offset |
| Model.TypeName | idatool/disassembly.py:171-174 | a processor-specific type's `Type` text is its code in hexadecimal |
| Model.NonCallTargets | idatool/disassembly.py:605-606 | there are no more kept targets than references |
| Model.NonCallTargetsMembers | idatool/disassembly.py:605-606 | a target is kept iff some reference not tagged `Call` has it |
| Model.NonCallTargetsSnoc | idatool/disassembly.py:601-606 | reading one more reference appends its target exactly when it is not a `Call` |
| Filters.MatchAsWrittenAgrees | idatool/disassembly.py:265-306 | the code as written returns the same verdict as `Match` whenever it returns, and raises exactly when the `'Op'` test passes, the target is `'Indirect'` or `'Section'` and there are no operands |
| Filters.SectionFilterOnNopFails | idatool/disassembly.py:299-300 | an operand-less `nop` against `{'Target': 'Section'}` raises as written and is rejected by the corrected filter |
| Filters.FirstOperandTargetNeedsOperand | idatool/disassembly.py:289-302 | an instruction without operands is rejected by the corrected `'Indirect'` and `'Section'` tests |
| Filters.EmptyFilterMatchesAll | idatool/disassembly.py:261-266 | `None`, `{}` and `GetFilter` of an unknown name admit every instruction |
| Filters.OpKeyRestricts | idatool/disassembly.py:267-269 | with an `'Op'` key only the listed mnemonics are admitted |
| Filters.UnknownTargetMatchesNothing | idatool/disassembly.py:271-305 | a `'Target'` outside the five categories admits nothing |
| Filters.ExtendingNarrows | idatool/disassembly.py:265-306 | a filter with more keys admits only instructions the smaller filter admits |
| Filters.NamedFilters | idatool/disassembly.py:252-263 | what each of the four named filters admits, as an iff over mnemonic and operands |
| Filters.SelectMembers | idatool/disassembly.py:591-594 | the recorded instructions are exactly the visited ones that pass the filter, never more of them |
| Filters.SelectAppend | idatool/disassembly.py:591-594 | recording distributes over a concatenation of visited instructions |
| Filters.SelectIdempotent | idatool/disassembly.py:741-742 | filtering already-filtered instructions again changes nothing |
| Filters.SelectNone | idatool/disassembly.py:591-594 | without a filter every visited instruction is recorded |
| Filters.Keep | idatool/disassembly.py:591-594 | one step of the recording appends the instruction exactly when it passes |
| Instructions.Slot | idatool/disassembly.py:351-366 | a slot is empty exactly when its raw operand is void; otherwise it carries the Use/Chg flags of its slot and its position |
| Instructions.Slots | idatool/disassembly.py:351 | there are six operand slots |
| Instructions.TakeSlots | idatool/disassembly.py:351-358 | the operands taken from slot `i` never run past the last slot |
| Instructions.OperandsShape | idatool/disassembly.py:351-358 | the operands are the decoded slots in order, up to the first empty slot, which is not taken |
| Instructions.SlotsOfOperands | idatool/disassembly.py:350-367 | the record has at most six operands, operand k sits at position k and comes from a non-void slot, and the slot after the last one is void |
| Instructions.Decoded | idatool/disassembly.py:311-313 | the table of records is defined exactly at code addresses |
| Instructions.DecodedRecords | idatool/disassembly.py:311-319 | the table holds exactly the records built at each address, each at its own address and with its item size |
| Instructions.DecodedCoherent | idatool/disassembly.py:318 | every record of the table sits at its own address |
| Instructions.CollectOperands | idatool/disassembly.py:350-367 | the operand loop returns the decoded operand list |
| Instructions.GetInstruction | idatool/disassembly.py:311-390 | returns the record exactly at a code address whose record passes the filter |
| Instructions.InstructionFacts | idatool/disassembly.py:311-390 | a record is returned iff the address is code and its record passes the filter; it sits at that address, its RVA rebases to it, its at most six operands are at positions 0, 1, ..., from non-void slots up to a void one, and its name is blank or the non-reserved true name |
| Instructions.IndirectRegCallIsBranch | idatool/disassembly.py:329-345 | only a `call`/`jmp` whose first operand is a register, memory, displacement or phrase operand without `cs:`/`ds:` is flagged |
| Blocks.ScanRecords | idatool/disassembly.py:587 | every instruction a block scan meets is a record of the table |
| Blocks.ScanConsecutive | idatool/disassembly.py:585-622 | a block starts at its start address, every instruction but the last is neither a return nor a jump holder, and each follows its predecessor by item size |
| Blocks.ScanStop | idatool/disassembly.py:586-597 | a block stops at a non-code address, at a return, or at an instruction with a `Jmp` reference, and `current` is left where it stopped |
| Blocks.ScanFollow | idatool/disassembly.py:599-620 | the references a block follows are those of its last instruction when it holds a `Jmp` and is not a return, and none otherwise |
| Blocks.RecordReturn | idatool/disassembly.py:596-600 | a return gets no `crefs_map` entry |
| Blocks.RecordEntry | idatool/disassembly.py:600-606 | any other instruction gets an entry, holding its non-`Call` targets in `'Map'` mode only |
| Blocks.EnqueueFromShape | idatool/disassembly.py:609-619 | the worklist only grows, the new addresses are exactly the new `block_starts`, pairwise distinct, each the target of a non-`Call` reference |
| Blocks.EnqueueFlow | idatool/disassembly.py:609-616 | a block adds only targets of non-`Call` references to `block_starts` |
| Blocks.VisitMeasure | idatool/disassembly.py:584-616 | a block that grows the worklist adds a new flow target, so iterating the growing list ends |
| Blocks.WorkExtends | idatool/disassembly.py:584-616 | the walk only appends to the worklist |
| Blocks.QueueStep | idatool/disassembly.py:611-616 | appending distinct fresh flow targets keeps the worklist a seed followed by distinct flow targets |
| Blocks.StartsStep | idatool/disassembly.py:615-625 | appending the new starts keeps `block_starts` equal to what was queued, plus the walked starts in `'Block'` mode |
| Blocks.VisitKeepsQueue | idatool/disassembly.py:609-616 | one block keeps the worklist invariant |
| Blocks.VisitKeepsStarts | idatool/disassembly.py:611-626 | one block keeps the `block_starts` invariant |
| Blocks.VisitKeeps | idatool/disassembly.py:584-626 | one block keeps both invariants, one position on |
| Blocks.Advance | idatool/disassembly.py:584-626 | one pass of the outer loop keeps the invariants and the work left, and the measure never grows |
| Blocks.WorkDone | idatool/disassembly.py:584 | a used-up worklist ends the walk with its invariants |
| Blocks.WorkKeepsInvariants | idatool/disassembly.py:584-626 | the whole walk keeps the worklist and `block_starts` invariants |
| Blocks.FunctionWalkQueue | idatool/disassembly.py:581-626 | the worklist starts with the entry; every later address is a non-`Call` target and queued at most once; `block_starts` is the queued addresses after the seed, or all of them in `'Block'` mode |
| Blocks.VisitSkeleton | idatool/disassembly.py:591-626 | the filter plays no part in what one block adds to the worklist, starts, ends and `crefs_map` |
| Blocks.SelectStep | idatool/disassembly.py:591-594 | recording a block after a filtered prefix is filtering the extended prefix |
| Blocks.WorkSkeleton | idatool/disassembly.py:584-626 | walks that differ only in filter and records keep the same worklist, starts, ends and `crefs_map` |
| Blocks.WorkTrace | idatool/disassembly.py:584-626 | a filtered walk records the filtered trace of the unfiltered walk |
| Blocks.FilterOnlySelects | idatool/disassembly.py:591-594 | the filter never changes which addresses are visited, and the recorded list is the unfiltered list filtered |
| Blocks.WorkRecords | idatool/disassembly.py:587-594 | from any position on the walk records only table records that pass the filter |
| Blocks.VisitRecords | idatool/disassembly.py:587-594 | one block records only table records that pass the filter |
| Blocks.FunctionWalkRecords | idatool/disassembly.py:587-594 | every recorded instruction is the record at its address and passes the filter |
| Blocks.SelfLoopWalkedTwice | idatool/disassembly.py:581-626 | a single `jmp` to the entry is walked and recorded twice, in `'Instruction'` and `'Block'` modes |
| Walker.ReadCrefs | idatool/disassembly.py:599-606 | the reference loop finds a `Jmp` exactly when there is one, and collects the non-`Call` targets in `'Map'` mode only |
| Walker.JmpStep | idatool/disassembly.py:601-603 | a `Jmp` among one more reference is an earlier one or the new one |
| Walker.EnqueueTargets | idatool/disassembly.py:608-619 | the enqueue loop computes the worklist and `block_starts` update |
| Walker.ScanStep | idatool/disassembly.py:586-622 | one pass of the inner loop either stops at the block's stop address with the block's records and queue update, or advances into the rest of the block |
| Walker.ScanBlock | idatool/disassembly.py:585-622 | the inner loop stops where the block scan stops, with the block's filtered records, `crefs_map` and queue |
| Walker.VisitBlock | idatool/disassembly.py:584-626 | one outer pass computes the next walk, `block_ends` included |
| Walker.WalkFunction | idatool/disassembly.py:577-626 | the first phase, a worklist iterated while it grows, computes the specified walk |
| Partition.FlattenCons | idatool/disassembly.py:651 | flattening a run list distributes over its first run |
| Partition.ChunksFlatten | idatool/disassembly.py:628-683 | the runs, concatenated, are the recorded instructions in order |
| Partition.ChunksHead | idatool/disassembly.py:651 | an open run is the prefix of the first run yielded |
| Partition.RunsCons | idatool/disassembly.py:632-652 | a non-empty uncut run in front of valid runs gives valid runs |
| Partition.UncutSnoc | idatool/disassembly.py:632-652 | appending a non-start instruction after a non-end one keeps a run uncut |
| Partition.ChunksRuns | idatool/disassembly.py:632-668 | no run has a start after its head or an end before its last |
| Partition.CutsCons | idatool/disassembly.py:632-668 | a run boundary is always at an end or before a start |
| Partition.ChunksCuts | idatool/disassembly.py:628-683 | every run is non-empty and every boundary lies at a block end or before a block start |
| Partition.CutPartition | idatool/disassembly.py:628-683 | the cut is a partition: non-empty runs, in order, cut only at recorded starts and ends |
| Partition.PartitionTail | idatool/disassembly.py:628-683 | a partition's first run is a prefix of the list and the rest partitions the remainder |
| Partition.PartitionEmpty | idatool/disassembly.py:670 | there are no runs exactly when nothing was recorded |
| Partition.NoCutInside | idatool/disassembly.py:632-652 | inside the first run no starts follow its head and no ends precede its last |
| Partition.CutAfterFirst | idatool/disassembly.py:632-652 | the first run ends at an end or before a start |
| Partition.FirstRunLength | idatool/disassembly.py:628-683 | two partitions have first runs of the same length |
| Partition.PartitionUnique | idatool/disassembly.py:628-683 | at most one partition of the list exists for given starts and ends |
| Partition.PartitionIsCut | idatool/disassembly.py:628-683 | every partition is the cut the loop computes |
| Partition.EdgesFrom | idatool/disassembly.py:638-639 | one `(block_start, block_end, dst)` edge per destination, in order |
| Partition.EmitBlocks | idatool/disassembly.py:641-683 | `'Block'` mode yields one `(start, end, instructions)` triple per run, with its first and last address |
| Partition.EmitRunEdges | idatool/disassembly.py:636-639 | a run's `'Map'` edges are exactly the `crefs_map` targets of its last address |
| Partition.EmitEdgesSound | idatool/disassembly.py:636-676 | every yielded edge comes from some run |
| Partition.EmitEdgesComplete | idatool/disassembly.py:636-676 | every edge of every run is yielded |
| Partition.EmitEdges | idatool/disassembly.py:636-676 | the yielded edges are exactly those of the runs (both directions) |
| Partition.ChunksStep | idatool/disassembly.py:631-668 | one instruction of the loop closes its runs and leaves the open run as the step functions say |
| Partition.EmitSnoc | idatool/disassembly.py:633-683 | closing a run appends that run's output |
| Partition.Close | idatool/disassembly.py:633-647 | closing the open run appends its output |
| Partition.YieldEdges | idatool/disassembly.py:638-639 | the yield loop appends one edge per destination |
| Partition.EdgesSnoc | idatool/disassembly.py:638-639 | one more destination yields one more edge |
| Partition.CutBefore | idatool/disassembly.py:632-651 | an instruction at a start closes a non-empty open run and then opens the next run with it |
| Partition.CutAfter | idatool/disassembly.py:652-668 | an instruction at an end closes the open run |
| Partition.CutStep | idatool/disassembly.py:631-668 | one pass of the loop closes and opens runs as the step functions say, with their output |
| Partition.StepSplit | idatool/disassembly.py:632-668 | the step is the cut before the instruction followed by the cut after it |
| Partition.CutAndEmit | idatool/disassembly.py:628-683 | the second phase yields the output of the cut runs, all non-empty |
| EdgeMaps.ValuesOfMembers | idatool/disassembly.py:711-714 | a key's list holds exactly the values paired with it |
| EdgeMaps.GroupMember | idatool/disassembly.py:711-718 | `v` is listed under `a` exactly when `(a, v)` was yielded |
| EdgeMaps.ValuesOfOutside | idatool/disassembly.py:711-712 | a key never yielded has no values |
| EdgeMaps.ValuesOfSnoc | idatool/disassembly.py:714 | one more pair appends its value to its own key only |
| EdgeMaps.KeysSnoc | idatool/disassembly.py:711-712 | one more pair adds its key |
| EdgeMaps.GroupSnoc | idatool/disassembly.py:711-718 | one more pair appends to its key's list, creating it when missing |
| EdgeMaps.ForwardMember | idatool/disassembly.py:710-718 | the forward and backward pairs are the yielded edges, one way round and the other |
| EdgeMaps.MapsSymmetric | idatool/disassembly.py:706-720 | `dst` is in `src_map[src]` iff `src` is in `dst_map[dst]` iff the edge was yielded |
| EdgeMaps.EmittedEdgesSound | idatool/disassembly.py:636-676 | every yielded edge is an edge of a run |
| EdgeMaps.EmittedEdgesComplete | idatool/disassembly.py:636-676 | every edge of a run is yielded |
| EdgeMaps.EmittedEdges | idatool/disassembly.py:636-676 | an edge is yielded iff it is an edge of a run |
| EdgeMaps.ForwardSnoc | idatool/disassembly.py:710-718 | one more edge adds one forward and one backward pair |
| EdgeMaps.Append | idatool/disassembly.py:711-718 | one map append: create the list if missing, then append |
| EdgeMaps.GroupEdges | idatool/disassembly.py:706-720 | the two maps are the grouped forward and backward edges |
| Functions.RunWalk | idatool/disassembly.py:569-583 | the first phase of the function containing `ea` |
| Functions.WalkAtFails | idatool/disassembly.py:573-582 | fails exactly outside every function, naming the address; otherwise the worklist starts at the function's start |
| Functions.GetFunctionInstructions | idatool/disassembly.py:694-698 | returns the instructions of the `'Instruction'` walk |
| Functions.FunctionInstructionsFacts | idatool/disassembly.py:694-698 | succeeds iff `ea` is in a function; every result is the record at its address and passes the filter; the result is the unfiltered result filtered |
| Functions.GetFunctionBlocks | idatool/disassembly.py:700-704 | returns the yielded triples of the `'Block'` walk |
| Functions.FunctionBlocksPartition | idatool/disassembly.py:628-704 | succeeds iff `ea` is in a function; the blocks are the one partition of the recorded instructions at the walk's starts and ends, one `(first, last, run)` triple per run |
| Functions.FunctionEdgesShape | idatool/disassembly.py:628-683 | `'Map'` mode yields only edges, exactly the `crefs_map` edges of the runs' last addresses |
| Functions.GetFunctionMap | idatool/disassembly.py:706-720 | returns the grouped `src_map` and `dst_map` |
| Functions.FunctionMapEdges | idatool/disassembly.py:706-720 | `dst` is in `src_map[src]` iff `src` is in `dst_map[dst]` iff some run starting at `src` ends at an address whose `crefs_map` lists `dst` |
| Functions.GetFunctionCallRefs | idatool/disassembly.py:728-744 | returns the call sites, indirect sites and filtered instructions of the filtered walk |
| Functions.FunctionCallRefsFacts | idatool/disassembly.py:728-744 | `(addr, t)` is a call ref iff the instruction at `addr` has a `Call` reference to `t`; `(addr, ops)` is an indirect site iff that instruction is flagged with those operands; the instructions are the filtered walk |
| CallRefsLoop.AddCalls | idatool/disassembly.py:737-739 | appends one `(address, target)` per `Call` reference |
| CallRefsLoop.SortCallRefs | idatool/disassembly.py:733-744 | the loop computes the call sites, indirect sites and filtered instructions |
| CallRefsLoop.CallsFromMembers | idatool/disassembly.py:737-739 | the pairs from one instruction are exactly its `Call` targets |
| CallRefsLoop.CallSitesMembers | idatool/disassembly.py:733-739 | a pair is a call site iff some instruction at that address has that `Call` reference |
| CallRefsLoop.IndirectSitesMembers | idatool/disassembly.py:734-735 | a pair is an indirect site iff some flagged instruction has that address and those operands |
| CallTree.FindUtilityFunctions | idatool/disassembly.py:1211-1220 | the utility set is the function starts with at least `threshold` incoming references |
| CallTree.GrowsMeasure | idatool/disassembly.py:1236-1239 | growing the tree never increases the unexpanded count |
| CallTree.MarkShrinks | idatool/disassembly.py:1239 | marking a new function as expanded shrinks the count, so the recursion ends |
| CallTree.Expand | idatool/disassembly.py:1229-1250 | one `GetCallRefs` call only appends records and expanded functions |
| CallTree.Calls | idatool/disassembly.py:1249-1250 | the callee loop only appends records and expanded functions |
| CallTree.TreeWalker.constructor | idatool/disassembly.py:1223-1225 | the three accumulators start empty |
| CallTree.TreeWalker.AddLeafRecords | idatool/disassembly.py:1242-1247 | the leaf loop appends the leaf records or fails |
| CallTree.TreeWalker.GetCallRefs | idatool/disassembly.py:1229-1250 | the closure turns the state into `Expand` of it |
| CallTree.GetFunctionTree | idatool/disassembly.py:1222-1255 | returns the specified records and per-function instructions |
| CallTree.LeavesShape | idatool/disassembly.py:1242-1247 | the leaf loop succeeds iff every site's text does, appends exactly one `(level, text, 0, caller)` per site in order, and changes nothing else |
| CallTree.ExpandKeeps | idatool/disassembly.py:1233-1250 | expansion keeps the invariant: each function expanded once, never a utility function, an instructions entry per expanded name |
| CallTree.MarkKeeps | idatool/disassembly.py:1239-1241 | marking a non-utility function keeps the invariant |
| CallTree.CallsKeeps | idatool/disassembly.py:1249-1250 | the callee loop keeps the invariant |
| CallTree.ExpandRecordsFirst | idatool/disassembly.py:1230-1237 | every call appends its `(level, name, ea, call_ea)` record first; a utility or already expanded function gets only that record |
| CallTree.CallsRecords | idatool/disassembly.py:1249-1250 | every direct callee is visited with its record |
| CallTree.ExpandExpands | idatool/disassembly.py:1239-1247 | a fresh non-utility function is in a function, becomes the next expanded one, and its indirect sites follow its record as `level+1` leaves in order |
| CallTree.ExpansionShape | idatool/disassembly.py:1239-1247 | after marking and the leaf loop, the expanded function and its leaves sit right after the caller's record |
| CallTree.ExpandVisitsCalls | idatool/disassembly.py:1249-1250 | every direct callee of an expanded function is visited at `level+1` |
| CallTree.ExpandUnfold | idatool/disassembly.py:1239-1250 | one expansion is: mark, store instructions, add the leaves, then visit the callees |
| CallTree.CallRefsInFunction | idatool/disassembly.py:728-744 | call refs succeed only inside a function |
| CallTree.FunctionTreeRoot | idatool/disassembly.py:1252-1253 | the first record is `(0, name, root, root)`; a utility root yields only it; a non-utility root outside functions fails; every instructions key names an expanded non-utility function |
| Loops.FirstIndex | idatool/disassembly.py:860-864 | the index loop finds the first occurrence, or the length when there is none |
| Loops.UnvisitedShrinks | idatool/disassembly.py:876-880 | extending the path by a new node shrinks the unvisited nodes, so the recursion ends |
| Loops.EnumeratePaths | idatool/disassembly.py:859-882 | the recursive enumeration computes the specified loop list |
| Loops.Suffix | idatool/disassembly.py:870 | a suffix of a distinct, chained path is distinct and chained |
| Loops.ClosedLoop | idatool/disassembly.py:869-870 | a recorded suffix is a cycle reached from the root |
| Loops.SuffixFromRoot | idatool/disassembly.py:870 | a path suffix is reachable from the root |
| Loops.PathStep | idatool/disassembly.py:879-880 | extending the path along an edge keeps it a path from the root |
| Loops.EnumerateSound | idatool/disassembly.py:859-882 | enumeration only adds loops, and each is a cycle (distinct nodes, consecutive edges, closing edge) reached from the root; loops are never duplicated |
| Loops.ChildrenSound | idatool/disassembly.py:879-881 | the child loop keeps the same soundness |
| Loops.LoopsOfSound | idatool/disassembly.py:859-882 | per-root loops are sound and distinct, and empty when no cycle is reachable from the root |
| Loops.TwoNodeLoop | idatool/disassembly.py:859-882 | `{A:[B,C], B:[A]}` from A gives exactly `[[A,B]]` |
| Loops.Roots | idatool/disassembly.py:887-892 | a root is exactly a key of `src_map` that is not a key of `dst_map` |
| Loops.FindFunctionLoops | idatool/disassembly.py:884-903 | returns the specified concatenation of per-root loops |
| Loops.FindRoots | idatool/disassembly.py:887-892 | the root loop computes the roots in key order |
| Loops.CollectLoops | idatool/disassembly.py:899-901 | the per-root loop concatenates each root's loops |
| Loops.RootsSnoc | idatool/disassembly.py:888-892 | one more key appends it exactly when it is a root |
| Loops.AllLoopsSound | idatool/disassembly.py:899-901 | every loop found is a cycle reached from one of the roots |
| Loops.FunctionLoopsSound | idatool/disassembly.py:884-903 | succeeds iff the map does; every loop is a cycle of `src_map` reached from a root |
| Hashing.AddImmediates | idatool/disassembly.py:822-824 | the operand loop appends the immediate text |
| Hashing.ImmediateTextSnoc | idatool/disassembly.py:822-824 | one more operand appends its `'%x'` text exactly when it is an immediate and immediates are hashed |
| Hashing.GetInstructionsHash | idatool/disassembly.py:815-828 | the digest is the hash function applied to the canonical text |
| Hashing.CanonicalTextSnoc | idatool/disassembly.py:817-824 | one more instruction appends its own text |
| Hashing.ImmediateTextOfImmediates | idatool/disassembly.py:821-824 | the immediate text is the hex join of the immediate values, or `''` when immediates are not hashed |
| Hashing.HexJoinSnoc | idatool/disassembly.py:824 | one more value appends its hex text |
| Hashing.TextDependsOnShape | idatool/disassembly.py:815-824 | lists with equal mnemonics, immediates and DREF emptiness, position by position, have the same text |
| Hashing.RebasedSameShape | idatool/disassembly.py:815-824 | changing addresses, rva and references (keeping DREF count) keeps an instruction's shape, so the text is invariant under rebasing |
| Hashing.DataReferencesHideImmediates | idatool/disassembly.py:821 | an instruction with data references contributes only its mnemonic |
| Hashing.TextOfConcat | idatool/disassembly.py:817 | the text of a concatenation is the concatenation of the texts |
| Hashing.NothingHashed | idatool/disassembly.py:818-823 | with empty `hash_types` the text is `''` |
| Hashing.GroupByHash | idatool/disassembly.py:1069-1080 | the first loop builds the hash groups |
| Hashing.GenHash2Name | idatool/disassembly.py:1067-1088 | returns the unique-hash index |
| Hashing.GroupsAreWithHash | idatool/disassembly.py:1069-1080 | a hash is grouped iff some eligible entry has it, and its group is those entries in order |
| Hashing.WithHashMembers | idatool/disassembly.py:1070-1077 | a group holds only eligible entries of the list with that hash |
| Hashing.Hash2NameUnique | idatool/disassembly.py:1082-1086 | a hash is in the index iff exactly one eligible entry has it, and then maps to that entry |
| Frames.GetStackArgs | idatool/disassembly.py:549-567 | the frame loop computes the specified arguments |
| Frames.StackScanFinds | idatool/disassembly.py:555-565 | the scan passes the return address iff the frame has a `' r'` member, at its first offset, and then lists the members after it |
| Frames.LastNameBeforeReturn | idatool/disassembly.py:557-565 | without a return-address member the last name is never `' r'` |
| Frames.ReturnOffsetBelow | idatool/disassembly.py:561-563 | the return offset is inside the frame and names `' r'` |
| Frames.MembersAfterOrdered | idatool/disassembly.py:557-560 | each argument is a member name change, at its offset minus the return offset, in increasing order |
| Frames.StackArgsShape | idatool/disassembly.py:549-567 | no return member means no arguments; otherwise the arguments are the named members after it, placed and increasing |
| Notations.FunctionNotations | idatool/disassembly.py:951-977 | the function loop computes the checked addresses or fails |
| Notations.InstructionAddresses | idatool/disassembly.py:964-965 | the loop collects exactly the instructions' addresses |
| Notations.CheckedSnoc | idatool/disassembly.py:954-965 | one more function adds its instructions' addresses or propagates a failure |
| Notations.CheckedFailsOnPrefix | idatool/disassembly.py:954-958 | a failure on a prefix of the functions is the result |
| Notations.ScanSegment | idatool/disassembly.py:929-947 | the segment loop computes the notes of the unchecked addresses it stops at |
| Notations.ScanNotesStep | idatool/disassembly.py:930-947 | one address contributes its notes unless checked, then the scan moves on by item size |
| Notations.SegmentsNotesSnoc | idatool/disassembly.py:927-947 | one more segment appends the notes of its scan |
| Notations.AddressNotes | idatool/disassembly.py:935-945 | computes one address's name, comment and repeatable comment notes |
| Notations.GetNotations | idatool/disassembly.py:920-949 | returns the specified notes, or fails where the checked-address pass fails |
| Notations.InsertNotations | idatool/disassembly.py:1002-1008 | the insert loop adds the rows of the non-reserved notes |
| Notations.SaveNotations | idatool/disassembly.py:979-1017 | succeeds iff the notes do, and then saves them |
| Notations.LoadNotations | idatool/disassembly.py:1019-1065 | returns the specified writes |
| Notations.RowWrites | idatool/disassembly.py:1029-1043 | computes one row's writes |
| Notations.NotesAtName | idatool/disassembly.py:935-937 | `(x-ImageBase, '', 0, 'Name', n)` is among an address's notes iff it is that address with that non-empty, non-reserved true name |
| Notations.ScanNameNotes | idatool/disassembly.py:929-947 | a name note is emitted by a segment scan iff its address is visited, unchecked and has that good name |
| Notations.ScannedSnoc | idatool/disassembly.py:927-930 | an address is scanned by the segments iff an earlier segment or the last one visits it |
| Notations.SegmentsNameNotes | idatool/disassembly.py:927-947 | a name note is emitted iff some segment visits its unchecked address with that good name |
| Notations.ReplayNames | idatool/disassembly.py:1028-1043 | replay sets name `v` at `a` iff `v` is not reserved and some `'Name'` row has rva with `ImageBase + rva == a` and value `v` |
| Notations.RowSetsName | idatool/disassembly.py:1041-1043 | one row sets a name iff it is a non-reserved `'Name'` row at that address |
| Notations.LoadWrites | idatool/disassembly.py:1034-1065 | with empty `hash_types` the writes are the replay; otherwise the load succeeds iff the walks do and writes nothing |
| Notations.LoadNeverSetsReserved | idatool/disassembly.py:1042-1043 | no reserved name is ever set |
| Notations.SaveKeeps | idatool/disassembly.py:997-1008 | saving keeps old rows, adds only non-reserved `'FunctionHash'` rows, and saving again adds nothing |
| Notations.NameRoundTrip | idatool/disassembly.py:936-943 | a good name at a scanned address is emitted, saved, and replayed as `SetName(a, name)` |
| Text.DigitsRoundTrip | idatool/disassembly.py:824 | the `'%x'`/`'%d'` text of a number reads back as the number |
| Text.DigitsInjective | idatool/disassembly.py:870 | the `'%d'` text of a number determines the number: different numbers print differently |
| Text.StripShape | idatool/list.py:85 | `strip()` removes only whitespace and leaves no whitespace at either end |
| Text.TokensShape | idatool/list.py:22 | every `split()` token is non-empty and blank-free |
| Text.Fields | idatool/list.py:26 | `split(':')` has at least one field and no field contains `:` |
| Text.FieldsHasSecond | idatool/list.py:26 | the second field exists iff the token has a colon, and the first is the text before it |
| Listing.NonBlankRun | idatool/list.py:51 | the run of non-blanks is maximal |
| Listing.BlankRun | idatool/list.py:43 | the run of blanks is maximal |
| Listing.FirstSeparator | idatool/list.py:84 | the first `', [ \t]+'` match, with none before it |
| Listing.StripAll | idatool/list.py:84-86 | one stripped operand per field |
| Listing.StripAllSnoc | idatool/list.py:84-86 | one more field appends its stripped text |
| Listing.ReadBytes | idatool/list.py:60-70 | the byte loop computes the specified bytes and rest |
| Listing.ReadOperands | idatool/list.py:82-87 | the operand loop computes the stripped fields |
| Listing.ParseLine | idatool/list.py:48-89 | `parse_line` computes `ParseLineSpec`: a failure without an address field (`ParseFailsWithoutAddress`), `None` exactly on a label or comment line (`LabelIsNone`), and otherwise the address, bytes, `Op` and `Operands` of `ParseLineShape`, whose split loses nothing (`SplitJoin`) |
| Listing.RunNext | idatool/list.py:17-38 | a successful line moves the loop to the next line |
| Listing.RunStops | idatool/list.py:17-38 | a failing line stops the loop with that error |
| Listing.Parser.constructor | idatool/list.py:8-10 | `Entries` starts empty |
| Listing.Parser.Parse | idatool/list.py:12-40 | parsing appends the entries of the specified run, or stops with its error |
| Listing.Parser.GetNames | idatool/list.py:91-96 | one name per entry, in `Entries` order |
| Listing.Parser.GetBytes | idatool/list.py:98-107 | the in-order bytes of every parsed line of every entry with that name |
| Listing.AddressExists | idatool/list.py:51-54 | the address matches iff the line starts with a non-blank and has a blank |
| Listing.AddressSplit | idatool/list.py:51-57 | `Address` is the first non-blank run plus the blanks after it, ending before a non-blank |
| Listing.BlankRunFrom | idatool/list.py:51 | the blank run after a position is maximal |
| Listing.HexBytesShape | idatool/list.py:60-70 | one byte per consumed `"XX "` pair, each the pair's hex value, stopping at the first non-pair |
| Listing.PairParses | idatool/list.py:62-67 | a printed pair parses back to its byte |
| Listing.HexBytesRoundTrip | idatool/list.py:60-70 | the pairs of a byte list, before a non-pair rest, parse back to the list and rest |
| Listing.StripStripped | idatool/list.py:85 | stripping is idempotent |
| Listing.NoSeparatorAnywhere | idatool/list.py:84 | a field with no first separator has no separator at all |
| Listing.BeforeFirstSeparator | idatool/list.py:84 | the text before the first separator has none |
| Listing.SplitAtEverySeparator | idatool/list.py:84 | no field of the split holds a separator |
| Listing.SplitSingle | idatool/list.py:84 | the split has one field iff there is no separator |
| Listing.SeparatorMatch | idatool/list.py:84 | a separator starting at a position is a `, [ \t]+` text taken with all its blanks |
| Listing.SplitStep | idatool/list.py:84 | one step of the split: the piece before the leftmost separator, that separator, then the split of the rest |
| Listing.SplitJoin | idatool/list.py:84 | the pieces, with the dropped separators between them, make up the text again; there is one separator fewer than pieces |
| Listing.SplitSeparators | idatool/list.py:84 | each dropped separator matches `, [ \t]+` with all its blanks, so no piece after the first starts with a blank |
| Listing.OneSpaceDoesNotSplit | idatool/list.py:84 | `"a, b"` stays one operand while `"a,  b"` splits in two |
| Listing.ParseFailsWithoutAddress | idatool/list.py:51-54 | parsing fails iff the address pattern does not match |
| Listing.ParseLineShape | idatool/list.py:49-89 | a parsed line keeps the line, its address prefix and the bytes read after it; its `Op` is the blank-free token after the bytes and blanks (absent when nothing follows), and its `Operands` are read from the text after that token |
| Listing.LabelIsNone | idatool/list.py:73-77 | a line with an address field parses to `None` iff its token after the bytes ends in `:` or `;` |
| Listing.ParsedMnemonic | idatool/list.py:73-79 | a parsed `Op` is non-empty, blank-free and not ending in `:` or `;` (the converse direction is `LabelIsNone`) |
| Listing.ParsedOperandsStripped | idatool/list.py:82-87 | every parsed operand is stripped |
| Listing.MnemonicShape | idatool/list.py:71-87 | the mnemonic/operand stage gives a good mnemonic and stripped operands |
| Listing.TokenIsMnemonic | idatool/list.py:73-77 | a token not ending in `:`/`;` is a mnemonic |
| Listing.OperandsStripped | idatool/list.py:82-87 | the operand list is stripped |
| Listing.StripAllStripped | idatool/list.py:84-86 | every stripped field is stripped |
| Listing.RunStep | idatool/list.py:17-38 | one line of the loop |
| Listing.RunProc | idatool/list.py:24-28 | a `proc` line opens an entry named by token 1 at the text after token 0's colon, discarding open lines |
| Listing.RunEndp | idatool/list.py:29-36 | an `endp` line in a procedure appends the entry and closes it |
| Listing.StepBody | idatool/list.py:37-38 | a body line in a procedure appends its parse |
| Listing.BodyRun | idatool/list.py:37-38 | body lines append their parses in order |
| Listing.ProcEntry | idatool/list.py:22-38 | `proc`, body, `endp` appends exactly one entry with the body's parses |
| Listing.ProcCloses | idatool/list.py:29-38 | an open procedure's body and `endp` append its entry |
| Listing.OutsideIgnored | idatool/list.py:29-38 | outside a procedure, lines other than `proc` change nothing |
| Listing.ShortLinesIgnored | idatool/list.py:23 | lines of at most two tokens change nothing |
| Listing.BytesOfConcat | idatool/list.py:98-107 | the bytes of concatenated entries are the concatenated bytes |
| Listing.BytesOfSingle | idatool/list.py:100-106 | one entry's bytes are its parsed lines' bytes, skipping `None` |
| Listing.OneProcedure | idatool/list.py:12-40 | one procedure parses to one entry whose bytes are its lines' bytes |

## Left out

- The IDA API is not modelled. The database is the `Backend` value: flags, item sizes, decoding, mnemonics, references, names and comments, segments, functions, frames, register names, `tag_remove` and the disassembly text. `IsReserved`, `GetRegName`'s resolver and segment names are uninterpreted functions.
- SHA-1 (`hashlib.sha1`) is a foreign call. `Hashing.GetInstructionsHash` takes the hash function as a parameter and is proved against the canonical text.
- sqlite3 is not modelled. The `Notations` table is a set of rows, so the unique constraint makes a second insertion a no-op. `LoadNotations` reads the rows as a sequence, and its `Cmt.Set`/`SetName` calls are returned as a list of actions. Connection errors are not modelled.
- File I/O is not modelled. `list.py` reads a sequence of lines, and `readline`'s `''` (end of file) is the end of the sequence. `print` and logging are not modelled.
- `Notations.LoadWrites`: the hashed branch of `LoadNotations` is modelled as written, so it writes nothing and no round-trip is claimed for it. `LoadFunctionNameByHashes`, `Export` and `FindLoops` are not part of this model.
- Out of scope: `FindREPatterns`, `GetInstructionsByRange`, `GetStackCalls`, `GetFunctionRefs`, `GetInstructionText`, `GetBlockInstructions`, `GetImports`, `GetIndirectCalls`, `FindUnregonizedFunctions` and `FindImmediateSegmentsRefs`. Some use undefined names or call `append()` with no argument. None of them is used by the core.
- Out of scope: the image-mutating helpers `Redefine`, `MakeFunction`, `PatchBytes`, `WaitAnalysis` and `Exit`, the generators `Addresses`/`GetBytes`, and `PrintOperandStructure`.
- `Operands.GetOperand`: `GetOperand`'s debug path prints an undefined `op` and is not modelled. `math.pow` is integer `Pow2`.
- `Walker.WalkFunction`: it takes the table of decoded records (`Instructions.Decoded`) rather than the database, and is linked to `GetInstruction` by `Instructions.DecodedRecords`. The yields of the `'Instruction'` mode are the recorded list, because both are appended at the same point.
- `Loops.EnumeratePaths`: the shared `loops` dictionary is an insertion-ordered list without duplicates. `str` of the source's address lists is not modelled; the model relies on two different lists printing differently, which is not proved here (`Text.DigitsInjective` covers only a single number). Python 2's `values()` order is unspecified, so the order of loops within a root is the model's insertion order.
- `Instructions.GetInstruction`: it applies the corrected filter `Filters.Match`. Where the source raises `IndexError` (an operand-less instruction, an `'Indirect'` or `'Section'` target, and an `'Op'` test that passes or is absent), it rejects the instruction instead. The raise itself is `Filters.MatchAsWritten`.
- `Walker.WalkFunction`: it records through `Filters.Select`, which uses the corrected `Filters.Match`. A walk that the source aborts with that `IndexError` therefore completes in the model, without the operand-less instruction. `Functions.*` and `CallTree.GetFunctionTree` inherit this.
- `CallRefsLoop.SortCallRefs`: it filters with the corrected `Filters.Match`, so where the source raises `IndexError` at the filter test it leaves the instruction out and returns.
- `CallTree.GetFunctionTree`: its `root` is taken as the already-resolved function address. The source first resolves `ea` with `idatool.util.Function.GetAddress`, which is not part of this model.
- `Loops.FindFunctionLoops`: the iteration order of `src_map.keys()` is a parameter.
- `Listing.Parser.GetBytes`: bytes are `seq<Byte>` rather than a `chr` string, and its debug `print` is not modelled.
- Integer widths are not modelled. Addresses are unbounded naturals, and RVAs are integers.

## Findings

| source | as written | input that shows it | evidently intended | confidence | as-written member | corrected member |
|---|---|---|---|---|---|---|
| idatool/disassembly.py:289-302 | the `'Indirect'` and `'Section'` target tests read `instruction['Operands'][0]` without checking that there is an operand, so an operand-less instruction raises `IndexError` whenever the `'Op'` test passes | an instruction `nop` with no operands against the filter `{'Target': 'Section'}` | an instruction without operands does not match a first-operand target | medium; not executed | Filters.MatchAsWritten | Filters.Match |
