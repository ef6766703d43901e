# A verified model of lttng-modules

lttng-modules is the kernel side of the LTTng tracer. This project models its most intricate logic in
Dafny and proves what that logic keeps over all inputs and over all runs:

- the **filter bytecode pipeline**: the abstract-interpretation validator, the in-place specializer and the
  interpreter (`Opcodes`, `Fields`, `Relocation`, `Validator`, `Specializer`, `Interpreter`, `Arithmetic`, `Linked`,
  `Soundness`, `Preservation`, `Safety`), the interpreter's stack with its two cached entries (`Registers`,
  `RegisterRuns`, `Machine`, `Signedness`), what its comparators compute (`Comparisons`), **filter expressions** from
  their bytes to their value on an event (`Expressions`, `ExpressionLinks`, `ExpressionValues`, `ExpressionSteps`,
  `ExpressionRuns`, `ExpressionFilters`), where its promises stop (`Limits`) and programs that show it
  (`Programs`, `Tables`, `RegisterPaths`, `Accesses`, `Counterexamples`, `WrappedIndex`, `MergePoints`), with the
  **string comparison** and the **star-glob matcher** that the interpreter calls (`StringCompare`, `Glob`);
- the **record layout**: reserved sizes against written bytes, and headers against the declared CTF layout
  (`Alignment`, `RecordLayout`);
- the **metadata path**: the JSON generator with a strict reader (`JsonText`, `JsonGen`), and the metadata cache
  with its reader streams (`MetadataCache`, and `MetadataHistory` for what it holds after a run);
- **enablers, events and filters** (`FilterSync`, and `Filtering` for the whole way from attached programs to
  recorded hits), the **tracepoint registry** (`Tracepoints`), the split
  **counters** (`Counters`), and the **captures** of an event notifier with the MessagePack they are packed in
  (`Msgpack`, `Captures`).

Code that the source runs by changing things in place is modelled as methods and classes, each tied by its
postconditions to functions on values; whole-run theorems are proved about those functions. Allocation results,
reservation results, free packet space, field values and the outcome of copying from user space are parameters.

## What is proved

**Programs.** `IsLinked(code, src)` holds when a program, as it stands after relocation, passes validation and then
specialization against an event description. Runs are told in three ways: `RegRun` is the interpreter with its stack
array and the registers `ax`, `bx`, `ax_t`, `bx_t`, which the method `Machine.Interpret` computes; `Run` is the same
instructions on a stack of whole values; `RefRun` is the program as written, which looks symbols up by name, loads by
field type and picks comparators by operand kind.

- For every linked program, every event and every run of the registers, `RegisterRuns.RegisterSoundness` states that
  each dispatched offset is an instruction the validator visited, at the validator's depth, that offsets strictly
  increase, that a run is no longer than the list of visited instructions, and that control never leaves the code.
  `Soundness.ValidatorSoundness` adds the kinds of the operands for the stack of values.
- `Registers.StepExactly` and `RegisterRuns.KeptExactly` state exactly when the registers keep the values, at one
  instruction and along a run. `Signedness.SignsOfRun` states exactly when signed and unsigned are told apart at run
  time as the validator computed them.
- `Preservation.SpecializationPreservesMeaning` states that the rewritten program gives the result of the program as
  written, and `RegisterRuns.RegistersPreserveMeaning` that the registers do, under static conditions.
  `Safety.SafeRunsAgree` adds type and memory safety.
- `Expressions` defines filter expressions (constants, texts and patterns in quotes, fields and contexts by name,
  elements of arrays and sequences, relocated references, comparators, bit and unary operators, casts, AND and OR),
  their typing and their bytes. `Expressions.ValidatorExact` states that the validator accepts the bytes exactly when
  the expression is well typed and fits its stack, `ExpressionLinks.LinkedExactly` that the specializer links them
  exactly when the names resolve, the types suit and its own limits hold, and to which bytes, and
  `ExpressionRuns.ExpressionMeaning` that the interpreter then accepts, rejects or fails as the value of the expression
  on the event calls for. The value (`ExpressionValues.Eval`) is told without the machines: signed integers in their
  order, texts in the order in which they are read, patterns by declarative matching, fields by the first filterable
  one of the name, contexts by the first of the name without `$ctx.`. `ExpressionFilters` spells this out for one field
  and each of the six comparators.
- `Filtering.HitsAreFilteredByMeaning` puts this together with the synchronisation of enablers and events: after any
  history that ends with a synchronisation, the hits recorded are those that some enabler asks for by the reading of
  its programs as written.

**What the code does not promise.** Several natural statements are false of the code. Each has a lemma that
shows a failing input and, where stated, the exact condition:

- the validator's stack holds ten entries and the interpreter's eight, so a validated program can trip the
  interpreter's assertion (`Soundness.OverflowExactly`, `Limits.DeepProgramOverflows`);
- a string does not reach the registers: RETURN after a string reads the verdict of the entry below it, and a push
  over a string or a root next to the top destroys it, unless the register holds the string's address or the root's
  load type (`Registers.StepExactly`, `Counterexamples.StaleVerdict`, `Registers.FirstRootSunk`);
- the comparison of strings goes on behind both terminators when two literals of the program read alike up to a lone
  backslash at the end of each (`StringCompare.OverreadExactly`, `Counterexamples.DanglingLiteralsOverread`);
- the specializer does not pop its abstract stack at LE (`Limits.DepthsAgreeExceptLE`, `Counterexamples.LEFails`), so
  ten comparisons with LE joined by AND do not link, although the validator accepts any number of them
  (`ExpressionLinks.LongConjunction`);
- a comparator with operands of two classes is accepted when the validator does not know the class of a field
  (`Limits.ComparatorExact`): under an integer literal an unsigned enumeration makes it a double comparator, which
  stops on an assertion (`Counterexamples.UnsignedEnumFails`), and under a string literal an integer field makes it a
  string comparator, which reads the integer as a string (`Counterexamples.StringOverIntegerFails`);
- the merge points of the validator do not tell an integer from a string behind an unknown type, so a jump can bring an
  integer where the specializer has seen a string, although every comparator it sees has operands of one class
  (`MergePoints.JumpMisleads`);
- an already specialized glob comparator is accepted with one glob operand (`Limits.GlobTypesExact`,
  `Counterexamples.GlobComparatorFails`);
- complement, and negation of an unsigned integer, leave another signedness than the validator records
  (`Signedness.SignsExactly`, `Counterexamples.ComplementTurnsSigned`);
- an unsigned enumeration of 2^63 or more is captured as a negative number, and a text with a length is captured up to
  its first NUL, wherever that is (`Msgpack.EncodedStands`, `Msgpack.EnumMisread`, `Msgpack.TextMisread`);
- the bound of a constant index into a sequence is eight times too large (`Limits.SequenceBound`);
- the byte offset of a constant index wraps at 64 bits, so an index beyond every sequence reads another element
  (`Limits.IndexExact`, `WrappedIndex.WrappedIndexFails`);
- a relocation with an offset behind the program, or two bytes before its end, is not refused
  (`Relocation.ConfinedExactly`);
- the glob matcher rejects the shortest candidates of a pattern that ends with two stars
  (`Glob.MatcherIsExact`);
- a sum step of one moves nothing to the channel counter (`Counters.UnitBoundExact`), and the overflow flag is
  also set by one increment that does not overflow (`Counters.OverflowFlagExact`) and by ordinary carries from a
  per-CPU cell (`Counters.CarrySetsFlag`);
- a reset that falls inside a put-next leaves a metadata stream ahead of itself (`MetadataCache.OrderExactly`,
  `MetadataCache.OvertakenStreamStalls`);
- a probe registration that runs out of memory can leave an idle tracepoint entry (`Tracepoints.IdleExactly`);
- a failing JSON call can leave a comma or a bracket behind (`JsonGen.FailureLeavesText`).

## Model

| member | source | states |
|---|---|---|
| `Opcodes.DecodeFrame` | include/lttng/bytecode.h:193-219 | an instruction is determined by its own bytes: codes that agree on them decode alike |
| `Opcodes.PatchDecodes` | include/lttng/bytecode.h:193-219 | an overwritten opcode and operand decode to exactly the new instruction, and all other bytes stay as they are |
| `Validator.Validate` | src/lttng-bytecode-validator.c:1983-2032 | the loop over program counter, abstract stack and merge table accepts exactly the programs accepted by the recursive definition; which programs of filter expressions these are is `Expressions.ValidatorExact` |
| `Validator.ValidateInsn` | src/lttng-bytecode-validator.c:1061-1101 | one turn: range check, context check, merge points met and recorded, abstract execution |
| `Validator.MergePointVisited` | src/lttng-bytecode-validator.c:60-98 | acceptance discharges every recorded merge point: its target is visited later with exactly the recorded stack |
| `Validator.SkipTargetVisited` | src/lttng-bytecode-validator.c:1061-1101 | the skip target of a visited AND/OR is a later visited instruction with the stack of the jump |
| `Validator.VisitedOnce` | src/lttng-bytecode-validator.c:1983-2032 | an offset is visited in at most one abstract state |
| `Expressions.ExpressionExact` | src/lttng-bytecode-validator.c:548-1101 | from any state, the validator lands behind the bytecode of an expression with one value of its type on the stack exactly when the expression is well typed, there is room for it, and a jump recorded for its end carries the same stack |
| `Expressions.ComparableIsChecked` | src/lttng-bytecode-validator.c:103-200 | two types may be compared exactly when one is unknown, both are integers, both are texts, or one is a text and the other a pattern and the comparator is == or != |
| `Expressions.ValidatorExact` | src/lttng-bytecode-validator.c:1983-2032 | the bytes of a filter expression are accepted exactly when it is well typed, its names stand in the name table, its value can be returned, and it needs no more than ten entries |
| `Fields.LookupPayload` | src/lttng-bytecode-specialize.c:476-549 | the search finds the one filterable field of that name behind sized fields, at the total slot size of the earlier filterable fields, and fails exactly when there is none |
| `Fields.RelocField` | src/lttng-bytecode.c:188-227 | the relocation search gives the same field and offset whenever it succeeds, and fails only when there is no such field or an earlier field is not of a relocatable type |
| `Fields.LookupUnique` | src/lttng-bytecode-specialize.c:491-545 | at most one index answers to a name, and the lookup is that index with its offset |
| `Fields.SlotsDisjoint` | src/lttng-bytecode-specialize.c:491-545 | slots of different fields do not overlap |
| `Fields.SlotAtOffset` | src/lttng-bytecode-specialize.c:491-545 | the value stored at a filterable field's offset is that field's own |
| `Relocation.ConfinedExactly` | src/lttng-bytecode.c:390-404 | a relocation leaves the code exactly when its offset lies behind the end, where the unsigned distance wraps, or two bytes before the end at a reference that resolves |
| `Relocation.RelocatedDecodes` | src/lttng-bytecode.c:170-420 | inside, only the instruction at the offset changes: a reference becomes the load of what its name resolves to, a symbol stays |
| `Relocation.FieldRefMeaning` | src/lttng-bytecode.c:170-298 | a field reference resolves to the first filterable field of its name, and the load it becomes reads that field's integer or text |
| `Relocation.ContextRefMeaning` | src/lttng-bytecode.c:303-387 | a context reference resolves to the first context called as its name says without a leading $ctx., and the load it becomes reads that context's integer or text |
| `Relocation.ApplyReloc` | src/lttng-bytecode.c:390-420 | the rewriting in place is that of the definition, with its refusals |
| `Relocation.ApplyRelocs` | src/lttng-bytecode.c:480-497 | the loop over the table applies the entries in order up to the first that fails |
| `Relocation.ConfinedStays` | src/lttng-bytecode.c:480-497 | a table whose offsets all lie three bytes or more before the end never leaves the code, whatever it names, and keeps its length |
| `Relocation.SymbolsStay` | src/lttng-bytecode.c:413-419 | a table whose entries all stand at GET_SYMBOL leaves the code as it is |
| `Specializer.PushData` | src/lttng-bytecode-specialize.c:17-58 | a pushed record is aligned, addressable by sixteen bits, and disturbs no earlier record; the push fails exactly when the record would end beyond the largest length |
| `Specializer.ContextUnique` | src/lttng-context.c:54-74 | a name finds a context exactly when that is the first one called as the name says without a leading $ctx., byte by byte, and none exactly when there is none |
| `Specializer.SpecInsnShape` | src/lttng-bytecode-specialize.c:551-1275 | every rewrite keeps the instruction's size and its literal, so boundaries do not move |
| `Specializer.Specialize` | src/lttng-bytecode-specialize.c:551-1275 | the in-place pass over the code buffer leaves the code and data of the recursive definition, or fails exactly where it does |
| `Specializer.SpecFromPrefix` | src/lttng-bytecode-specialize.c:551-1275 | the pass never changes code behind it |
| `Specializer.SpecFromKeepsGids` | src/lttng-bytecode-specialize.c:48-58 | lookup data once pushed stays as it is |
| `ExpressionLinks.ExpressionRewritten` | src/lttng-bytecode-specialize.c:551-1275 | from any state, the specializer takes the bytecode of an expression exactly when its leaves resolve, its operators find types they have a form for, and there is room on the stack and for the records; it leaves these instructions, these types on its stack and these records |
| `ExpressionLinks.LeafRewritten` | src/lttng-bytecode-specialize.c:60-549 | a field, context or element resolves exactly when its declared type is one that can be loaded so, and is loaded by the opcode of that type through a record of its place |
| `ExpressionLinks.LinkedExactly` | src/lttng-bytecode.c:498-507 | the bytes of a filter expression are linked exactly when it is well typed and resolves, its value can be returned, and both passes have room for it; the final bytes and the lookup data are these |
| `ExpressionLinks.NothingLeft` | src/lttng-bytecode-specialize.c:792-825 | without LE the specializer needs exactly the depth that the validator checked |
| `ExpressionLinks.LongConjunction` | src/lttng-bytecode-specialize.c:792-825 | any number of comparisons joined by AND that fits a program is accepted by the validator, and is linked exactly when the comparator is not LE or there are at most nine |
| `Linked.PassesMeet` | src/lttng-bytecode.c:476-507 | at every offset the validator visits, the specializer arrives too, over the same bytes |
| `Linked.InStepInsn` | src/lttng-bytecode.c:476-507 | the final code at such an offset holds the specializer's rewrite of the instruction the validator saw |
| `Linked.WrittenStays` | src/lttng-bytecode-specialize.c:551-1275 | an instruction the pass has left is final, and so is its lookup data |
| `Soundness.KindStep` | src/lttng-bytecode-interpreter.c:1015-1917 | on the stack of values: one dispatched instruction takes operands of the validator's kinds to results of the validator's kinds, and never finds too few operands |
| `Soundness.StepSound` | src/lttng-bytecode-interpreter.c:1015-1917 | on the stack of values: a step keeps the agreement with the validator, moves forward and uses up visited instructions |
| `Soundness.ValidatorSoundness` | src/lttng-bytecode-validator.c:1983-2032 | over whole runs on the stack of values: only visited instructions, at the validator's depth and kinds, never stuck, in increasing order, at most as many steps as visited instructions |
| `Soundness.RunEnds` | src/lttng-bytecode-interpreter.c:1015-1917 | every run ends, and not in a stuck state |
| `Soundness.OverflowExactly` | include/lttng/lttng-bytecode.h:234-242 | the interpreter's capacity assertion trips exactly at a push that the validator visited with eight or more entries |
| `Registers.PushIntExactly` | include/lttng/lttng-bytecode.h:234-242 | a push of an integer keeps all values exactly when the entry next to the top is none, an integer, an object, a string whose address the register holds, or a root whose load type it holds |
| `Registers.PushCellExactly` | src/lttng-bytecode-interpreter.c:1517-1546 | a push of a string or a root keeps all values under the same condition |
| `Registers.FirstRootSunk` | include/lttng/lttng-bytecode.h:58-63 | two integers pushed over the first entry leave a context root, whose load type is 0, and destroy a payload root |
| `Registers.PopKeeps` | include/lttng/lttng-bytecode.h:244-252 | a pop loses nothing: the third entry comes back from the array |
| `Registers.StepExactly` | src/lttng-bytecode-interpreter.c:1015-1917 | from registers that keep a stack of values, an instruction does on them what it does on the values exactly when every push sinks what it can keep, and neither RETURN nor a bit operator finds stale integer types over operands that are no integers |
| `RegisterRuns.RegStepSound` | src/lttng-bytecode-interpreter.c:1015-1917 | whatever the registers hold, a step goes to a visited instruction at the validator's depth, forward |
| `RegisterRuns.RegisterSoundness` | src/lttng-bytecode-validator.c:1983-2032 | over whole runs of the registers, for every linked program: only visited instructions, at the validator's depth, never stuck, in increasing order, at most as many steps as visited instructions |
| `RegisterRuns.RegRunEnds` | src/lttng-bytecode-interpreter.c:1015-1917 | every run of the registers ends, and not in a stuck state |
| `RegisterRuns.KeptExactly` | include/lttng/lttng-bytecode.h:216-252 | the registers keep the values of a whole run, and so their kinds, exactly when no instruction of it is harmed by the cache |
| `RegisterRuns.RegisterKinds` | include/lttng/lttng-bytecode.h:216-252 | when the validator sees an integer, or nothing, next to the top at every push, the registers keep the values and kinds of every run |
| `RegisterRuns.RegistersPreserveMeaning` | src/lttng-bytecode-interpreter.c:860-1947 | a linked program that meets the static conditions on jumps, comparators, pushes and returns accepts, rejects or fails in the registers as it does when read as written, whatever the fresh array holds and wherever that reading stays inside the event |
| `Machine.Estack.Push` | include/lttng/lttng-bytecode.h:234-242 | the registers after a push, with the overwritten entry of the array |
| `Machine.Estack.Pop` | include/lttng/lttng-bytecode.h:244-252 | the registers after a pop |
| `Machine.Estack.Dispatch` | src/lttng-bytecode-interpreter.c:1015-1917 | the dispatch on array and registers, with its calls of the string routines, is the turn of the register machine |
| `Machine.Interpret` | src/lttng-bytecode-interpreter.c:860-1947 | on a linked program the unchecked loop ends with the result of the register machine and is never stuck; for filter expressions that result is `ExpressionRuns.ExpressionMeaning` |
| `Comparisons.IntegersCompared` | src/lttng-bytecode-interpreter.c:1170-1240 | an integer comparator leaves 1 when its operands as signed integers stand in its relation and 0 otherwise, on values and in the registers, for each of the six |
| `Comparisons.TextsCompared` | src/lttng-bytecode-interpreter.c:1080-1145 | a text comparator does so for the lexicographic order of its operands as they are read, wherever it stays inside them |
| `Comparisons.PatternCompared` | src/lttng-bytecode-interpreter.c:1147-1168 | a pattern comparator does so for the declarative match of its pattern against the other operand, on whichever side the pattern stands |
| `ExpressionRuns.Evaluated` | src/lttng-bytecode-interpreter.c:1015-1917 | at any place in a program and above any integers on the stack, the instructions of a linked expression leave its value on top and go on behind it, or the run ends as the expression fails |
| `ExpressionRuns.ExpressionMeaning` | src/lttng-bytecode-interpreter.c:860-1947 | on every event on which its value stays inside the event, a linked expression of one class of operands at each comparator and at most eight entries is accepted when its value is not zero, rejected when it is, and ends as the value fails otherwise, whatever the fresh array holds |
| `ExpressionFilters.IntegerFilter` | src/lttng-bytecode-interpreter.c:1170-1240 | field, constant, comparator, RETURN is linked, and accepts exactly the events whose integer field stands in that relation to the constant, for each of the six comparators |
| `ExpressionFilters.TextFilter` | src/lttng-bytecode-interpreter.c:1080-1145 | the same for a text field and a text in quotes, whose escapes and star are read as such |
| `ExpressionFilters.PatternFilter` | src/lttng-bytecode-interpreter.c:1147-1168 | the same for a text field and a pattern that does not end with two stars |
| `ExpressionFilters.LogicTruth` | src/lttng-bytecode-interpreter.c:1406-1438 | AND and OR are those of logic on values that are not zero, and leave their second operand alone when the first decides |
| `Signedness.SignsExactly` | src/lttng-bytecode-interpreter.c:1366-1405 | one instruction keeps the register types equal to the validator's signed and unsigned exactly when it is not a complement, a negation of an unsigned integer, or a logical not of one |
| `Signedness.SignsOfRun` | src/lttng-bytecode-validator.c:1339-1952 | along a run the integer types found are those the validator computed exactly when no step is one of those |
| `Safety.InsnIsSafe` | src/lttng-bytecode-interpreter.c:367-476 | on a typed event and safe pointers, an instruction whose operands are of the classes it needs leaves event and program exactly when it compares two literals that end alike with a lone backslash, and leaves only safe pointers exactly when it does not index a sequence at or beyond its length |
| `Safety.NeverWild` | src/lttng-bytecode-interpreter.c:860-1947 | a linked program that meets the static conditions never meets an operand of another kind and never reads outside a typed event or the program, unless it indexes a sequence at or beyond its length or compares two such literals |
| `Safety.SoundLiteralsStay` | src/lttng-bytecode-interpreter.c:115-211 | a program none of whose literals ends with a lone backslash never compares two such literals, so only its indexes are left to watch |
| `Safety.SafeRunsAgree` | src/lttng-bytecode-interpreter.c:860-1947 | on such events and programs the registers give the result of the program as written, which is neither wild nor stuck |
| `Arithmetic.ShiftRightMeaning` | src/lttng-bytecode-interpreter.c:1265-1285 | a right shift is the quotient by a power of two |
| `Arithmetic.ShiftLeftMeaning` | src/lttng-bytecode-interpreter.c:1286-1306 | a left shift is the product with a power of two, in 64 bits |
| `Arithmetic.BitResultMeaning` | src/lttng-bytecode-interpreter.c:1307-1354 | and, or and exclusive or act on every bit |
| `Arithmetic.UnaryMeaning` | src/lttng-bytecode-interpreter.c:1366-1398 | minus is the two's complement negation, NOT is logical, and the complement flips every bit |
| `Arithmetic.ExtendMeaning` | src/lttng-bytecode-interpreter.c:478-729 | a loaded element keeps its value, signed ones in two's complement of their width |
| `Preservation.CompareAgrees` | src/lttng-bytecode-specialize.c:581-615 | on operands of one class the chosen comparator computes what the generic one means; what that is, is `Comparisons.IntegersCompared`, `Comparisons.TextsCompared` and `Comparisons.PatternCompared` |
| `Preservation.LoadAgrees` | src/lttng-bytecode-specialize.c:60-174 | a specialized load yields what the dynamic load of the field's type yields |
| `Preservation.SymbolAgrees` | src/lttng-bytecode-specialize.c:439-549 | an access through the resolved offset or context index yields the field or context the name denotes, which is the one of `Fields.LookupUnique` or of `Specializer.ContextUnique` |
| `Preservation.IndexAgrees` | src/lttng-bytecode-specialize.c:210-325 | an access through the recorded bounds yields the element of that index, or the same error, when the offset does not wrap |
| `Preservation.RunsAgree` | src/lttng-bytecode-specialize.c:551-1275 | from every state both machines can be in, both end alike |
| `Preservation.SpecializationPreservesMeaning` | src/lttng-bytecode-specialize.c:551-1275 | a linked program without LE, with one class of operands at each comparator, without a sequence index that wraps, and with entries of one class and one pointer target on both ways into each jump target, accepts, rejects or fails on the stack of values exactly as the program as written |
| `Preservation.FitsExactly` | src/lttng-bytecode-specialize.c:962-979 | one class and one pointer target is exactly what a value tracked on the one way needs to be known on the other |
| `Limits.DepthsAgreeExceptLE` | src/lttng-bytecode-specialize.c:792-825 | validator and specializer keep the same depth at an instruction exactly when it is not LE |
| `Limits.ComparatorExact` | src/lttng-bytecode-specialize.c:581-615 | a specialized comparator computes what the original does exactly when both operands are of one class |
| `Limits.GlobComparatorExact` | src/lttng-bytecode-interpreter.c:1147-1168 | an incoming glob comparator stays as it is and meets an operand of another kind exactly when one of the two is not a string |
| `Limits.GlobTypesExact` | src/lttng-bytecode-validator.c:677-693 | by the validator's types it is safe for all values exactly when both are strings or globs, while one glob is all that is asked for |
| `Limits.SequenceBound` | src/lttng-bytecode-interpreter.c:387-476 | a constant sequence index reaches the element of the index reduced by the size of the address space; that one passes the guard exactly below eight times the length, and lies in the data exactly below the length |
| `Limits.IndexExact` | src/lttng-bytecode-specialize.c:257-282 | on every sequence the recorded access reaches what the index denotes exactly when the byte offset does not wrap to one that a sequence can hold |
| `Limits.DeepProgramOverflows` | include/lttng/lttng-bytecode.h:234-242 | nine or ten string loads and a return are linked unchanged, and every run, on values and in the registers, trips the capacity assertion |
| `Programs.ListLinked` | src/lttng-bytecode.c:498-507 | a list of instructions that both passes take one by one is, as bytes, a linked program, whose final bytes are those of the rewritten list |
| `Tables.TableRuns` | src/lttng-bytecode.c:498-507 | a table of instructions with the states of both passes is a linked program, and its run and its reading as written are those of the paths through the table |
| `Counterexamples.LEFails` | src/lttng-bytecode-specialize.c:792-825 | 1, "a", "a", LE, EQ, RETURN is linked for any event; as written it accepts, and its run, on values and in the registers, stops on an assertion |
| `Counterexamples.UnsignedEnumFails` | src/lttng-bytecode-specialize.c:604-613 | any unsigned enumeration field, an integer, EQ, RETURN is linked; as written it answers on every event, and its run, on values and in the registers, stops on an assertion |
| `Counterexamples.StringOverIntegerFails` | src/lttng-bytecode-specialize.c:581-603 | any integer field, a string, EQ, RETURN is linked; as written it is an error, and its run, on values and in the registers, reads the integer as a string |
| `Counterexamples.GlobComparatorFails` | src/lttng-bytecode-validator.c:677-693 | an integer, a glob, the specialized glob comparator, RETURN is linked, and its run takes the integer for a string, in the registers what the fresh array holds in its place |
| `Counterexamples.DanglingLiteralsOverread` | src/lttng-bytecode-interpreter.c:165-205 | any two literals that read alike up to a lone backslash at the end of each, EQ, RETURN is linked for any event, and its run goes on behind both |
| `WrappedIndex.WrappedIndexFails` | src/lttng-bytecode-specialize.c:257-282 | any sequence of integers, an index whose offset wraps, LOAD_FIELD, RETURN is linked; as written it is an error, and its run, on values and in the registers, judges the element of the reduced index |
| `WrappedIndex.SmallestWraps` | src/lttng-bytecode-specialize.c:278 | the smallest wrapping indexes are 2^61, 2^62 and 2^63 for 64, 32 and 16 bits, and each reaches the first element |
| `Counterexamples.StaleVerdict` | src/lttng-bytecode-interpreter.c:1028-1060 | an integer, a string, RETURN is linked; as written it is an error, and the registers accept or reject by the integer |
| `Counterexamples.ComplementTurnsSigned` | src/lttng-bytecode-interpreter.c:1366-1372 | an integer, BIT_NOT, RETURN is linked; the validator has U64 before RETURN, and the registers S64 |
| `MergePoints.JumpMisleads` | src/lttng-bytecode-validator.c:42-98 | a linked program of nineteen instructions on any integer field and any string field, whose comparators all have operands of one class for the specializer; as written it is an error on every event, and its run, on values and in the registers, reads an integer as a string |
| `MergePoints.JumpRelocates` | src/lttng-bytecode.c:480-497 | with a table that names the two fields of an event the 55 bytes of the program are relocated to themselves |
| `StringCompare.StackStrcmp` | src/lttng-bytecode-interpreter.c:115-211 | the two-offset loop computes the comparison defined turn by turn, up to a read behind the terminators; its sign is that of `StringCompare.StrCmpOrders` |
| `StringCompare.OverreadExactly` | src/lttng-bytecode-interpreter.c:54-211 | the comparison goes on behind the terminators exactly when both operands are plain literals that read alike up to a lone backslash at the end of each |
| `StringCompare.StrCmpOrders` | src/lttng-bytecode-interpreter.c:54-211 | between any two operands, literals on either side or on both, the sign is zero when a star ends one as a prefix of the other, and otherwise the lexicographic order of the texts as read, an escape of any other character above all characters |
| `StringCompare.ReadingIsDemand` | src/lttng-bytecode-interpreter.c:55-100 | a literal with valid escapes is read as its unescaped text up to its first unescaped star |
| `StringCompare.StrCmpIsLexicographic` | src/lttng-bytecode-interpreter.c:115-211 | between operands that are not plain literals the sign is the lexicographic order of the contents cut at NUL or length, in all three directions |
| `StringCompare.LiteralOnTop` | src/lttng-bytecode-interpreter.c:55-211 | against a plain literal zero means equality with the unescaped literal, or a match up to its first unescaped star; an invalid escape never matches |
| `StringCompare.LiteralBelow` | src/lttng-bytecode-interpreter.c:55-211 | the same with the literal as first operand |
| `Glob.StarGlobMatch` | src/lttng-string-utils.c:110-357 | the loop with one remembered star decides its recursive relation, ends on a lexicographic measure and reads neither string past its NUL |
| `Glob.LoopIsDeclarative` | src/lttng-string-utils.c:110-357 | for a pattern that does not end with two unescaped stars the loop decides the declarative relation, escapes and dangling backslash included |
| `Glob.DoubleStarRejected` | src/lttng-string-utils.c:344-356 | every pattern that ends with two unescaped stars matches its own literals, and the loop rejects them |
| `Glob.MatcherIsExact` | src/lttng-string-utils.c:110-357 | the loop is right on all candidates exactly when the pattern does not end with two unescaped stars |
| `Glob.TestGlobPattern` | src/lttng-string-utils.c:18-47 | the scan classifies a pattern as without star, with one at the end only, or with an earlier one |
| `Glob.ShapeMeaning` | src/lttng-string-utils.c:18-67 | a pattern without star matches its unescaped text alone; one with a final star matches exactly the strings that begin with it |
| `Alignment.OffsetAlignIsMissing` | include/lttng/align.h:36-41 | for powers of two the mask expression is the least amount that aligns the offset, wrap-around included |
| `RecordLayout.Context.Update` | src/lttng-context.c:160-172 | the recorded alignment is again that of the present fields |
| `RecordLayout.Context.Append` | src/lttng-context.c:174-186 | the field is added at the end and the recorded alignment is that of the new list, or nothing changes when the allocation fails |
| `RecordLayout.Context.RemoveLast` | src/lttng-context.c:188-197 | the last field goes and the recorded alignment is that of the rest |
| `RecordLayout.TypeAlignIsPow2` | src/lttng-context.c:118-153 | the largest alignment of a type of power-of-two alignments is a power of two |
| `RecordLayout.TypeMaxAlignIsMax` | src/lttng-context.c:118-153 | the alignment of a type is the largest that is declared anywhere in it |
| `RecordLayout.LargestIsMax` | src/lttng-context.c:160-172 | the recorded alignment is one byte or the largest of the fields' types |
| `RecordLayout.LargestDivides` | src/lttng-context.c:160-172 | every write of the contexts is aligned on a divisor of the recorded alignment |
| `RecordLayout.CtxGetStructSize` | src/lttng-ring-buffer-client.h:91-107 | the context length is that of the writes begun at relative offset zero |
| `RecordLayout.RecordHeaderSize` | src/lttng-ring-buffer-client.h:78-187 | the accumulated size is padding, header, and contexts behind their alignment |
| `RecordLayout.CtxWritten` | src/lttng-ring-buffer-client.h:78-122 | the contexts take at any offset what they take at relative offset zero, behind their alignment |
| `RecordLayout.ReserveEqualsWrite` | src/lttng-ring-buffer-client.h:78-317 | for both header types, all flags, any contexts and any offset, the writes end exactly where the reserved size ends |
| `RecordLayout.Writer.CtxRecord` | src/lttng-ring-buffer-client.h:110-122 | the context writes append the declared pieces at the current offset |
| `RecordLayout.Writer.WriteEventHeader` | src/lttng-ring-buffer-client.h:206-317 | on the fast and the slow path the bytes written are those of the header, the contexts and the payload alignment |
| `RecordLayout.WrittenScans` | src/lttng-ring-buffer-client.h:110-122 | read by their alignments and lengths, the bytes of a list of writes give back every write in its place and leave what follows |
| `RecordLayout.HeaderRoundTrip` | src/metadata-ctf-1-8.c:751-794 | read by the declared layout (CTF 1.8.3, sections 6.1.1 and 6.1.2) a written header gives back the event id, and the full timestamp or its low 27 or 32 bits |
| `RecordLayout.ShortIdIsNotReserved` | src/lttng-ring-buffer-client.h:649-691 | a short header never carries the reserved id 31 or 65535 |
| `JsonText.StringBack` | src/lttng-kernel-mj-gen.c:156-211 | a quoted string is read back as it was, escapes included (RFC 8259, section 7) |
| `JsonText.ValueBack` | src/lttng-kernel-mj-gen.c:218-439 | the text of any value, followed by anything that does not prolong a number, is read as that value by a reader that refuses leading zeros, and leaves what follows (RFC 8259, sections 2, 4, 5 and 6) |
| `JsonGen.StepBuilds` | src/lttng-kernel-mj-gen.c:245-439 | a call succeeds exactly when the tree under construction can be extended that way within the depth, and then the text is that of the trees and the states are those of the open containers |
| `JsonGen.RunBuilds` | src/lttng-kernel-mj-gen.c:245-439 | the same over any sequence of calls |
| `JsonGen.WellFormedOutput` | src/lttng-kernel-mj-gen.c:68-439 | whatever the calls, once all containers are closed the text is the concatenation of complete values, and a single one is read back |
| `JsonGen.EmitReadsBack` | src/lttng-kernel-mj-gen.c:68-439 | emitting a tree succeeds exactly when it nests less than 128 deep, and then its text is read back as that tree |
| `JsonGen.FailureLeavesText` | src/lttng-kernel-mj-gen.c:245-439 | a failed call leaves the text unchanged exactly when it is a closing, or no comma was due and the key was refused |
| `JsonGen.Generator.QuotedStr` | src/lttng-kernel-mj-gen.c:156-211 | the loop that prints stretches between special characters prints the quoted string |
| `JsonGen.Generator.GenWord` | src/lttng-kernel-mj-gen.c:124-264 | comma, key, word and cleared flag, on the array of states |
| `JsonGen.Generator.GenOpen` | src/lttng-kernel-mj-gen.c:381-420 | an opening, with the full stack refused after the bracket is out |
| `JsonGen.Generator.GenClose` | src/lttng-kernel-mj-gen.c:392-439 | a closing, refused unless the innermost container is of that kind |
| `MetadataCache.RunKeeps` | src/lttng-events.c:3253-3312 | over any interleaving the packets of each stream since its last reset concatenate to the first bytes of the cache, and a coherent stream stands at zero or at the end of a whole outermost transaction |
| `MetadataCache.StepKeeps` | src/lttng-metadata-print.c:20-81 | every operation keeps that, across reallocation, nesting, partial packets and failed reservations |
| `MetadataCache.ServeAllDrains` | src/lttng-events.c:3253-3312 | however packets are sized, an idle stream receives the rest in order, and is coherent with all of it once there was room |
| `MetadataCache.OrderExactly` | src/lttng-abi.c:1878-1916 | the consumed position stays at or below the delivered one exactly until a reset falls between the load and the store of a put-next that found something delivered |
| `MetadataCache.RunOrdered` | src/lttng-abi.c:1878-1916 | in every run without such a reset consumed, delivered, written and allocated positions are in order |
| `MetadataCache.OvertakenStreamStalls` | src/lttng-events.c:3270-3273 | after such a reset the store leaves a stream that no output serves |
| `MetadataHistory.TextHistory` | src/lttng-metadata-print.c:46-81 | after any run the text is the concatenation of the strings printed with success since the last regeneration |
| `MetadataHistory.EndsHistory` | src/lttng-metadata-print.c:20-36 | the recorded ends are exactly the lengths of the text at the ends of the outermost transactions since the last regeneration |
| `MetadataHistory.Balance` | src/lttng-metadata-print.c:20-36 | the depth of transactions is the number of begins less that of ends, and there are as many streams as were opened |
| `MetadataHistory.RegenerateClears` | src/lttng-events.c:638-660 | a regeneration waits for the end of transactions; it empties the text and the ends and sets every stream back, keeping the buffer and what a put-next has loaded |
| `MetadataHistory.DumpResets` | src/lttng-abi.c:1898-1916 | a dump sets back exactly the stream it names, and only if that has consumed the whole text, whether or not a put-next is under way |
| `MetadataHistory.OutputCoherence` | src/lttng-events.c:3253-3312 | after an output that had something to hand out, a stream is coherent exactly when it has been handed the whole text; a failed reservation hands out nothing |
| `MetadataHistory.GrowthBounded` | src/lttng-metadata-print.c:52-72 | the buffer grows exactly for a string that does not fit, then at least doubles, and does not exceed twice the new text |
| `MetadataHistory.BufferHistory` | src/lttng-metadata-print.c:52-72 | after any run the buffer is the first one or at most twice a text that the cache has held |
| `MetadataCache.Cache.PrintLen` | src/lttng-metadata-print.c:46-81 | the text is appended, across reallocation, or nothing changes when the allocation fails |
| `MetadataCache.Cache.MetadataEnd` | src/lttng-metadata-print.c:26-36 | the outermost end marks the end of a transaction |
| `MetadataCache.Cache.OutputChannel` | src/lttng-events.c:3253-3312 | the packet, the positions and the flag are those of the state machine |
| `MetadataCache.Cache.PutNext` | src/lttng-abi.c:1878-1884 | undisturbed, the load and the store record all that was delivered as consumed |
| `MetadataCache.Cache.CacheDump` | src/lttng-abi.c:1898-1916 | the stream starts over exactly when it has consumed the whole text |
| `MetadataCache.Cache.MetadataRegenerate` | src/lttng-events.c:638-660 | the clearing of the buffer and the loop over the streams leave the state of the operation, in which the text is empty and every stream starts over (`MetadataHistory.RegenerateClears`) |
| `FilterSync.PlaceSplits` | src/lttng-bytecode.c:575-589 | on a sorted list the backward scan stops after every program of lower or equal priority number and before all others |
| `FilterSync.LinkAllExact` | src/lttng-bytecode.c:542-597 | linking leaves the list sorted and free of duplicates, with everything it had, each program of the enabler, failed links included, and nothing else |
| `FilterSync.LinkAllStable` | src/lttng-bytecode.c:542-597 | programs already linked keep their order |
| `FilterSync.NewGoesAfterEqual` | src/lttng-bytecode.c:575-589 | a new program goes after those of equal priority |
| `FilterSync.RunKeeps` | src/lttng-events.c:2653-2703 | in every run each event's list is sorted and without duplicates, and holds only programs of matching enablers with their link results |
| `FilterSync.FilterMeaning` | src/lttng-events.c:3020-3182 | after any run that ends with a synchronisation a hit is recorded exactly when session and channel are active, the probe can be registered, and some enabled matching enabler has no filter or a program that links and accepts |
| `Filtering.HitsAreFilteredByMeaning` | src/lttng-events.c:3020-3182 | the same with programs given as bytes and run in the registers: a hit is recorded exactly when some enabled matching enabler has no filter or a linked program that accepts the event as written |
| `FilterSync.FindPlace` | src/lttng-bytecode.c:575-589 | the backward loop finds the insertion point |
| `FilterSync.Event.LinkBytecodes` | src/lttng-bytecode.c:542-597 | the loop over an enabler's programs links those not yet linked |
| `FilterSync.Event.RefEvent` | src/lttng-events.c:2653-2703 | an enabled matching enabler is referenced once and its programs linked; others change nothing |
| `FilterSync.Event.SyncFilterState` | src/lttng-events.c:3020-3042 | programs of disabled enablers and failed links are switched off, and filtering is off exactly with an unfiltered enabled enabler or no program |
| `FilterSync.Event.SyncEventList` | src/lttng-events.c:3145-3182 | references, enabled state, registration of the probe and filter state of an event after one pass |
| `FilterSync.Event.Hit` | src/lttng-bytecode-interpreter.c:1953-1976 | a hit is recorded when the event is registered and enabled and filtering is off or some live program accepts |
| `Tracepoints.RunKeeps` | src/lttng-tracepoint.c:163-381 | over any order of operations every reference count is the number of probes plus one for a present tracepoint, probes are unique, the kernel's registrations are exactly the probes of present tracepoints, and the kernel never refused a call |
| `Tracepoints.IdleExactly` | src/lttng-tracepoint.c:163-190 | an entry without references stays behind exactly when it was just made and the probe could not be allocated |
| `Tracepoints.RegisterCodes` | src/lttng-tracepoint.c:163-190 | a registration fails for a duplicate exactly when that probe is there, and for memory exactly when it is not and an allocation it needs fails; no other probe is touched |
| `Tracepoints.UnregisterCodes` | src/lttng-tracepoint.c:192-217 | an unregistration succeeds exactly when the probe is there, which it then is not; no other probe is touched |
| `Tracepoints.RegisteredOnce` | src/lttng-tracepoint.c:163-217 | after any run a probe stands under a name exactly when it was registered with success once more than unregistered |
| `Tracepoints.KernelHistory` | src/lttng-tracepoint.c:163-381 | after any run the kernel runs a probe for a tracepoint exactly when the tracepoint has come and not gone and the probe stands registered under its name, both told by the operations |
| `Tracepoints.RegisterUnregister` | src/lttng-tracepoint.c:163-217 | unregistering right after a successful registration succeeds and restores the kernel's registrations |
| `Tracepoints.AttachAllExact` | src/lttng-tracepoint.c:249-256 | a tracepoint that comes adds exactly its probes to the kernel, without a refusal |
| `Tracepoints.DetachAllExact` | src/lttng-tracepoint.c:277-284 | a tracepoint that goes removes exactly its probes, without a refusal |
| `Tracepoints.Registry.ProbeRegister` | src/lttng-tracepoint.c:163-190 | new table, kernel calls and return code, with duplicates and both allocation failures |
| `Tracepoints.Registry.ProbeUnregister` | src/lttng-tracepoint.c:192-217 | new table, kernel calls and return code, with unknown names and probes |
| `Tracepoints.Registry.TracepointComing` | src/lttng-tracepoint.c:222-260 | the loop over a module's tracepoints and their probes |
| `Tracepoints.Registry.TracepointGoing` | src/lttng-tracepoint.c:263-291 | the same when the module goes |
| `Counters.RunConserves` | include/counter/counter-api.h:24-253 | over any interleaving of compare-and-swap attempts all cells plus remainders in flight equal the total added, modulo the counter's width |
| `Counters.QuiescentSum` | include/counter/counter-api.h:238-253 | with no thread inside, the cells alone hold the total, modulo the width |
| `Counters.UnitBoundExact` | include/counter/counter-api.h:59-76 | a unit increment keeps every per-CPU cell within the sum step exactly when the step is at least two |
| `Counters.RunStaysWithin` | include/counter/counter-api.h:59-76 | so it is over every run of unit increments |
| `Counters.OverflowFlagExact` | include/counter/counter-api.h:89-92 | without a sum step the overflow flag tells mathematical overflow, with one exception |
| `Counters.CarrySetsFlag` | include/counter/counter-api.h:62-92 | with a sum step a unit increment of a cell within it sets the overflow flag exactly when the cell stands at a step of four or more |
| `Counters.PositionInjective` | include/counter/counter-internal.h:31-45 | different in-bounds index vectors address different cells |
| `Counters.PositionInRange` | include/counter/counter-internal.h:31-45 | in-bounds index vectors address cells inside the array |
| `Counters.ValidateIndexes` | include/counter/counter-internal.h:18-29 | the check passes exactly the vectors below every dimension |
| `Counters.GetIndex` | include/counter/counter-internal.h:31-45 | with the strides of creation the loop computes the row-major position |
| `Msgpack.EncodedStands` | src/lib/msgpack/msgpack.c:340-543 | the bytes of an encodable captured value are read back as that value, whatever follows them, exactly when it is neither an unsigned enumeration of 2^63 or more nor a text whose first NUL is not at its length |
| `Msgpack.EncodableExactly` | src/lib/msgpack/msgpack.c:340-543 | a captured value can be encoded exactly when its text has a NUL before, or its sequence fewer than, 2^16 |
| `Msgpack.EnumMisread` | src/lttng-event-notifier-notification.c:75-76 | the unsigned enumeration 2^63 is written like the signed one -2^63, and not read back as itself |
| `Msgpack.TextMisread` | src/lttng-event-notifier-notification.c:337-342 | two characters of a longer buffer are read back with what follows them, and two of which the second is NUL without it |
| `Msgpack.BigEndianBack` | src/lib/msgpack/msgpack.c:125-177 | integers of one, two, four and eight bytes come back from their big-endian form |
| `Captures.NotificationReadsBack` | src/lttng-event-notifier-notification.c:476-540 | whatever the captures yield, the message fits 512 bytes and is read as one array with a value for each program |
| `Captures.WholeExactly` | src/lttng-event-notifier-notification.c:476-540 | with more or fewer programs than captures counted, the message is one whole array exactly when there are enough and the others added nothing |
| `Captures.FoundAt` | src/lttng-event-notifier-notification.c:492-526 | the value at a program's place is empty when there is none that can be encoded and leaves room for the later ones, and otherwise is the captured one exactly when that is neither an unsigned enumeration of 2^63 or more nor a text whose first NUL is not at its length |
| `Captures.FilledFits` | src/lttng-event-notifier-notification.c:469-474 | room for the captures not yet written is kept throughout |
| `Captures.RoomExactly` | src/lttng-event-notifier-notification.c:368-390 | the header and an empty value for each capture fit exactly up to 509 captures |
| `Captures.Send` | src/lttng-event-notifier-notification.c:476-540 | for any number of programs, and with capture evaluation on or off, the loop sends that message, or records an error exactly when the captures cannot all have room |
| `Captures.AppendOne` | src/lttng-event-notifier-notification.c:500-525 | one round keeps the capture or rewinds and writes an empty value, which never fails while there is room for the captures still counted |
| `Captures.Writer.AppendCapture` | src/lttng-event-notifier-notification.c:325-358 | a capture succeeds exactly when it can be encoded and fits, and never touches what was written before |
| `Captures.Writer.CaptureSequence` | src/lttng-event-notifier-notification.c:250-322 | the loop over the elements writes the header and all elements, or fails exactly when they do not fit |

## Left out

- `Preservation.SpecializationPreservesMeaning`: the condition on whole programs is sufficient only, since a program can keep its meaning when the way that breaks it is never taken. It is exact for one comparator (`Limits.ComparatorExact`) and for one entry at a jump target (`Preservation.FitsExactly`), and without it the statement is false (`MergePoints.JumpMisleads`).
- `RegisterRuns.RegistersPreserveMeaning`: the same, and only where the reading stays inside the event; `Safety.NeverWild` says when it does. The exact condition along a run is `RegisterRuns.KeptExactly`.
- `Soundness.KindStep`: on the stack of values, whose integers have no signedness; it allows a halt on an operand of another kind. Signedness is `Signedness.SignsExactly`, and operands of other kinds are `Safety.InsnIsSafe`.
- `Soundness.StepSound`: the same; the step of the registers is `RegisterRuns.RegStepSound`, and when they keep the values is `Registers.StepExactly`.
- `Soundness.ValidatorSoundness`: the same over runs; see `RegisterRuns.RegisterSoundness`, `RegisterRuns.KeptExactly`, `Signedness.SignsOfRun` and `Safety.NeverWild`.
- `Specializer.PushData`: allocation failure, which fails the link like a full buffer, is not modelled.
- `StringCompare.StrCmpIsLexicographic`: characters are unsigned bytes, as in kernels from 6.2 on, which are built with unsigned plain characters; on earlier kernels the order of bytes above 127 depends on the architecture.
- `FilterSync.FilterMeaning`: whether the probe of an event can be registered does not change during a session, and unregistering it succeeds.
- `Registers.StepExactly`: the bits of a string's address are taken as those of no integer and of no root; an integer of an event that equals the address would keep a string that the model counts as destroyed.
- `RegisterRuns.KeptExactly`: the same.
- `Registers.PushIntExactly`: the same.
- `Registers.PushCellExactly`: the same.
- `Msgpack.EncodedStands`: the memory from a string's address on holds a NUL and the length of the string; a text without any NUL behind it is not modelled.
- `Counters.OverflowFlagExact`: only increments without a sum step; with one, unit increments are covered by `Counters.CarrySetsFlag`. The underflow flag is not stated.
- `Expressions.ValidatorExact`: the bytecode of expressions has no opcode that is already specialized, no 16-bit index and no application context; `Limits.GlobTypesExact` covers the incoming glob comparator.
- `ExpressionRuns.ExpressionMeaning`: only where the value stays inside the event (`Safety.InsnIsSafe` says when an instruction does), for operands of one class at each comparator as the specializer finds them, and for at most eight entries; `Limits.ComparatorExact` and `Soundness.OverflowExactly` say what happens otherwise.
- `ExpressionFilters.PatternFilter`: for patterns that do not end with two stars; `Glob.MatcherIsExact` has the others.
- `StringCompare.StrCmpOrders`: bytes are unsigned, as for `StringCompare.StrCmpIsLexicographic`.
- `Filtering.HitsAreFilteredByMeaning`: takes programs that meet the conditions of `RegisterRuns.RegistersPreserveMeaning`; `FilterSync.FilterMeaning` has no such condition.
- Double-precision and application-context opcodes beyond the assertion or error they end in, and variant types.
- Reads of user-space memory, page faults and byte swapping: loads are from kernel memory in native byte order.
- The capture output of the interpreter: captures start from the output value of a program.
- The check before relocation (`lttng_bytecode_validate_load`), which refuses incoming field-reference opcodes: programs are taken as they stand after relocation, so the model links more of them than the code; none of the programs shown has such an opcode. Field offsets are unbounded, not 32 bits wide, and user-space variants of the references are not told apart.
- Sequences of 2^58 elements or more: the length of a sequence in bits fits 64 bits because its data lies in memory.
- The hash tables of the validator and the tracepoint registry: both are maps.
- The ring buffer library: a write appends bytes behind alignment, and padding bytes are zero.
- Alignments of 64-bit fields on 32-bit architectures.
- Per-field size and record callbacks of the contexts: a context is the list of aligned writes it makes.
- Raw text printed by the JSON generator that is not the text of a JSON value, and allocation failures while it prints.
- The creation of events during synchronisation: an event is there from an earlier step with empty lists, which no earlier enabled enabler of the pass would have filled. Allocation failures of references and runtimes are not modelled, nor are capture programs and enabler destruction.
- The nesting counters of the MessagePack writer and the fault of a copy from user space, which counts as a capture that yields nothing.
- Memory ordering, RCU and interrupts: a locked region, an atomic operation or a plain load or store is one step.
- Counter aggregation, clearing and the sticky bitmaps.
- Statedump, system call tables, ID trackers, the clock plugin, kprobes and uprobes, file descriptors and ioctl plumbing: thin wrappers or simple sets that would only add easy members.
