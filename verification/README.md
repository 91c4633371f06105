# Verified models of the kernel's memory management and ACPI interpreter

This project models the parts of the kernel whose correctness rests on invariants that the C code only
assumes or checks at run time: the AML stack machine and its objects, namespace and fields; the lock-free
synchronisation words; the frame allocator and page tables; the kernel heap; and the xHCI producer ring.
`LAI_ENSURE` and `lai_panic` are a `Stopped` (or `Panic`) outcome, and the theorems say which of them can
be reached. Code that works in place is modelled by classes and loops over arrays, maps and sequences;
each such method is proved against a specification, and the promises of the code are lemmas about it.

Where a promise is false of the code, the code is kept as it is and the exact condition is proved.

| file | subject |
|---|---|
| `AmlMachine.dfy`, `AmlBalance.dfy`, `AmlRuns.dfy`, `AmlControl.dfy`, `AmlValues.dfy`, `AmlWitnesses.dfy` | the four stacks of the AML interpreter, one step, whole runs, which code they run, what values it leaves, runs into its faults |
| `Sync.dfy` | AML mutex and counting event as interleaved atomic steps |
| `RefModel.dfy`, `RefHeap.dfy`, `DeepValue.dfy` | reference-counted objects, recursive finalisation, deep copies |
| `HashTable.dfy`, `Namespace.dfy` | the open-addressing index and the namespace as a map of children |
| `Paths.dfy`, `PathPrinting.dfy`, `PathTheorems.dfy` | AML names, textual paths, two resolvers, two printers |
| `Fields.dfy` | bit-field access to operation regions and to buffers |
| `Numbers.dfy` | integer printing and reading |
| `Frames.dfy`, `PageTables.dfy`, `Paging.dfy` | frame bitmap, four-level tables, the address space over both |
| `Tiling.dfy`, `OrderedArray.dfy`, `Heap.dfy` | boundary tags, the ordered index, allocation and freeing |
| `Ring.dfy` | the xHCI producer ring and its controller |
| `Util.dfy` | shared definitions |

## What the code does not do

These are theorems, not remarks; each is stated for all inputs.

- An AML method that falls off its end stops the interpreter exactly when an operand is pending below it
  (`AmlRuns.ImplicitReturnStops`; a run that gets there: `AmlRuns.ImplicitReturnReachable`).
- `BankField` stops exactly when one operand slot is free (`AmlRuns.BankFieldRoom`); the size phase of a
  variable-length package is lost exactly when parsing its size grows a full stack
  (`AmlRuns.PackagePhaseLost`; runs into both are in `AmlWitnesses`); `Continue` in the body of its loop
  changes nothing (`AmlRuns.ContinueIsStuck`).
- A thread in the mutex loop can acquire the mutex within its call if and only if its local copy of the word
  is not "contended", because the copy is not reloaded (`Mutex.AcquireIffNotStale`). An event waiter sleeps
  exactly when three counts are available (`Event.SleepsIffThreeCounts`), and it can complete if and only if
  its copy is not the waiters bit and a count or a thread that can signal is there (`Event.CompletesIff`).
- A rejected duplicate node is still appended to the array of all nodes (`Namespaces.Namespace.Install`).
- The encoded and the printed form of a name resolve alike if and only if no interior segment meets an alias
  or the walk that follows aliases lacks a child (`PathTheorems.ResolversAgree`). A short segment is padded
  at the end of a path but not before a dot, because the dot counts as a name character
  (`PathTheorems.ShortSegment`); the comment at kernel/cpu/lai/core/ns.c:588 promises the padding without
  that condition.
- A buffer field reads back what was stored if and only if it starts on a byte boundary
  (`BufferFields.ReadsBackIffAligned`).
- The frame allocator hands out a page of its region, and keeps its free counter exact, if and only if a
  page from the cursor on is free or the bit after the last page is set (`Frames.Allocator.RequestPage`).
- The memory of a ring fits its last index if and only if the requested size is a positive multiple of 256
  (`Ring.Ring.constructor`); an add keeps the controller in step if and only if the TRBs outstanding, plus
  one if the controller still stands on the link, are fewer than the data slots (`Ring.RoomIsExact`).
- A signed conversion prints a 64-bit number as it is if and only if it is negative and fits 32 bits, or is
  not negative and has bit 31 clear (`Numbers.SignedExact`).
- Freeing with a left merge keeps the heap's index ordered if and only if the grown hole does not outgrow
  its successor in the index (`Heaps.Heap.Free`).

## Model

| member | source | states |
|---|---|---|
| AmlBalance.StepKeeps | kernel/cpu/lai/core/exec.c:1382-1875 | every step on every kind of item keeps the balance of the four stacks, and no internal check is the reason that it stops |
| AmlBalance.ParseKeeps | kernel/cpu/lai/core/exec.c:1924-3650 | every opcode class, in every parse mode, keeps the invariant: operands within arity and mode, contexts and blocks matching their items |
| AmlBalance.UnwindKeeps | kernel/cpu/lai/core/exec.c:2392-2446 | popping nested conditions and loops keeps the invariant and removes exactly their blocks |
| AmlBalance.PackageKeeps | kernel/cpu/lai/core/exec.c:1491-1542 | all three package phases keep the invariant, although the phase may be lost in a reallocated stack |
| AmlBalance.InvokeKeeps | kernel/cpu/lai/core/exec.c:1583-1656 | an invocation either waits for another argument or is replaced by a method item with its context and block |
| AmlBalance.ReturnKeeps | kernel/cpu/lai/core/exec.c:1657-1725 | a return unwinds to its method and leaves exactly the result the caller wants |
| AmlRuns.RunKeeps | kernel/cpu/lai/core/exec.c:1318-1341 | the invariant holds at the end of every run of any length, and no run stops on an internal check |
| AmlRuns.PopulateBalanced | kernel/cpu/lai/core/exec.c:3652-3681 | an error-free run over a table ends with all four stacks empty |
| AmlRuns.EvaluateBalanced | kernel/cpu/lai/core/exec.c:3684-3757 | an error-free run of an AML method ends with exactly one operand, an object |
| AmlRuns.Interpreter.ExecRun | kernel/cpu/lai/core/exec.c:1318-1341 | the run loop computes the specified run |
| AmlRuns.Interpreter.PopulateTable | kernel/cpu/lai/core/exec.c:3652-3681 | the checks after the loop hold whenever it ends without an error |
| AmlRuns.Interpreter.EvaluateMethod | kernel/cpu/lai/core/exec.c:3684-3757 | one operand is on the stack at the end and is popped; the interpreter is idle again |
| AmlRuns.OperandDiscipline | kernel/cpu/lai/core/exec.c:1457-1873 | frames never decrease going up the stack; each item holds between its least and greatest number of operands, each tagged as its mode demands; node and operator items hold at most six, so mode indexing is in range |
| AmlRuns.ContextDepth | kernel/cpu/lai/core/exec.c:1382-1420 | context depth is the number of populate and method items |
| AmlRuns.BlockDepth | kernel/cpu/lai/core/exec.c:1382-1420 | block depth is the number of items that own a block |
| AmlRuns.ImplicitReturnStops | kernel/cpu/lai/core/exec.c:1419-1433 | the implicit return stops if and only if an operand is pending |
| AmlRuns.ImplicitReturnReachable | kernel/cpu/lai/core/exec.c:1419-1433 | a complete run from an idle interpreter that stops there |
| AmlRuns.BankFieldRoom | kernel/cpu/lai/core/exec.c:3022-3041 | the two reservations fall short if and only if exactly one slot was free |
| AmlRuns.PackagePhaseLost | kernel/cpu/lai/core/exec.c:1493-1502 | the advanced phase is lost if and only if the stack was full and the opcode reserves a slot |
| AmlRuns.ContinueIsStuck | kernel/cpu/lai/core/exec.c:2392-2420 | Continue straight in a loop body leaves the whole state as it was |
| AmlControl.ParseFlow | kernel/cpu/lai/core/exec.c:1924-3650 | every instruction commits the address of the next one, leaves its level, or does not end; items and blocks below are as they were, and a block that it opens is the one it encodes |
| AmlControl.ReadsInside | kernel/cpu/lai/core/exec.c:1924-1956 | a step that depends on the instruction reads it before the limit of the top block |
| AmlControl.StepFlow | kernel/cpu/lai/core/exec.c:1382-1875 | no step on any kind of item changes an item or a block below the top; only conditions and loops move a program counter otherwise than to the next instruction |
| AmlControl.CondRuns | kernel/cpu/lai/core/exec.c:1758-1794 | from the step that decides a condition until its item is popped, the instructions read at its level are those of the branch that the value selects, in order from its first and within its range; without an else branch there are none |
| AmlControl.IfRuns | kernel/cpu/lai/core/exec.c:2452-2487 | from the instruction on that opens a condition: the predicate from the start of the body, its value, then the rest of the body or the else branch, over any run |
| AmlControl.WhileRuns | kernel/cpu/lai/core/exec.c:2369-2391 | from the instruction on that opens a loop: predicate, body up to the limit, predicate again, until the value is false or the loop is left; nothing outside the loop is read at its level |
| AmlControl.LoopRuns | kernel/cpu/lai/core/exec.c:1726-1757 | at the limit of the body the next instruction read at that level is the first of the predicate |
| AmlControl.ScopeRuns | kernel/cpu/lai/core/exec.c:2493-2520 | a scope runs its block from the first instruction in order |
| AmlControl.CallRuns | kernel/cpu/lai/core/exec.c:1583-1656 | a called method runs its code from the first byte in order, up to its limit |
| AmlControl.CallOrOverride | kernel/cpu/lai/core/exec.c:1583-1656 | with all arguments there, an overridden method is done at once and runs no code, and any other is entered with its own context |
| AmlControl.RootRuns | kernel/cpu/lai/core/exec.c:3652-3757 | a table, or a method evaluated from outside, runs its code from the first byte in order, up to its limit |
| AmlControl.ControlInRuns | kernel/cpu/lai/core/exec.c:1318-1341 | the statements on conditions and loops, at every point of every run of the interpreter |
| AmlValues.StepDoes | kernel/cpu/lai/core/exec.c:1924-3650 | what every instruction does in the mode that the top item asks for: one operand, one item with what it owns, or nothing |
| AmlValues.StepSettles | kernel/cpu/lai/core/exec.c:1382-1875 | a step on any kind of item changes no operand below the top item; when items are popped, also by Return, Break and Continue, the lowest of them leaves the result that it owes and nothing else |
| AmlValues.OwedIsPaid | kernel/cpu/lai/core/exec.c:1318-1341 | over any run: when an item is gone, the operands below it are as they were, and its result, if it owes one, is on top |
| AmlValues.ValueRuns | kernel/cpu/lai/core/exec.c:1955-2074 | over any run: when control is back at the item that read an instruction, the operand stack has gained exactly one operand, the value or name that the instruction stands for in that mode, if the mode wants one and the instruction has a value, and nothing otherwise |
| AmlWitnesses.BankFieldStops | kernel/cpu/lai/core/exec.c:3022-3041 | a complete run, with fifteen operands pending, that stops in BankField |
| AmlWitnesses.PackageWaitsAgain | kernel/cpu/lai/core/exec.c:1493-1502 | a complete run after which a package holds its size and still waits for it |
| Mutex.StepKeeps | kernel/cpu/lai/core/exec_impl.h:108-146 | every atomic step of any thread keeps the invariant and fires no assertion |
| Mutex.MutexSafe | kernel/cpu/lai/core/exec_impl.h:108-146 | in every interleaving of any threads: the word is 0, 1 or 3, at most one holder, and a blocked thread means a contended word or a wake still to come |
| Mutex.SleepsIffContended | kernel/cpu/lai/core/exec_impl.h:108-134 | the host call blocks if and only if the word is locked and contended; returning early or timing out changes neither the word nor another thread |
| Mutex.StaleNeverAcquires | kernel/cpu/lai/core/exec_impl.h:108-134 | a thread whose local copy says "contended" never acquires in that call, whatever the others do |
| Mutex.FreshCanAcquire | kernel/cpu/lai/core/exec_impl.h:108-134 | any other thread in the loop has a continuation in which it acquires |
| Mutex.AcquireIffNotStale | kernel/cpu/lai/core/exec_impl.h:108-134 | the two together, as an equivalence |
| Mutex.StaleReachable | kernel/cpu/lai/core/exec_impl.h:108-134 | a run of three threads into that state |
| Event.StepKeeps | kernel/cpu/lai/core/exec_impl.h:151-221 | every atomic step keeps the invariant; only the overflow guard can fire |
| Event.Conservation | kernel/cpu/lai/core/exec_impl.h:151-221 | the invariant over every interleaving |
| Event.EventConserves | kernel/cpu/lai/core/exec_impl.h:151-221 | signals equal waits plus discarded counts plus the current count; waiters bit and count never coexist |
| Event.RunCounts | kernel/cpu/lai/core/exec_impl.h:151-196 | the ghost counters move by exactly the waits and signals that complete, counted by the actions and program counters of the run alone |
| Event.WaitsAreSignalled | kernel/cpu/lai/core/exec_impl.h:151-196 | completed waits, discarded counts and the current count add up to the completed signals, so waits never exceed signals |
| Event.ResetEmpties | kernel/cpu/lai/core/exec_impl.h:204-221 | the atomic step at which a reset returns saw a count of zero or exchanged the whole count for zero |
| Event.ResetReturns | kernel/cpu/lai/core/exec_impl.h:204-221 | in every interleaving, when a reset returns, the count was zero after an atomic step of that same call |
| Event.AnnouncedIsWoken | kernel/cpu/lai/core/exec_impl.h:151-202 | a waiter goes to the host only with the waiters bit set or read, and only a signal that goes on to wake clears the bit |
| Event.SignalWakes | kernel/cpu/lai/core/exec_impl.h:178-202 | a signal that finds the waiters bit returns only after every thread that slept then has been woken, whatever the others do |
| Event.SleepsIffThreeCounts | kernel/cpu/lai/core/exec_impl.h:151-176 | the host call blocks if and only if the word is a plain count of three |
| Event.SleepsDespiteSignals | kernel/cpu/lai/core/exec_impl.h:151-176 | a run in which a waiter sleeps with three counts available and no wake to come |
| Event.StaleNeverCompletes | kernel/cpu/lai/core/exec_impl.h:151-176 | a waiter that read the waiters bit never completes, whatever the others do |
| Event.CompletesIff | kernel/cpu/lai/core/exec_impl.h:151-176 | a waiter at the top of its loop can complete within its call if and only if its copy is not the waiters bit and either a count is there or some other thread is not about to fail the overflow guard |
| Event.StaleReachable | kernel/cpu/lai/core/exec_impl.h:151-176 | a run of two waiters into the state that never completes |
| RefModel.LiveIffReferenced | kernel/cpu/lai/core/internal-util.h:59-68 | under the invariant a head is live if and only if some variable refers to it |
| RefModel.DropRefKeeps | kernel/cpu/lai/core/internal-util.h:64-68 | dropping one reference keeps all counts exact, also in the middle of nested finalisations |
| RefModel.WithoutKeeps | kernel/cpu/lai/core/variable.c:12-17 | freeing a head that nobody refers to keeps all counts exact |
| RefModel.SwappedKeeps | kernel/cpu/lai/core/variable.c:46-51 | exchanging two variables changes no count |
| RefModel.ReachAlive | kernel/cpu/lai/core/variable.c:19-44 | whatever a live head reaches stays alive through a finalisation |
| RefHeaps.Heap.Finalize | kernel/cpu/lai/core/variable.c:19-44 | the variable is empty, counts are exact, what survives is as it was, and every head that is gone was reachable from the dropped value; recursion ends because live heads decrease |
| RefHeaps.Heap.FreePackage | kernel/cpu/lai/core/variable.c:12-17 | the package and all its elements are gone, and every other head that is gone was reachable from it |
| RefHeaps.Heap.Swap | kernel/cpu/lai/core/variable.c:46-51 | the two values change places |
| RefHeaps.Heap.Move | kernel/cpu/lai/core/variable.c:53-59 | the destination holds the source's value unless its package was freed; the source is empty; nothing else changes, except that heads reachable from the old value may be gone |
| RefHeaps.Heap.Assign | kernel/cpu/lai/core/variable.c:61-80 | the destination holds the source's value, for every aliasing, including self-assignment and a package's own element over its last reference; only heads reachable from the old value may be gone |
| RefHeaps.Heap.PackageLoad | kernel/cpu/lai/core/exec-operand.c:19-21 | the element's value is in the destination and counted |
| RefHeaps.Heap.PackageStore | kernel/cpu/lai/core/exec-operand.c:24-26 | the element holds the source's value |
| RefHeaps.Heap.ResizePackage | kernel/cpu/lai/core/object.c:100-118 | kept elements unchanged, new ones empty, cut ones finalised, the package survives, and around it only heads reachable from it may be gone; refused unless it is a package |
| RefHeaps.Heap.FinalizeTail | kernel/cpu/lai/core/object.c:103-105 | the elements beyond the new size are empty, the package is still alive, and only heads reachable from it may be gone |
| RefHeaps.Heap.Create | kernel/cpu/lai/core/object.c:12-67 | a fresh head with count one |
| RefHeaps.Heap.StoreThroughIndex | kernel/cpu/lai/core/exec-operand.c:201-226 | the indexed element holds the object, the package lives, the temporary leaves no reference, and only heads reachable from the element's old value may be gone |
| RefHeaps.Heap.StoreByteThroughIndex | kernel/cpu/lai/core/exec-operand.c:205-214 | one byte of the string or buffer changes and nothing else |
| RefHeaps.Heap.Clone | kernel/cpu/lai/core/object.c:710-733 | an equal value made of fresh heads only, at any depth, also when destination and source coincide; every other slot and head that is still there is as it was, and only heads reachable from the destination's old value may be gone |
| RefHeaps.Heap.CloneTo | kernel/cpu/lai/core/object.c:683-706 | the three clone helpers give a deep copy in an empty temporary and change nothing else |
| RefHeaps.Heap.FillPackage | kernel/cpu/lai/core/object.c:699-706 | after i rounds the first i elements are deep copies that do not contain the new package |
| RefHeaps.Heap.CloneThenStore | kernel/cpu/lai/core/object.c:710-733 | a clone, and then the store of an object into an element of one side if there is one: a store into the copy leaves what any other variable holds as it was before, and a store into what another variable holds leaves the copy as it was made; source and destination may coincide |
| DeepValues.StoreIndependent | kernel/cpu/lai/core/exec-operand.c:201-226 | a store into an element or byte of a head, whatever it frees, leaves every object that does not contain that head, and is still referred to, unchanged at every depth |
| DeepValues.CloneIndependent | kernel/cpu/lai/core/object.c:710-733 | after a clone, also onto the source itself, a store into an old head leaves the copy unchanged, and a store into the copy leaves every older object unchanged |
| DeepValues.KeptUnchanged | kernel/cpu/lai/core/variable.c:19-80 | an object that contains nothing touched and is still referred to is unchanged, however many other heads were freed |
| DeepValues.UnchangedValue | kernel/cpu/lai/core/object.c:710-733 | an unchanged object has the value it had |
| HashTables.ProbeReaches | kernel/cpu/lai/core/util-hash.h:82-89 | probing modulo a power of two reaches every bucket |
| HashTables.FindEmpty | kernel/cpu/lai/core/util-hash.h:70-75 | a free element slot is always found (pigeonhole) |
| HashTables.FindFree | kernel/cpu/lai/core/util-hash.h:81-89 | a free bucket is always found, so the check after the probing loop never fires |
| HashTables.HashTable.Grow | kernel/cpu/lai/core/util-hash.h:13-55 | growing keeps the multiset of pairs |
| HashTables.HashTable.Insert | kernel/cpu/lai/core/util-hash.h:57-90 | exactly one pair more |
| HashTables.HashTable.Advance | kernel/cpu/lai/core/util-hash.h:101-114 | the next round that stops on an element of that hash, or the end of the walk |
| HashTables.HashTable.Get | kernel/cpu/lai/core/util-hash.h:116-127 | the element under the cursor, which is in the table with that hash |
| HashTables.HashTable.Remove | kernel/cpu/lai/core/util-hash.h:129-140 | exactly the pair under the cursor goes |
| HashTables.HashTable.WalkVisits | kernel/cpu/lai/core/util-hash.h:101-114 | a walk visits each live element with the hash exactly once and nothing else |
| Namespaces.HashString | kernel/cpu/lai/core/ns.c:30-36 | the loop computes the recursive hash on wrapping 32-bit integers |
| Namespaces.LookupAgrees | kernel/cpu/lai/core/ns.c:142-151 | a complete search of a table that mirrors a map answers like the map |
| Namespaces.Namespace.constructor | kernel/cpu/lai/core/ns.c:38-46 | nodes that are not installed, each with an empty table of children |
| Namespaces.Namespace.GetChild | kernel/cpu/lai/core/ns.c:142-151 | the walk computes the map lookup |
| Namespaces.GetChildOf | kernel/cpu/lai/core/ns.c:142-151 | the walk computes the child in every tree that has these children |
| Namespaces.Namespace.Install | kernel/cpu/lai/core/ns.c:56-98 | a new name is added to its parent's map; a duplicate changes no children table |
| Namespaces.Namespace.Uninstall | kernel/cpu/lai/core/ns.c:100-132 | only the node leaves its parent's map; neither panic is reached |
| Namespaces.RemoveNode | kernel/cpu/lai/core/ns.c:108-131 | the node is found once in the table and its pair removed |
| Paths.DoResolve | kernel/cpu/lai/core/ns.c:281-349 | the loops compute what an encoded name denotes: scope search, climbing, descent, one alias at the end |
| Paths.ResolvePath | kernel/cpu/lai/core/ns.c:549-608 | the loops compute what a textual path denotes, aliases followed at every segment |
| Paths.NearestScope | kernel/cpu/lai/core/ns.c:289-316 | a scope search answers from the nearest enclosing scope that has the name and misses only if none has |
| Paths.PlainNameFound | kernel/cpu/lai/core/ns.c:189-316 | a plain name denotes the child, alias followed, of the nearest enclosing scope that has it |
| Paths.PlainNameMissing | kernel/cpu/lai/core/ns.c:189-316 | a plain name denotes nothing if and only if no enclosing scope has it |
| Paths.PrefixedName | kernel/cpu/lai/core/ns.c:317-348 | an absolute name, one with a caret, or one of several segments depends on the descent from its start alone |
| Paths.UpIsAncestor | kernel/cpu/lai/core/ns.c:324-330 | climbing k steps leads to the ancestor k levels above, and to the root beyond |
| PathPrinting.StringifyAmlName | kernel/cpu/lai/core/ns.c:206-242 | the buffer holds the printed name; the length assertion never fires |
| PathPrinting.StringifyNodePath | kernel/cpu/lai/core/ns.c:244-279 | the right-to-left loop writes the names from the root down; the room assertion never fires |
| PathPrinting.PrintersAgree | kernel/cpu/lai/core/ns.c:206-279 | the path of a node is the printed form of its absolute name |
| PathTheorems.TextIsSegments | kernel/cpu/lai/core/ns.c:578-607 | joined segments are read back segment by segment |
| PathTheorems.PathRoundTrip | kernel/cpu/lai/core/ns.c:244-279 | the path printed for a node, at any depth and from any context, resolves to that node |
| PathTheorems.ShortSegment | kernel/cpu/lai/core/ns.c:582-591 | a short segment is padded at the end of a path and swallows the dot elsewhere |
| PathTheorems.ResolversAgree | kernel/cpu/lai/core/ns.c:281-349 | encoded and printed forms resolve alike if and only if no interior segment meets an alias or the walk that follows aliases lacks a child |
| PathTheorems.InteriorAliasMisses | kernel/cpu/lai/core/ns.c:335-347 | at an interior alias the encoded name finds nothing |
| PathTheorems.LacksChildMisses | kernel/cpu/lai/core/ns.c:578-607 | the text finds nothing if and only if some segment has no child on the walk that follows aliases |
| PathTheorems.ResolversDiffer | kernel/cpu/lai/core/ns.c:281-349 | a tree and a name for which the text finds a node and the encoded name does not |
| PathTheorems.AmlNameParse | kernel/cpu/lai/core/ns.c:153-193 | the parser computes the specified reading of prefixes, count and segments |
| PathTheorems.ParseEncode | kernel/cpu/lai/core/ns.c:153-193 | parsing an encoded name returns it and consumes exactly its bytes |
| PathTheorems.EncodedAgrees | kernel/cpu/lai/core/ns.c:153-242 | from the bytes, parsing and resolving agrees with printing and resolving |
| Bits.PutAt | kernel/cpu/lai/core/opregion.c:18-30 | the low bits of a value are or-ed in at a bit offset, nothing else changes |
| Bits.GetAt | kernel/cpu/lai/core/opregion.c:32-46 | a run of bits as a value |
| Fields.AccessWidthLegal | kernel/cpu/lai/core/opregion.c:48-89 | the width is legal, and for any-access fields the least power of two that holds the field, up to the cap |
| Fields.DeclaredWidth | kernel/cpu/lai/core/opregion.c:48-89 | the declared access types give one byte and then double, and the field is read and written at that width under the declared update rule |
| Fields.PerformRead | kernel/cpu/lai/core/opregion.c:163-281 | one access unit of a memory-like region, zero extended |
| Fields.PerformWrite | kernel/cpu/lai/core/opregion.c:283-439 | the low bits of a value replace one access unit and nothing else |
| Fields.ReadInternal | kernel/cpu/lai/core/opregion.c:441-468 | for every offset, size and width: exactly the field's bits |
| Fields.WriteInternal | kernel/cpu/lai/core/opregion.c:470-516 | field bits from the source, other bits of touched units by the update rule, nothing else changed |
| Fields.WriteField | kernel/cpu/lai/core/opregion.c:542-559 | the same for an integer or buffer object |
| Fields.ReadField | kernel/cpu/lai/core/opregion.c:518-540 | an integer up to 64 bits, otherwise a buffer, holding the field's bits and zeros above |
| Fields.ReadAfterWrite | kernel/cpu/lai/core/opregion.c:441-559 | reading back returns the bits written, and under Preserve every bit outside the field is unchanged |
| Fields.DeclaredReadAfterWrite | kernel/cpu/lai/core/opregion.c:441-559 | the same for a field given by its declaration; a reserved access type is refused without effect |
| BufferFields.WriteBuffer | kernel/cpu/lai/core/exec-operand.c:390-416 | exactly the field's bits of the buffer change |
| BufferFields.ReadBuffer | kernel/cpu/lai/core/exec-operand.c:418-440 | the bits it returns, in-byte offset not shifted out |
| BufferFields.ReadsBackIffAligned | kernel/cpu/lai/core/exec-operand.c:389-440 | every store is read back if and only if the field is byte aligned |
| Numbers.TextValue | kernel/cpu/lai/core/vsnprintf.c:28-58 | unlimited digits denote the number, in every base |
| Numbers.LimitedValue | kernel/cpu/lai/core/vsnprintf.c:28-58 | n digits denote the number modulo base to the n |
| Numbers.NumFmt | kernel/cpu/lai/core/vsnprintf.c:28-58 | the backwards loops write the sign and the padded digits and stay within the 50-byte buffer |
| Numbers.SignedExact | kernel/cpu/lai/core/vsnprintf.c:28-33 | the text printed for a signed 64-bit number denotes that number if and only if it is negative and fits 32 bits, or is not negative and has bit 31 clear |
| Numbers.PrintSigned | kernel/cpu/lai/core/vsnprintf.c:100-113 | what the code prints for a signed number, and when that text denotes the number |
| Numbers.PutText | kernel/cpu/lai/core/vsnprintf.c:12-19 | text shorter than the room survives; otherwise it is cut and three dots follow |
| Numbers.MutateString | kernel/cpu/lai/core/object.c:445-454 | sixteen digits, no letter among them lower case, not cut |
| Numbers.HexUpper | kernel/cpu/lai/core/object.c:445-454 | every character of the hexadecimal text is a decimal digit or an upper-case letter |
| Numbers.MutateInteger | kernel/cpu/lai/core/object.c:641-660 | the value of the leading hexadecimal digits, at most sixteen |
| Numbers.ToDecimalString | kernel/cpu/lai/core/object.c:336-343 | the decimal digits, at most twenty, not cut |
| Numbers.ToInteger | kernel/cpu/lai/core/object.c:510-550 | hexadecimal after 0x or decimal, modulo 2^64; refused on any other character |
| Numbers.HexRoundTrip | kernel/cpu/lai/core/object.c:445-454 | every 64-bit integer survives hexadecimal printing and reading |
| Numbers.DecimalRoundTrip | kernel/cpu/lai/core/object.c:510-550 | every 64-bit integer survives decimal printing and reading |
| Frames.BitUpdate | kernel/mem/pmm.c:12-14 | setting or clearing a bit changes that bit and no other |
| Frames.ClearInUpdate | kernel/mem/pmm.c:72-98 | setting a clear bit or clearing a set one moves the count of clear bits by one |
| Frames.MetadataReserved | kernel/mem/pmm.c:40-67 | for every region size, statistics and bitmap lie within the reserved prefix, and the prefix within a region that passes the size check |
| Frames.Allocator.constructor | kernel/mem/pmm.c:40-70 | exactly the reserved prefix is taken, the free counter is exact, and the byte after the bitmap is whatever it was |
| Frames.Allocator.Take | kernel/mem/pmm.c:72-91 | the free counter stays exact if and only if the page was free |
| Frames.Allocator.Release | kernel/mem/pmm.c:79-98 | the free counter stays exact if and only if the page was taken |
| Frames.Allocator.ReservePages | kernel/mem/pmm.c:100-103 | exactly the given pages become taken |
| Frames.GrantTakes | kernel/mem/pmm.c:120-135 | as long as a page is left for the scan, with or without a wrap, a request gets a free page of the region and leaves one less |
| Frames.Allocator.RequestPage | kernel/mem/pmm.c:120-135 | the page is the one that the scan reaches next, for every region size; it is in the region, and the counter exact, if and only if a page from the cursor on is free or the bit after the last page is set |
| Frames.RequestBeyond | kernel/mem/pmm.c:120-135 | an allocator of four pages that, asked twice, has handed out the page after the last and no longer counts exactly |
| Frames.Allocator.FreePage | kernel/mem/pmm.c:137-139 | exactly that page becomes free, the counter stays exact, and no fewer pages are left for the scan |
| PageTables.IndicesAreDigits | kernel/mem/vmm.c:31-40 | the four indices are the digits of the page number to base 512, the last table's the lowest |
| PageTables.SameAbove | kernel/mem/vmm.c:31-40 | addresses in one 2 MiB, 1 GiB or 512 GiB range have equal indices from that level up |
| PageTables.IndicesArePage | kernel/mem/vmm.c:31-40 | the four indices determine the 36-bit page number and conversely |
| PageTables.OneWay | kernel/mem/vmm.c:57-102 | walks that end in one last-level table started in one table with equal indices |
| PageTables.LeafOwner | kernel/mem/vmm.c:104-119 | a leaf entry serves exactly one virtual page |
| PageTables.LinkedTranslate | kernel/mem/vmm.c:57-97 | hanging a zeroed table under an absent entry, at any level, changes no translation |
| PageTables.LinkedEntry | kernel/mem/vmm.c:57-97 | nor the last-level entry of any page |
| PageTables.LeafedTranslate | kernel/mem/vmm.c:98-102 | writing a leaf changes the translation of its one page and of no other, large pages included |
| PageTables.OtherStores | kernel/mem/vmm.c:57-102 | a write to a frame that is no table changes no translation |
| Paging.AddressSpace.constructor | kernel/mem/vmm.c:24-29 | the tables found at boot, outside the allocator's region, form a valid address space |
| Paging.AddressSpace.RequestPage | kernel/mem/pmm.c:120-135 | the frame is the next one that the scan reaches and was neither live nor a page table; no frame is lost |
| Paging.AddressSpace.FreePage | kernel/mem/pmm.c:137-139 | exactly that frame becomes free; no frame is lost; ownership and counters stay exact |
| Paging.AddressSpace.WriteFrame | kernel/mem/vmm.c:57-102 | whatever the holder of a live frame writes into it, no translation and no flag changes |
| Paging.AddressSpace.Descend | kernel/mem/vmm.c:59-71 | one directory level: follow or create, without changing a translation, a flag or a live frame |
| Paging.AddressSpace.MapMemory | kernel/mem/vmm.c:42-103 | every offset of the page translates to the physical page plus the offset, every other page as before; exact up to 2^40; of that page's entry only the frame, the present bit and the write bit change, so that its permissions are the old ones, or none, with write added, and the entry of every other page is as it was; a writeable path stays writeable; the frames that became tables are exactly the missing ones, in the order of the scan, and were neither live nor tables; no frame is lost; live frames are untouched |
| Paging.AddressSpace.GetPhysicalAddress | kernel/mem/vmm.c:104-119 | agrees with the hardware's translation wherever the page is present |
| Paging.FlagBits | kernel/mem/vmm.c:143-168 | write, user, no-execute and cache-disable are bits 0 to 3, written and read |
| Paging.FlagsRoundTrip | kernel/mem/vmm.c:143-168 | flags written are flags read |
| Paging.AddressSpace.SetPagePermissions | kernel/mem/vmm.c:127-147 | that page's entry gets the low four bits, each in its own flag; no translation and no other entry changes |
| Paging.AddressSpace.GetPagePermissions | kernel/mem/vmm.c:149-168 | the flags of the page's leaf |
| Paging.AddressSpace.PageSet | kernel/mem/vmm.c:170-173 | the given flags are added on that page only |
| Paging.AddressSpace.PageClear | kernel/mem/vmm.c:175-178 | the given flags are removed on that page only |
| Paging.AddressSpace.GetIdentityPage | kernel/mem/vmm.c:121-125 | the next frame of the scan, live, reached by its own addresses, the other bits of its entry as they were; no frame is lost |
| Paging.AddressSpace.Run | kernel/mem/vmm.c:42-125 | any run of map, request, free and write calls goes on to the first that is not ready: the allocator has done exactly what the log says, each grant the next page of the scan; no frame is lost; no table and no live frame is granted and no live frame becomes a table; translation is the latest mapping of each page; live frames keep what their holders wrote; each page's entry is the one at the start with the frame, present bit and write bit of the calls that mapped it |
| Paging.FreedBetween | kernel/mem/pmm.c:120-139 | two grants of one frame in a run have a release of it between them |
| Paging.TablesGrow | kernel/mem/vmm.c:57-102 | over a log, the page tables are those at the start and those that map calls made, apart from every granted frame |
| Tiling.Covers | kernel/mem/heap.c:148-195 | every byte of the heap lies in exactly one block |
| Tiling.PayloadsApart | kernel/mem/heap.c:148-195 | a payload meets no tag and no other payload |
| Tiling.SplitTiled | kernel/mem/heap.c:173-193 | cutting a block in two keeps the tiling |
| Tiling.MergeTiled | kernel/mem/heap.c:209-217 | joining a block to its left neighbour keeps the tiling |
| Tiling.LeftNeighbour | kernel/mem/heap.c:209-213 | the footer before a block leads to the block on its left |
| OrderedArrays.InsertedOrdered | kernel/lib/array.c:20-37 | insertion keeps the order |
| OrderedArrays.OrderedArray.Insert | kernel/lib/array.c:20-37 | the shifting loop inserts before the first element that is not smaller |
| OrderedArrays.OrderedArray.Remove | kernel/lib/array.c:43-49 | the shifting loop removes that element |
| Heaps.Heap.constructor | kernel/mem/heap.c:77-102 | one hole from the page after the index to the end, indexed |
| Heaps.Heap.FindSmallestHole | kernel/mem/heap.c:50-71 | the first indexed hole that is large enough, -1 if and only if there is none |
| Heaps.FirstIsSmallest | kernel/mem/heap.c:50-71 | in an ordered index the first fitting hole is the smallest |
| Heaps.OrderedGrown | kernel/mem/heap.c:210-217 | growing one listed hole keeps the order if and only if it does not outgrow its successor |
| Heaps.Heap.Allocate | kernel/mem/heap.c:104-196 | a block inside a former hole, every other block in use as before, the whole new state of the tags, tiling kept, index exactly the holes, order kept and smallest hole chosen if ordered; nothing if and only if no hole fits |
| Heaps.Heap.TakePart | kernel/mem/heap.c:169-193 | the front of the hole is the block and the rest an indexed hole |
| Heaps.Heap.TakeWhole | kernel/mem/heap.c:152-181 | a hole with too little left is taken whole |
| Heaps.Heap.Free | kernel/mem/heap.c:198-254 | only that block leaves use; tiling and index stay exact; order kept, after a left merge if and only if the sizes of the hole and the block together do not exceed the size of the hole's successor |
| Heaps.OrderLost | kernel/mem/heap.c:198-217 | three allocations and two frees after which the index is out of order |
| Ring.LookFollows | kernel/dev/usb/xhci.c:114-135 | in step, the controller crosses the link, or finds the ring empty because all is taken, or takes the next TRB in order unless the caller sent a link TRB |
| Ring.RoomIsExact | kernel/dev/usb/xhci.c:114-135 | an add keeps the controller in step if and only if there was room |
| Ring.FullLooksEmpty | kernel/dev/usb/xhci.c:114-135 | after one add without room TRBs are outstanding and the ring looks empty |
| Ring.PlacedHolds | kernel/dev/usb/xhci.c:114-135 | the slots after an add hold the last TRBs with the cycle bits of their laps, and the link |
| Ring.Ring.constructor | kernel/dev/usb/xhci.c:94-107 | the ring is usable if and only if the size is a positive multiple of 256 |
| Ring.Ring.Add | kernel/dev/usb/xhci.c:114-135 | the TRB is appended at the producer's position; type 0 is refused without effect |
| Ring.Drive | kernel/dev/usb/xhci.c:114-135 | over any interleaving and any number of laps the ring is a bounded queue: accepted, received and outstanding TRBs are exactly those of the queue, and off the link the controller finds the ring empty if and only if it has received everything |

## Left out

- AML bytes: instructions reach the stack machine decoded, with the address of the next one, their operand
  classes and the outcome of name resolution and allocation as inputs; operator values are not computed, only
  stack effects and the flow of control.
- AmlControl.CondRuns: that the code read lies in the range from below is stated for decodings in which no
  instruction ends before it starts, as in WhileRuns; order and upper limit need no such condition.
- Host waits: blocking only on an equal value and waking all waiters is the assumed contract; progress is
  not claimed. The overflow guard of the event is an outcome of its own.
- RefHeaps.Heap.Clone: a destination that is a package element must be empty, as it is in
  `lai_clone_package`; objects must be acyclic; overflow of the counters and the bytes after a string's
  terminator are not modelled, and allocation never fails.
- RefHeaps.Heap.ResizePackage: for a variable outside every package only.
- RefHeaps.Heap.StoreByteThroughIndex: an index beyond the bytes, which the code does not check, is excluded.
- HashTables.HashTable.Grow: element, hash and bucket arrays are sequences that are replaced; the sum of
  hash and round is an unbounded integer.
- Paths.DoResolve: trees are values; their children are those that `Namespaces.Namespace` maintains, as
  `Namespaces.GetChildOf` says.
- PathTheorems.AmlNameParse: running out of bytes is reported; the C code has no limit to check against.
- PathTheorems.ResolversAgree: assumes that alias nodes have no children of their own.
- Fields.ReadInternal: accesses of a full 64 bits are excluded, because the code then shifts by 64; regions
  are memory-like (a read returns what was written); index and bank fields are not modelled.
- Numbers.NumFmt: the negation of the least 32-bit integer, which overflows, and paddings that overrun the
  buffer are excluded. Format strings reach the model decoded, and literal text, which the code does not
  count, is left out.
- Frames.Allocator.RequestPage: a scan that never ends, because the stray bit is set and no page from page one
  on is free, is excluded.
- Frames.Allocator.constructor: the choice among memory map entries is left out; the region is page aligned
  and passes the size check, which the code only reports.
- Paging.AddressSpace.MapMemory: needs a walked path without large pages and as many pages left for the scan as
  tables are missing; page-table frames have at most one parent entry; physical memory is identity
  mapped and frame numbers have 28 bits.
- Heaps.Heap.constructor: the page before the first block, which the code leaves as it finds it, holds no
  footer with the magic number.
- Heaps.Heap.Allocate: stops where the heap would have to grow; page-aligned requests are left out.
- Heaps.Heap.Free: blocks that are last or have a free right neighbour are left out, since the right merge
  and the contraction do not keep the tiling; the index must have a free slot.
- Ring.Drive: callers do not add link TRBs, which the controller would follow; `XhciRingGet`, which ignores
  cycle bits, is left out; ring memory is zero at first, and sizes stay below 2^32 bytes.
- Port and memory-mapped input and output, interrupts, PCI, device drivers, the scheduler, power management,
  the EC driver and resource templates.
