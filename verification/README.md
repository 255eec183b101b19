# Verification of the bundled Lua engines and of the hub's byte streams

A Dafny model of the hardest parts of this repository, with proofs. The Lua part (Lua 5.1, under `lua/`) covers
the incremental garbage collector, the code generator for short-circuit expressions, the hash tables, the
pattern matcher and the open upvalues. The hub part (under `adchpp/` and `baselib/`) covers UTF-8, the parser and
printer of ADC commands, the framing of a client's byte stream, the write queue of a socket, and the streaming
hash.

`dafny verify dfyconfig.toml` checks everything.

## How it is built

Objects whose methods change fields are classes here too, and their methods are proved against specification
functions on values; the properties are then proved about those functions, and about all runs.

- Garbage collector: `GcHeap` (objects, reachability, the tri-colour invariant), `GcSafety` (what holds in every
  phase, and the sweep), `GcMutator` (why the invariants survive what the program does), `GcProgram` (what each
  operation of the program does), `Collector` (the state machine and the program, as one class), `MarkBits` (the
  bits behind the colours). A heap is a map from addresses to objects.
  The program works on the stack of the running thread: it can only get hold of what it can reach.
- Code generator: `LuaCode` (expressions and what they evaluate to, instructions and their machine), `CodeGen`
  (what each function of the generator does), `CodeRuns`, `CodeShape`, `CodeSteps`, `CodeExprs`, `CodeConds`,
  `CodeValues`, `CodeCompile` (why the code means what the expression means), `FuncState` (the generator itself,
  which changes its code in place).
- Hash tables: `TableChains` (the chained scatter table), `TableSizes` (how a rehash counts), `LuaTable` (the
  table itself).
- Pattern matcher: `LuaPatterns` (the matcher as a function), `PatternMeaning` (what a pattern matches),
  `PatternSyntax` (which patterns are well formed, and that the matcher decides every pattern), `MatchState` (the
  matcher itself, which changes its captures in place), `PatternText` (what a pattern means, given as its elements
  and not as a text, and that its text matches just that).
- Open upvalues: `OpenUpvalues`; memory is a map from addresses to upvalues, so that the links can be followed.
- Hub: `Utf8`, `AdcCommand`, `AdcLine` (what a line says, field by field and in numbers), `ClientFraming`,
  `WriteQueue`, `TigerHash`.

The chain of a theorem can be read from the table below: a method's contract says which function it computes or
which state it reaches, and the lemmas named beside it say what that means.

Some results are negative. Each is stated as the exact condition, and has an input at which it fails:
`AdcCommands.RoundTrip` (which commands survive printing; `EmptyFieldLost`), `AdcCommands.AdcCommand.SetFrom` (when
a kept line is out of date; `FormerSenderShown`), `TableSizes.CountedAllElements` (when a rehash counts all elements;
`LastNotCounted`), `Utf8.NarrowRoundTrip` and `Utf8.WideRoundTrip` (`NarrowLost`, `WideLost`),
`ClientFraming.SizeWithinLine` (the size of a command is not limited before it ends; `LongLineKept`) and
`WriteQueues.GivesUp` (the time allowed for an overflow starts again with each buffer; `OverflowStartsAgain`).

What the environment decides is a parameter: the hash functions of strings and keys, the addresses of new
objects, the character classes of the C library, the values of constants and the outcome of comparisons, the
reactions of the hub to a client's lines, the clock and the completions of writes, the compression function of
the hash.

## Model

| member | source | states |
|---|---|---|
| `GcHeap.ReachableStaysInside` | lua/lgc.c:69-112 | a set of objects that holds the roots and is closed under references holds everything reachable; reachability is the independent meaning of what the collector must keep |
| `GcHeap.SameEdgesSameReach` | lua/lgc.c:407-428 | changes that keep the references of what is reachable keep what is reachable |
| `GcHeap.MarkStepTrans` | lua/lgc.c:69-112 | marking steps compose: colours only advance, new grays are on the gray list, nothing outside the given set is marked |
| `GcHeap.VisitUpval` | lua/lgc.c:84-89 | an upvalue is marked and blackened at once if it is closed, and stays gray if open, keeping the tri-colour invariant either way |
| `GcHeap.TakeGray` | lua/lgc.c:277-320 | an object taken off the gray list is the only one that the tri-colour invariant may be broken for until its fields are marked |
| `GcHeap.DoneGray` | lua/lgc.c:277-320 | when all its fields are marked, the tri-colour invariant holds again without that exception |
| `GcHeap.RemarkStep` | lua/lgc.c:515-522 | marking the value of an open gray upvalue makes it done and keeps all those done before |
| `GcHeap.AllTraversedClosed` | lua/lgc.c:525-553 | with the gray lists empty and open upvalues remarked, the marked objects are closed under references |
| `GcSafety.ReachableIsAlive` | lua/lgc.h:69-70 | while the safety invariant holds, no reachable object is missing or has the other white |
| `GcSafety.FlipIsSafe` | lua/lgc.c:546-552 | flipping the whites after a complete mark turns exactly the unmarked objects into dead ones, and no reachable object is among them |
| `GcSafety.AtomicFlips` | lua/lgc.c:525-553 | the atomic step leads from the marking invariant to the sweeping invariant |
| `GcSafety.SweptMeansIdle` | lua/lgc.c:578-592 | when the sweep is through, every object is in the current white |
| `GcSafety.SweepSurvival` | lua/lgc.c:407-428 | a sweep that closes no upvalue but those of threads it frees leaves every reachable object with its kind, contents, references and shared variables |
| `GcSafety.ContentsUsable` | lua/lfunc.c:96-112 | closing upvalues, and freeing dead ones, changes neither what can be reached nor what the reachable objects hold |
| `GcSafety.ClosedAndGone` | lua/lgc.c:378-400 | when the thread whose upvalues were all closed is gone, every other open upvalue is still open where it was |
| `GcSafety.DeadMeansSweeping` | lua/lgc.h:70 | an object can have the other white only while the collector sweeps |
| `GcSafety.Exactly` | lua/lgc.c:636-659 | after finishing the old cycle and a whole new one, what is left is exactly what was reachable or fixed |
| `GcMutator.StoreSafe` | lua/lgc.h:86-97 | storing a live value into an object keeps every reachable object alive, whichever phase the collector is in |
| `GcMutator.StoreMarking` | lua/lgc.h:86-97 | a store into an object that is not black keeps the tri-colour invariant without a barrier |
| `GcMutator.BackToGray` | lua/lgc.c:675-683 | making a black table gray again and putting it on the grayagain list restores the tri-colour invariant after any store into it |
| `GcMutator.Resurrect` | lua/lstring.c:86-90 | giving the current white to a string that is dead but not yet swept keeps every invariant of every phase |
| `GcMutator.AddKeeps` | lua/lgc.c:686-692 | a new object in the current white keeps every invariant of every phase |
| `GcMutator.AddStringKeeps` | lua/lstring.c:50-72 | so does a new string in its bucket, swept or not |
| `GcMutator.AddUpvalKeeps` | lua/lfunc.c:53-79 | so does a new open upvalue, put where it belongs in the list of its thread |
| `GcMutator.FixKeeps` | lua/lstring.h:24 | and so does fixing a string |
| `Collector.GlobalState.ReallyMarkObject` | lua/lgc.c:69-112 | a white object becomes gray or black as its kind requires, what it owns is marked, and the tri-colour invariant is kept |
| `Collector.GlobalState.PropagateMark` | lua/lgc.c:277-320 | traversing one gray object keeps the marking invariant and strictly decreases whites plus grays |
| `Collector.GlobalState.PropagateAll` | lua/lgc.c:323-327 | terminates with an empty gray list and the marking invariant intact |
| `Collector.GlobalState.RemarkUpvals` | lua/lgc.c:515-522 | every open upvalue that is gray has its value marked, also those of threads that are not reachable |
| `Collector.GlobalState.MarkRoot` | lua/lgc.c:501-512 | the start of a cycle establishes the marking invariant for the roots |
| `Collector.GlobalState.Atomic` | lua/lgc.c:525-553 | at the end the marked set is closed under references and holds all roots; the whites are flipped and the sweeps start |
| `Collector.GlobalState.SweepWholeList` | lua/lgc.c:407-428 | a bucket keeps exactly its objects that are fixed or not in the other white, in the current white, in order |
| `Collector.GlobalState.SweepList` | lua/lgc.c:407-428 | the bounded sweep of the root list frees only dead objects, closes no upvalue of a thread that stays, and gets on by forty objects or to the end, although threads close upvalues into the list meanwhile |
| `Collector.GlobalState.FreeObj` | lua/lgc.c:378-400 | freeing an object keeps all invariants; a thread first closes what is open on its stack, and no upvalue of a thread that lives on is closed |
| `Collector.GlobalState.BarrierF` | lua/lgc.c:662-672 | in the propagate phase the white object is marked, and the tri-colour invariant holds again without an exception for the black one; in the sweep phases the black object gets the current white |
| `Collector.GlobalState.BarrierBack` | lua/lgc.c:675-683 | in the propagate phase the tri-colour invariant holds again without an exception for the table, which is to be traversed once more; no mark goes back to white |
| `Collector.GlobalState.LinkUpval` | lua/lgc.c:695-710 | a closed upvalue enters the root list; a gray one becomes black with its value protected while marking, or white while sweeping |
| `Collector.GlobalState.Close` | lua/lfunc.c:96-112 | closing keeps every invariant in every phase, and closes exactly the upvalues of the thread at or above the level; those that are dead are freed, and all others stay as they were |
| `Collector.GlobalState.constructor` | lua/lstate.c:70-82 | the new state satisfies every invariant, so that the runs have a beginning |
| `Collector.GlobalState.ResizeStrings` | lua/lstring.c:22-47 | every string is in the bucket of its hash for the new size; nothing happens while strings are swept |
| `Collector.GlobalState.SingleStep` | lua/lgc.c:556-607 | each step keeps all invariants, follows the order of the phases, changes no object outside the sweeps, closes no upvalue of a thread that stays, and comes nearer to the end of the cycle |
| `Collector.GlobalState.FullGC` | lua/lgc.c:636-659 | from any state it terminates and leaves exactly the objects that were reachable or fixed, unchanged, with upvalues open where they were, all in the current white |
| `Collector.GlobalState.Store` | lua/lgc.h:86-97 | any store with the barrier of its kind keeps all invariants, and kills nothing |
| `Collector.GlobalState.FindString` | lua/lstring.c:75-93 | finds the string with these characters if and only if there is one, and there is only one |
| `Collector.GlobalState.NewString` | lua/lstring.c:75-93 | pushes the string there is, resurrected if need be, or a new one, and changes nothing else the program sees; interning is kept also across a resize |
| `Collector.GlobalState.FindUpval` | lua/lfunc.c:53-79 | the upvalue of the slot, resurrected if need be, or a new one only if there was none |
| `Collector.GlobalState.CaptureUpval` | lua/lvm.c:725-733 | the closure gets the upvalue of the slot as its last one: the one there was, or a new one only if there was none |
| `Collector.GlobalState.PopTo` | lua/lvm.c:636-642 | the stack is cut after exactly the upvalues above have been closed on their values |
| `Collector.GlobalState.StepOnce` | lua/lgc.c:556-607 | between two steps of the program, one step of the collector goes on in the order of the phases and comes nearer to the end of the cycle, marks only what can be reached, and leaves everything reachable as it was; variables that are shared stay shared |
| `Collector.GlobalState.Run` | lua/lgc.c:556-607 | for every interleaving of collector steps, full collections and program steps (allocation, stores with barriers, string lookups, captured and closed upvalues, thread switches), every operation has exactly its effect on the objects and every collector step gets on, and in no state of the run is a reachable object missing or dead |
| `Collector.GlobalState.RunProgram` | lua/lgc.c:556-607 | the same from a new state, with no hypothesis left |
| `GcProgram.StepsEnd` | lua/lgc.c:556-607 | in every run, enough collector steps in a row come to the end of the cycle |
| `GcProgram.CycleIsExact` | lua/lgc.c:556-607 | in every run, a cycle that goes by steps from one pause to the next leaves exactly the objects that were reachable when it began, or fixed, as they were |
| `GcProgram.NamedIsThere` | lua/lgc.c:488-512 | so whatever the program gets hold of next is there: in the slots of the running thread, in the fields of what they hold, as a metatable of a basic type |
| `GcProgram.GetPushes` | lua/lvm.c:423-439 | reading a field pushes it, and reading an upvalue the variable it stands for, in the stack or its own |
| `GcProgram.SetStores` | lua/lvm.c:448-457 | an assignment changes the field, or through an open upvalue the variable in the stack, and no other object |
| `GcProgram.AllocateMakes` | lua/lgc.c:686-692 | the new object has the fields given and is on top of the stack; a new thread shares the globals |
| `MarkBits.IsDead` | lua/lgc.h:69-70 | the bit test for a dead object holds exactly for the white that is not current |
| `MarkBits.OtherWhite` | lua/lgc.h:69 | flips the current white and keeps the bit that saves fixed objects |
| `MarkBits.ChangeWhite` | lua/lgc.h:72 | turns one white into the other and touches nothing else |
| `MarkBits.MakeWhite` | lua/lgc.c:32-35 | gives the current white whatever the colour was, and touches nothing else |
| `MarkBits.White2Gray` | lua/lgc.c:37-40 | turns white into gray and touches nothing else |
| `MarkBits.SweepTest` | lua/lgc.c:415 | the test of the sweep spares exactly what is not in the other white or is fixed |
| `MarkBits.FreeAllTest` | lua/lgc.c:486 | when a state is closed the same test spares only the main thread |
| `MarkBits.MadeWhiteThenFlipped` | lua/lgc.c:416 | what is made white is alive until the whites are flipped, and dead after that unless it is fixed |
| `LuaCode.EvalAgree` | lua/lopcodes.h:139-155 | the value of an expression depends only on the live locals |
| `LuaCode.HoldsInOrder` | lua/lcode.c:781-786 | the six comparison operators are those of the order of the values |
| `LuaCode.RunIsMachine` | lua/lopcodes.h:182-190 | running the code as the structured semantics says is running the machine step by step |
| `LuaCode.RunExtend` | lua/lopcodes.h:182-190 | code that is added behind does not change what runs before it |
| `CodeShape.ConcatList` | lua/lcode.c:185-196 | joining two disjoint lists hidden in jump offsets yields the concatenated list |
| `CodeShape.JoinSeg` | lua/lcode.c:185-196 | the lists of an expression stay finite, acyclic and disjoint when one is joined to another |
| `CodeShape.HereSeg` | lua/lcode.c:179-182 | so do they when a list is made pending for the next instruction |
| `CodeShape.TransSeg` | lua/lcode.c:718-789 | so do they when the code of one expression follows that of another |
| `CodeRuns.PatchRun` | lua/lcode.c:150-160 | patching a list sends exactly the runs that stop at its jumps to their new targets, with the register of a TESTSET filled, and no other run |
| `CodeRuns.ReleaseRun` | lua/lcode.c:163-166 | a run that stops at a jump of a list goes on as the jump says once the list is released |
| `CodeSteps.JoinFlow` | lua/lcode.c:185-196 | what control flow reaches through a joined list is what it reached through either part |
| `CodeConds.GoIfTrueMeans` | lua/lcode.c:539-564 | control falls through exactly when the value is true, and leaves through the f list exactly when it is false |
| `CodeConds.GoIfFalseMeans` | lua/lcode.c:567-591 | the mirror image, with the t list |
| `CodeConds.CodeNotMeans` | lua/lcode.c:594-626 | swapping the lists and dropping their values denotes the negation |
| `CodeValues.FinishMeans` | lua/lcode.c:394-407 | whichever way control comes, the register ends up with the value of the expression |
| `CodeCompile.JoinedMeans` | lua/lcode.c:745-760 | the code of two operands joined by `and` or `or` denotes the operator's value |
| `CodeCompile.ComparedMeans` | lua/lcode.c:681-694 | the code of a comparison denotes it, with its operands exchanged for `>` and `>=` |
| `CodeCompile.Exp2RegMeans` | lua/lcode.c:390-411 | the value of an expression is loaded into a register, and other live registers are kept |
| `CodeCompile.Exp2RKHeld` | lua/lcode.c:444-469 | an operand of a comparison is a constant or a register that holds its value |
| `CodeCompile.CompileMeans` | lua/lcode.c:718-789 | by induction over all expressions, the code emitted and the lists left open denote the expression |
| `CodeCompile.ExpressionToRegister` | lua/lcode.c:472-480 | the code assigns the value of the expression to the register, changes no other register in use, and leaves code emitted before as it was |
| `CodeCompile.ExpressionToNextRegister` | lua/lcode.c:414-419 | the same for a new register on top |
| `CodeCompile.Condition` | lua/lcode.c:539-564 | control goes on exactly when the expression is true, and gets to a jump of the f list exactly when it is false |
| `CodeGenerator.FuncState.GetJump` | lua/lcode.c:100-106 | the next element of the list threaded through the offsets, or the end |
| `CodeGenerator.FuncState.Concat` | lua/lcode.c:185-196 | in place, the two lists are one list |
| `CodeGenerator.FuncState.NeedsValue` | lua/lcode.c:122-128 | whether some jump of the list carries no value |
| `CodeGenerator.FuncState.PatchTestReg` | lua/lcode.c:131-141 | a TESTSET gets its register or becomes a TEST; anything else is left alone, and reported |
| `CodeGenerator.FuncState.PatchListAux` | lua/lcode.c:150-160 | exactly the jumps of the list get targets, exactly its TESTSETs registers, and no other instruction changes |
| `CodeGenerator.FuncState.Jump` | lua/lcode.c:59-66 | the new jump takes over the pending jumps |
| `CodeGenerator.FuncState.InvertJump` | lua/lcode.c:516-521 | in place, the comparison that controls the jump is negated |
| `CodeGenerator.FuncState.JumpOnCond` | lua/lcode.c:524-536 | a test of the value is emitted, or the `not` before it is undone and the test inverted |
| `CodeGenerator.FuncState.GoIfTrue` | lua/lcode.c:539-564 | the method refines its specification, whose meaning is CodeConds.GoIfTrueMeans |
| `CodeGenerator.FuncState.GoIfFalse` | lua/lcode.c:567-591 | the method refines its specification, whose meaning is CodeConds.GoIfFalseMeans |
| `CodeGenerator.FuncState.CodeNot` | lua/lcode.c:594-626 | the method refines its specification, whose meaning is CodeConds.CodeNotMeans |
| `CodeGenerator.FuncState.CodeComp` | lua/lcode.c:681-694 | the method refines its specification, whose meaning is CodeCompile.ComparedMeans |
| `CodeGenerator.FuncState.Exp2Reg` | lua/lcode.c:390-411 | the method refines its specification, whose meaning is CodeCompile.Exp2RegMeans |
| `CodeGenerator.FuncState.Expression` | lua/lcode.c:718-789 | the sequence of calls made for an expression refines the compilation of which CodeCompile.CompileMeans speaks |
| `CodeGenerator.FuncState.AssignLocal` | lua/lcode.c:472-480 | for all inputs, running the emitted code assigns the expression's value to the local and keeps the other registers |
| `CodeGenerator.FuncState.Condition` | lua/lcode.c:539-564 | for all inputs, running the emitted code goes on if the expression is true, and to the jumps returned if it is false |
| `TableChains.InsertFresh` | lua/ltable.c:399-428 | a key put into its unused main position keeps the scatter-table invariant and every value |
| `TableChains.InsertOver` | lua/ltable.c:399-428 | so does a key put over one whose value is nil |
| `TableChains.InsertAfter` | lua/ltable.c:418-423 | so does a key in a free node behind its main position, when the colliding node is in its own main position |
| `TableChains.InsertMove` | lua/ltable.c:409-417 | so does moving a colliding node that is out of its main position into the free node |
| `TableChains.DistinctLive` | lua/ltable.c:8-19 | a key is in one node at most |
| `TableSizes.ComputeSizes` | lua/ltable.c:189-208 | of all powers of two, the largest more than half of which would be in use, and how many keys go there |
| `TableSizes.CandidatesDistinct` | lua/ltable.c:222-260 | there are no more keys between 1 and n than n, so that the counts are sizes of sets |
| `TableSizes.NumUseArray` | lua/ltable.c:222-244 | the counts by slices are the numbers of elements in use up to each power of two; the total leaves out what is behind the largest size |
| `TableSizes.CountedAllElements` | lua/ltable.c:222-244 | the total is the number of elements if and only if there is none behind two to the 26th places |
| `TableSizes.LastNotCounted` | lua/ltable.c:222-244 | an array part of two to the 26th elements and one more, all in use: the count misses the last |
| `TableSizes.NumUseHash` | lua/ltable.c:247-260 | so are the counts with the keys of the hash part |
| `TableSizes.CountInt` | lua/ltable.c:211-219 | one key more is counted in its slice, if it can be in an array part |
| `LuaTables.LuaTable.FindNode` | lua/ltable.c:435-491 | the walk along the chain from the main position finds a key if and only if it is in some node |
| `LuaTables.LuaTable.Get` | lua/ltable.c:469-491 | the slot of the key; if there is none, the key is in neither part, and its value is nil |
| `LuaTables.LuaTable.GetFreePos` | lua/ltable.c:382-388 | finds a node without a key if and only if there is one before the free pointer |
| `LuaTables.LuaTable.NewKey` | lua/ltable.c:399-429 | the new key has a slot and no value has changed; with a free node left the sizes are kept, so a rehash is never followed by another; it overflows only with two to the 26th entries |
| `LuaTables.LuaTable.Set` | lua/ltable.c:494-505 | the slot of the key, with every value as before; nil and NaN are refused and change nothing; it overflows only with two to the 26th entries; the mutual recursion with the rehash terminates |
| `LuaTables.LuaTable.Assign` | lua/ltable.c:494-505 | writing to the slot of a key changes the value of that key alone |
| `LuaTables.LuaTable.Put` | lua/ltable.c:494-505 | the table refines a map: the key has the new value, and every other key the old one, through collisions and rehashes, as long as there are fewer than two to the 26th entries |
| `LuaTables.LuaTable.GetValue` | lua/ltable.c:469-491 | reads the value the map has for the key |
| `LuaTables.LuaTable.NewSizes` | lua/ltable.c:333-347 | for an array part of any size the new size is the best, and there is room for exactly all other keys and the new one if and only if no element is behind two to the 26th places, where the count stops |
| `LuaTables.LuaTable.Resize` | lua/ltable.c:297-324 | all values are kept; with room for the keys that leave the array part, no reinsertion rebuilds the table |
| `LuaTables.LuaTable.Rehash` | lua/ltable.c:333-349 | the array part gets the largest power of two more than half of which is in use, the new key counted over the set of keys without slices; values are kept, and there is a place for the new key |
| `LuaTables.LuaTable.RemoveEntry` | lua/lgc.c:62-66 | a collected key leaves a dead node in its chain, and no value changes |
| `LuaTables.LuaTable.FindIndex` | lua/ltable.c:137-159 | the place of a key in the traversal, also if it has died in its node; an error if and only if the key is neither an index nor in any node |
| `LuaTables.LuaTable.Next` | lua/ltable.c:162-179 | the first entry with a value behind the place of the key, none skipped; an error if and only if the key is in no node |
| `LuaTables.LuaTable.Traverse` | lua/ltable.c:162-179 | from nil it ends, while the changes of a script are made in between, each batch when the traversal stands at the key returned last: every key is returned with the value it has then, a key that has a value all the while is returned, and none twice |
| `LuaTables.TraversalIsFair` | lua/ltable.c:162-179 | a field keeps having a value unless a change takes it away, and has one only if it had one or was given one: so reassigned and cleared fields do not disturb a traversal |
| `LuaPatterns.MatchFrom` | lua/lstrlib.c:365-440 | the matcher as a function, which terminates on the rest of the pattern |
| `PatternMeaning.BalanceFrom` | lua/lstrlib.c:281-298 | the end of a balanced text is the first place where the counts of the two characters agree |
| `PatternMeaning.MatcherIsRight` | lua/lstrlib.c:365-440 | a match that is reported is one of the declarative relation `Matches`, with these captures, and if failure is reported there is none |
| `PatternSyntax.NoError` | lua/lstrlib.c:365-440 | for a well-formed pattern, a property of its text alone, the matcher never raises an error, whatever the subject and the captures |
| `PatternSyntax.NoMatch` | lua/lstrlib.c:186-223 | only well-formed patterns match anything: no capture too many, none closed or referred to wrongly, no item cut short |
| `PatternSyntax.MatcherDecides` | lua/lstrlib.c:365-440 | for every pattern, an end position is returned if and only if the relation has a match from that start; an error is raised for patterns that are not well formed only, and these match nothing |
| `PatternMeaning.GreedyIsLargest` | lua/lstrlib.c:301-313 | `*` and `+` take the largest number of repetitions that the rest can follow |
| `PatternMeaning.LazyIsSmallest` | lua/lstrlib.c:316-326 | `-` takes the smallest |
| `PatternText.MembersRead` | lua/lstrlib.c:202-265 | the text of a set holds exactly the characters of its members: classes and their complements, ranges with both ends, characters quoted or not; and it ends where the text does |
| `PatternText.SingleRead` | lua/lstrlib.c:202-276 | the text of any single-character item matches exactly the characters that are meant |
| `PatternText.RangeMeans` | lua/lstrlib.c:245-265 | a range between brackets holds both its ends and what is between them |
| `PatternText.SetEndIs` | lua/lstrlib.c:202-223 | any set ends at the first bracket that is neither quoted nor its first character, and is malformed exactly if there is none |
| `PatternText.TextMatches` | lua/lstrlib.c:365-440 | for every pattern, given as its elements, the text of it matches exactly what the elements mean: items and how often they may match, captures, balanced texts, frontiers, back references, the end of the subject |
| `PatternText.SearchMeans` | lua/lstrlib.c:495-535 | so the search finds the first place at which the elements mean a match |
| `PatternText.TextWellFormed` | lua/lstrlib.c:186-223 | the text of a pattern raises no error exactly if its captures are opened, closed and referred back to in order |
| `PatternText.ItemPrefers` | lua/lstrlib.c:301-329 | an item takes the first number of repetitions that the rest of the pattern allows: from the most downwards for all suffixes but the hyphen, which goes from none upwards |
| `PatternMatcher.MatchState.ClassEnd` | lua/lstrlib.c:202-223 | the end of a single-character class, or the error for one that is malformed |
| `PatternMatcher.MatchState.MatchClass` | lua/lstrlib.c:226-242 | a small letter stands for its class, a capital one for the complement, anything else for itself |
| `PatternMatcher.MatchState.MatchBracketClass` | lua/lstrlib.c:245-265 | whether the set matches the character, with ranges, classes and complement |
| `PatternMatcher.MatchState.MatchBalance` | lua/lstrlib.c:281-298 | the loop finds the end of the balanced text |
| `PatternMatcher.MatchState.MatchCapture` | lua/lstrlib.c:354-362 | a back reference matches exactly the captured text |
| `PatternMatcher.MatchState.Match` | lua/lstrlib.c:365-440 | the matcher with captures changed in place does what the function does; when it fails, the level and all captures are as before |
| `PatternMatcher.MatchState.MaxExpand` | lua/lstrlib.c:301-313 | the same for the greedy loop |
| `PatternMatcher.MatchState.MinExpand` | lua/lstrlib.c:316-326 | the same for the lazy loop |
| `PatternMatcher.MatchState.StartCapture` | lua/lstrlib.c:329-338 | the same for an opened capture, which is undone when the rest fails |
| `PatternMatcher.MatchState.EndCapture` | lua/lstrlib.c:341-351 | the same for a closed capture, which is reopened when the rest fails |
| `PatternMatcher.MatchState.Find` | lua/lstrlib.c:515-531 | finds the first place where the relation has a match, if and only if there is one; an error is raised only if the pattern is not well formed |
| `OpenUpvalues.RingLink` | lua/lfunc.c:72-76 | the new upvalue enters the doubly linked ring behind its head |
| `OpenUpvalues.RingUnlink` | lua/lfunc.c:82-86 | an upvalue leaves the ring, and the others stay linked both ways |
| `OpenUpvalues.ChainInsert` | lua/lfunc.c:70-71 | the list stays strictly descending when an upvalue is put where its level belongs |
| `OpenUpvalues.OnePerSlot` | lua/lfunc.c:53-79 | no two open upvalues of a thread are on one slot, and all are on its stack |
| `OpenUpvalues.Creation` | lua/lfunc.c:66-77 | list, ring and the set of open upvalues still agree when one is created |
| `OpenUpvalues.Closing` | lua/lfunc.c:96-112 | and when the topmost one is closed or freed |
| `OpenUpvalues.LuaState.FindUpval` | lua/lfunc.c:53-79 | the upvalue of the slot, alive; a new one only if there was none; nothing else is read through any other |
| `OpenUpvalues.LuaState.Close` | lua/lfunc.c:96-112 | exactly the upvalues at or above the level are closed, or freed if dead; what is read through those left is unchanged |
| `OpenUpvalues.LuaState.FreeUpval` | lua/lfunc.c:89-93 | an open upvalue leaves the ring before it is freed |
| `OpenUpvalues.LuaState.CorrectStack` | lua/ldo.c:126-138 | exactly the open upvalues of the thread, its top, base and calls are moved with the stack |
| `OpenUpvalues.LuaState.ReallocStack` | lua/ldo.c:141-149 | every pointer keeps its place in the stack, list and ring are kept, every closure reads what it read, and the upvalues open in other threads are untouched |
| `OpenUpvalues.LuaState.SetLocal` | lua/lobject.h:274-284 | an assignment to a local is seen through the upvalue of its slot and no other |
| `OpenUpvalues.LuaState.SetUpval` | lua/lobject.h:274-284 | an assignment through an upvalue is seen by all that share it and by the local if it is on the stack, and by nothing else |
| `Utf8.DecoderIsTable` | baselib/Text.cpp:402-439 | one character is decoded if and only if the bytes are those of section 3 of RFC 3629 for a scalar value |
| `Utf8.EncoderIsTable` | baselib/Text.cpp:242-268 | a scalar value is encoded as the only bytes that represent it |
| `Utf8.TableIsSyntax` | baselib/Text.cpp:402-439 | the table in section 3 and the syntax in section 4 of RFC 3629 describe the same bytes |
| `Utf8.SkipsNoCharacter` | baselib/Text.cpp:402-439 | what is consumed, also on an error, is in the string, and no character starts in the middle of it |
| `Utf8.SkipsErrors` | baselib/Text.cpp:402-439 | one error character stands for a byte that begins no character, or for the beginning of a character up to the byte that breaks it: by the values of the bytes, how many are skipped |
| `Utf8.Resynchronizes` | baselib/Text.cpp:453-534 | after any garbage, every character that follows is decoded: the decoder can be cut before any byte that may begin one |
| `Utf8.ValidIsEncoded` | baselib/Text.cpp:441-451 | accepted strings are exactly the encodings of sequences of scalar values, each of one sequence only |
| `Utf8.ValidIsSyntax` | baselib/Text.cpp:441-451 | they are exactly the `UTF8-octets` of section 4 of RFC 3629 |
| `Utf8.NarrowRoundTrip` | baselib/Text.cpp:508-536 | to wide characters and back is the identity if and only if the string is valid |
| `Utf8.NarrowLost` | baselib/Text.cpp:508-536 | the byte FF is lost |
| `Utf8.WideRoundTrip` | baselib/Text.cpp:341-360 | from wide characters and back is the identity if and only if all are scalar values |
| `Utf8.WideLost` | baselib/Text.cpp:341-360 | the surrogate D800 is lost |
| `Utf8.EncodeDecoded` | baselib/Text.cpp:508-536 | whatever the bytes, decoding yields scalar values |
| `Utf8.ValidateUtf8` | baselib/Text.cpp:441-451 | the loop answers whether the rest of the string is such an encoding |
| `Utf8.Utf8ToWide` | baselib/Text.cpp:508-536 | the writing pass fills exactly the buffer that the sizing pass has sized, with the decoded string |
| `Utf8.WriteUtf8` | baselib/Text.cpp:242-268 | writes one character at its place in a buffer and nothing outside of it |
| `Utf8.WideToUtf8` | baselib/Text.cpp:341-360 | the same for encoding; what is not a code point becomes an error character |
| `AdcCommands.ScanEscaped` | adchpp/AdcCommand.cpp:40-64 | escaped text is read back as the text, whatever it is |
| `AdcCommands.ScanShrinks` | adchpp/AdcCommand.cpp:100-166 | text with a space or backslash in it is never read as something as long as it was |
| `AdcCommands.BodyReads` | adchpp/AdcCommand.cpp:100-208 | a line of fields is parsed into these fields, without an empty one at the end |
| `AdcCommands.RoundTrip` | adchpp/AdcCommand.cpp:66-276 | a command that is printed and parsed shows the same if and only if it is printable: a known type, no zero byte in its code, plain identifiers and features of the right length, UTF-8 parameters, at least one field and the last one not empty |
| `AdcCommands.EmptyFieldLost` | adchpp/AdcCommand.cpp:66-276 | a command that does not come back as it was: its last parameter is empty |
| `AdcCommands.Reprinted` | adchpp/AdcCommand.cpp:66-276 | an accepted line that is printed again is accepted with the same meaning if and only if the command read is printable |
| `AdcCommands.SenderShows` | adchpp/AdcCommand.cpp:236-276 | the printed line depends on the sender exactly for the types that print it |
| `AdcLines.LineIsFields` | adchpp/AdcCommand.cpp:66-225 | every line is cut at its spaces and read field by field, each unescaped by itself; the first thing that is wrong with it is the error, whether an escape, a length, UTF-8 or a field that is missing |
| `AdcLines.AcceptedLine` | adchpp/AdcCommand.cpp:66-225 | what each field of an accepted line becomes, by its first byte: sender and target for D and E, sender for B, sender and features for F, parameters for all others and all the rest |
| `AdcLines.EscapedText` | adchpp/AdcCommand.cpp:40-64 | escaped text has no space and no line feed in it, and reads back as the text |
| `AdcLines.PrintedByType` | adchpp/AdcCommand.cpp:236-275 | which targets are printed in front of the parameters, by type |
| `AdcCommands.EscapeOnto` | adchpp/AdcCommand.cpp:40-64 | the loop appends the escaped text |
| `AdcCommands.AdcCommand.Parse` | adchpp/AdcCommand.cpp:66-225 | the command that the line denotes, or its first error; field by field in AdcLines.LineIsFields and by type in AdcLines.AcceptedLine |
| `AdcCommands.AdcCommand.ToString` | adchpp/AdcCommand.cpp:236-276 | the kept line, or the command as it prints |
| `AdcCommands.AdcCommand.GetBuffer` | adchpp/AdcCommand.cpp:227-234 | the line is printed once and kept |
| `AdcCommands.AdcCommand.AddParam` | adchpp/AdcCommand.h:221-226 | after adding a parameter the kept line is never out of date |
| `AdcCommands.AdcCommand.SetFrom` | adchpp/AdcCommand.h:275-278 | after changing the sender the kept line is up to date if and only if there is none, the type does not show it, or it is the same |
| `AdcCommands.FormerSenderShown` | adchpp/AdcCommand.h:275-278 | a command whose kept line would name the former sender |
| `ClientFraming.FeedJoins` | adchpp/Client.cpp:104-198 | feeding two chunks is feeding their concatenation, in whatever state, also after a disconnection |
| `ClientFraming.FeedWithinLine` | adchpp/Client.cpp:119-139 | before a line feed bytes only pile up: the limit on the size is tested at the end of the line |
| `ClientFraming.SizeWithinLine` | adchpp/Client.cpp:119-139 | what is kept of a line is within the limit if and only if the bytes were few enough: the client is not cut off before the line ends |
| `ClientFraming.LongLineKept` | adchpp/Client.cpp:119-139 | with a limit of one byte, two are kept |
| `ClientFraming.FeedLine` | adchpp/Client.cpp:140-196 | a line is handled when its end comes, together with what was kept of it |
| `ClientFraming.FeedAllKeeps` | adchpp/Client.cpp:104-198 | on every run, what has been told and what is kept are the bytes that came, in order and each once (after a disconnection, the first of them); bytes are told as data exactly while data are to come, and lines otherwise; lines end at their only line feed, are within the limit and bear the client's identifier; a disconnection comes once and last, only for a line that is too long or from another sender or at the hub's wish, and at once if the hub wishes it |
| `ClientFraming.DataFollow` | adchpp/Client.cpp:109-117 | on every run, when the hub asks for a number of data bytes after a line, that many bytes are told as data next, before anything else |
| `ClientFraming.DataAskedFor` | adchpp/Client.h:64-68 | exactly the bytes asked for are told as data |
| `ClientFraming.Client.OnLine` | adchpp/Client.cpp:161-196 | what happens to a line: too long, empty, malformed, from another sender, or received |
| `ClientFraming.Client.OnData` | adchpp/Client.cpp:104-198 | the loop over a chunk is the machine that takes one byte at a time |
| `ClientFraming.Client.OnStream` | adchpp/Client.cpp:104-198 | any way to cut a stream gives the same events and leaves the same state as the stream as a whole |
| `WriteQueues.OfferedIsFirst` | adchpp/SocketManager.cpp:108-132 | the stream is asked to write the beginning of the queue: all of a single buffer, or else as much of the first 64 buffers as 1024 bytes hold |
| `WriteQueues.DropIsSuffix` | adchpp/ManagedSocket.cpp:147-160 | exactly the bytes written leave the queue |
| `WriteQueues.WriteAccepts` | adchpp/ManagedSocket.cpp:54-76 | a buffer is accepted as a whole or not at all, and is refused only if it is empty, the socket disconnects, it is of low priority, or the queue is overfilled again too long after the last time |
| `WriteQueues.StepKeeps` | adchpp/ManagedSocket.cpp:122-178 | every call and completion keeps the invariant of the queue |
| `WriteQueues.Safety` | adchpp/ManagedSocket.cpp:54-178 | on every run sent and queued bytes are the accepted ones in order, and one write is under way at most; without errors a queue that is not empty is being written, and the stream is shut down at most once, exactly when a socket that disconnects has an empty queue |
| `WriteQueues.Clocks` | adchpp/ManagedSocket.cpp:54-178 | on every run the socket knows when the write under way was started, and when the queue was overfilled last without having had room since |
| `WriteQueues.GivesUp` | adchpp/ManagedSocket.cpp:54-136 | on every run a call of write makes the socket disconnect if and only if it would overfill the queue again more than the allowed time after the last time, or is accepted while a write has been under way for more than a minute |
| `WriteQueues.OnlyGivesUp` | adchpp/ManagedSocket.cpp:54-178 | nothing else but the hub's own call makes it disconnect, and it does so once |
| `WriteQueues.OverflowStartsAgain` | adchpp/ManagedSocket.cpp:60-69 | a queue that has been too full for twice the allowed time, on a socket that stays up: each buffer starts the time again |
| `WriteQueues.DrainEnds` | adchpp/ManagedSocket.cpp:138-178 | if the writes complete, everything accepted is sent, and a socket that disconnects is shut down once |
| `WriteQueues.SocketStream.Write` | adchpp/SocketManager.cpp:108-132 | gathers no more than 64 buffers and 1024 bytes, or a single buffer as it is |
| `WriteQueues.ManagedSocket.GetQueuedBytes` | adchpp/ManagedSocket.cpp:40-52 | the number of bytes in the queue |
| `WriteQueues.ManagedSocket.Write` | adchpp/ManagedSocket.cpp:54-76 | refines its step, with overflow, low priority and disconnection |
| `WriteQueues.ManagedSocket.PrepareWrite` | adchpp/ManagedSocket.cpp:122-136 | starts a write only if none is under way, so that there is never more than one, and gives up one that has taken more than a minute |
| `WriteQueues.ManagedSocket.CompleteWrite` | adchpp/ManagedSocket.cpp:138-178 | refines its step; it never reads an empty queue |
| `WriteQueues.ManagedSocket.Disconnect` | adchpp/ManagedSocket.cpp:318-326 | shuts the stream down at once only if nothing is being written |
| `WriteQueues.ManagedSocket.Runs` | adchpp/ManagedSocket.cpp:54-178 | any sequence of calls and completions goes through the run of the specification, and keeps its invariant |
| `TigerHashes.PadOnce` | baselib/TigerHash.cpp:281-316 | no two messages have the same padding (the byte 1, zeros to 56 over a multiple of 64, and the length in bits modulo two to the 64th), whatever their lengths |
| `TigerHashes.PaddedByte` | baselib/TigerHash.cpp:281-316 | every byte of the padded message: the message, a byte 1, zeros, and the number of bits as a word with its lowest byte first, in no block more than needed |
| `TigerHashes.ByteOfNumber` | baselib/TigerHash.cpp:315 | the bytes of a number, the lowest first |
| `TigerHashes.BlocksMore` | baselib/TigerHash.cpp:261-274 | one block more compresses on from the state before it |
| `TigerHashes.TigerHash.Update` | baselib/TigerHash.cpp:227-279 | after any data the state stands for all the data so far, whatever the position in the block and although it wraps around |
| `TigerHashes.TigerHash.Finalize` | baselib/TigerHash.cpp:281-316 | the hash of the padded message, with one block at the end or two |
| `TigerHashes.HashOf` | baselib/TigerHash.cpp:227-316 | any way to cut a message into updates gives the hash of the message |

## Left out

- Garbage collector: finalizers, weak tables, the metatable cache, and the accounting of bytes that decides when a
  step is made; the steps may come at any time here.
- Garbage collector: an object's references are a sequence of slots; the separate parts of tables, closures and
  prototypes are not told apart, and a table counts as traversed at once.
- Garbage collector: the size of the string table counts the strings there are (`nuse` is derived), and growing or
  shrinking a stack while it is traversed is not modelled.
- Garbage collector: an upvalue is read and written in two steps (the closure's reference, then the value), and
  captured only by a closure that is still white, as a closure just created is.
- Code generator: literal `nil`, `true` and `false` as operands, whose jumps go through `luaK_jump`
  (lua/lcode.c:547-550 and 575-577) and take pending jumps along; and a constant as the last operand under a
  `not`, which `codenot` folds.
- Code generator: string and number constants count as true (`CodeConds.ConstsTrue`), which they are.
- Code generator: constant folding, calls, tables, arithmetic, globals other than as one instruction, line
  information, and the limits on registers, constants and the distance of jumps.
- Hash tables: `luaH_getn`, `luaH_resizearray` and the specialised lookups as separate functions; floating-point
  keys other than NaN and the numbers equal to an `int`.
- LuaTables.LuaTable.Rehash: array parts larger than two to the 26th, which only `luaH_new` and `luaH_resizearray`
  can make, are excluded by the table's invariant. `LuaTables.LuaTable.NewSizes` and
  `TableSizes.CountedAllElements` have no such bound, and say exactly when the counts are right then.
- LuaTables.LuaTable.Set: when the table overflows, nothing is said about its contents, since the error leaves it
  half rebuilt (lua/ltable.c:297-324).
- LuaTables.LuaTable.FindIndex: a dead key is recognised as the key it was, not as another one at the same address.
- PatternText.TextMatches: a range that ends in a percent sign, and what follows a NUL in the text of a pattern, are
  not among the elements of a pattern.
- Pattern matcher: the limit on the depth of the C stack, replacement strings, and the loops of `gmatch` and `gsub`.
- Open upvalues: `value` and the links of the ring share memory in the original (lua/lobject.h:274-284); here they
  are separate fields, of which only the one in use is read.
- OpenUpvalues.LuaState.ReallocStack: the stacks of other threads are not in the model, only the upvalues that are
  open in them; that the new block is none of theirs is up to the allocator.
- UTF-8: wide characters of two bytes, other character sets, and conversion of case.
- Commands: priorities, named parameters and the table of known commands; session identifiers are the four bytes
  they have in memory.
- Framing: the data handler does not disconnect the client or change its mode by itself, and buffers are values,
  so that sharing one with the socket is not modelled.
- Write queue: the clock is read once for each call; statistics, the jobs that report the end and close the
  socket, reading, and connecting.
- WriteQueues.Safety: after an error only the conservation of bytes is claimed, as the socket has failed.
- Hash: the rounds and tables of the compression, and machines that are not little-endian.
- Plugins, scripts, signals, the hub's client manager, logging, settings and the file utilities are not modelled.
