# A model of GNU Mes

GNU Mes is a small Scheme interpreter in C with its own C library. This project
models the parts of it where being right is least obvious, and proves that they
are.

**The collector** (`Cells`, `Graph`, `Cheney`, `Flip`, `Collector`, `Mutator`,
`Decoding`, `Kinds`). The arena is an array of tagged cells. A stop-and-copy
collection evacuates what can be reached with broken hearts as forwarding
addresses, scans the new space, and then moves the survivors back down to the
old base, because C variables hold addresses of predefined cells that nothing
ever updates. The main result, `Collector.Collector.Gc`, is that a collection is
an isomorphism of the reachable heap graph onto the whole new heap, that
registers, stack and named roots follow it, and that predefined cells end where
they were; `Graph.Indistinguishable` says what that means to a program.
`Mutator` shows that what runs between collections leaves a heap that the
collector can work on: pairs, boxed vectors, byte blocks. `Decoding` says which
values the cells stand for, and that collections at any time leave these alone;
`Kinds` says tag by tag what becomes of each word of an object.

**The interpreter loop** (`Values`, `Machine`, `EvalApply`, `Evaluator`,
`Refinement`, `Theorems`, `Fuel`, `Environments`, `Builtins`, `Laws`, `Blocks`,
`TailCalls`, `Continuations`). `EvalApply.Vm` is the loop: registers, an array
of stack slots, one method for each block of code. Each block is proved to do a
step of the machine in `Machine`, which works on frames. `Evaluator` is a
recursive evaluator with no stack at all, and `Refinement` relates the two: the
machine returns a value exactly if the evaluator has it, although it evaluates
the operator of a call twice. A height computed by the evaluator says how much
stack is enough. `Laws` says form by form what a program denotes, with no bound
and no stack; `Builtins` what a builtin is called with. Tail calls run at
constant depth, but for those that `apply`, `eval` and call/cc make. In runs
with first-class continuations, entered at whatever time, every frame, saved or
captured, stays one that the dispatcher knows, and the frames below a run stay
as they are exactly as long as no older continuation is applied.

**The variable expander** (`Expander`, `Scoping`, `Binders`). It overwrites
names in code with bindings, in place, list after list. `Expander` proves which
cells change; `Scoping` says in terms of enclosing lambdas, definitions and
quotes which names those are, and `Binders` spells out what binds a name.

**Reader and writer** (`Syntax`, `Reader`, `Writer`, `RoundTrip`, `Names`,
`Exactly`, `Notation`, `Spelling`, `Layout`). `Syntax` gives the reader as
functions on text, `Reader` the reader itself on a file with one character of
pushback. What is written is read back for exactly the data that
`Exactly.DataExactly` names.

**Structures that should be like something simple** (`Tables`, `Lists`,
`Modules`, `Buffering`): hash tables are maps, interning is canonical, the
module worklist is depth-first search, and reading ahead cannot be noticed.

**Arithmetic and sorting** (`Division`, `Numerals`, `Quicksort`): division by
shifting and subtracting, numbers to text and back, and a quicksort that leaves
some ranges with equal keys unsorted; which ones is proved exactly, and also
which elements are sorted in every order.

A word has 64 bits, an int 32; both wrap. Where a value can be wrong, or the
code stops, the model says so and the exact condition is proved:

- applying a closure drops the first entry of the environment that it was made
  in, which outside of procedures can be a variable (src/eval-apply.c:536-537);
- `apply`, `eval` and call/cc leave a frame in tail position
  (src/eval-apply.c:559-570, 996-1004);
- `qsort` does not sort every range with equal keys (lib/stdlib/qsort.c:57-58);
- the name `#f` is given a second symbol (src/string.c:119-120);
- the search for a name does not end where modules use themselves, unless it is
  found first (src/module.c:137-150);
- a name with a byte from 128 on can hash to a negative number, which is no
  bucket (src/hash.c:28-37, with signed characters);
- of a multiple value in the second place of a builtin's arguments the first
  component is put in front of it, not in its place: a builtin of three
  parameters is not passed its third argument, and one of any number gets one
  argument more (src/eval-apply.c:393-400);
- a refused `lseek` has dropped the bytes read ahead (lib/linux/lseek.c:35-46);
- division takes the smallest number as divisor for an error, although its
  comment asks only that the quotient be right (lib/mes/div.c:222-231);
- `abtol` collects an int although it returns a long (lib/mes/abtol.c:30);
- a block comment that is not closed is read for ever (src/reader.c:200-210);
- some data cannot be read back: symbols and keywords that look like something
  else or need escapes, and characters without a name (src/reader.c:72-111,
  242-249, 258-259);
- the expander reads fields of whatever is there, where code ends behind a
  lambda or define (src/eval-apply.c:293-306, 316-333).

## Model

| member | source | states |
|---|---|---|
| `Cells.BytesCells` | src/gc.c:237-240 | the cells counted for a byte block hold its two header words and all its bytes, and less than one word more |
| `Cells.AreaAdd` | src/gc.c:473-518 | objects own their cells: one object more brings in exactly its size |
| `Cells.AreaMonotone` | src/gc.c:592-644 | fewer objects never take more cells, and all of them fit between the ends of the heap |
| `Cells.LiveLeast` | src/gc.c:535-580 | whatever holds the roots and is closed under references holds every reachable object, so a finished scan has missed none |
| `Graph.Indistinguishable` | src/gc.c:592-644 | walks from corresponding roots exist in both heaps or in neither, show the same tags, lengths, data and bytes, and end at the same object in one exactly if they do in the other: sharing and cycles survive |
| `Graph.CopyIsLive` | src/gc.c:535-580 | every object of the copy is reachable from the renamed roots: no garbage is copied |
| `Graph.AreaAgrees` | src/gc.c:474-518 | any set of objects takes as many cells after the collection as before |
| `Cheney.EvacuateFresh` | src/gc.c:474-518 | copying an object that has not been copied keeps the invariant of the two spaces and extends the forwarding by just that object |
| `Cheney.Evacuate` | src/gc.c:474-518 | asking for a copy keeps the invariant; an object already forwarded is not copied again |
| `Cheney.HeartsAreForwarded` | src/gc.c:474-518 | during a run a cell of the old space is a broken heart exactly if its object has a forwarding, and it holds that address |
| `Cheney.Room` | src/gc.c:592-644 | what is left to copy always fits behind the free pointer: the new space cannot overflow if the reachable objects fit |
| `Cheney.RelocateCar` | src/gc.c:521-525 | relocating the first word of the cell at the scan keeps the invariant |
| `Cheney.RelocateCdr` | src/gc.c:528-532 | relocating the second word, and moving on by one cell or over a byte block, keeps the invariant |
| `Flip.MovedHeap` | src/gc.c:447-471 | after the move down, with every traced field lowered, the heap is well formed again and isomorphic to the original one restricted to the reachable objects |
| `Collector.ScanFinal` | src/gc.c:535-580 | when scan meets free the forwarded objects are exactly the reachable ones, and the new space has exactly their total size, no more than was in use |
| `Collector.ScanGapless` | src/gc.c:368-442 | the new space is packed: cell after cell, or block after block, none of them a broken heart |
| `Collector.CopyStep` | src/gc.c:474-518 | one copying step of a running collection keeps its invariant, the count of cells, and all earlier forwardings |
| `Collector.MoveOne` | src/gc.c:368-442 | moving one more cell keeps what has been moved below it |
| `Collector.StillValid` | src/gc.c:592-644 | everything that the collector relies on holds again when it is done |
| `Collector.NothingToFree` | src/gc.c:592-644 | after a collection nothing is garbage and no cell is lost |
| `Collector.SameRoom` | src/gc.c:592-644 | another collection would need the same room and leave the same number of cells |
| `Collector.RootsFollow` | src/gc.c:592-644 | every root is forwarded, and its forwarding is a root afterwards |
| `Collector.Collector.Copy` | src/gc.c:474-518 | returns the forwarding of a broken heart, or else copies header, elements or bytes to the free end and leaves a broken heart |
| `Collector.Collector.Scan` | src/gc.c:535-580 | terminates with every cell of the new space relocated; no broken heart is ever scanned |
| `Collector.Collector.CopyBack` | src/gc.c:368-442 | moves the survivors down by one distance, addresses lowered, source and destination not overlapping; no broken heart is met |
| `Collector.Collector.FlipSpaces` | src/gc.c:447-471 | survivors, named roots, live stack slots and free pointer go down by the same distance; dead stack slots stay |
| `Collector.Collector.InitNews` | src/gc.c:308-322 | opens the new space behind the old one, touching no cell of it |
| `Collector.Collector.CopyPredefined` | src/gc.c:626-629 | the predefined cells are copied first and in order, so each goes back to its own address |
| `Collector.Collector.Collect` | src/gc.c:592-644 | a collection preserves the heap graph reachable from variables and stack, and gives each object's new address |
| `Collector.Collector.Gc` | src/gc.c:647-682 | the same with the registers, which are pushed, collected and popped: registers, stack and named roots follow their objects; predefined objects do not move |
| `Collector.Collector.Repeat` | src/gc.c:647-682 | over any number of collections one amount of room suffices, the cells in use stay the same, and base and predefined range never change |
| `Collector.Collector.PushFrame` | src/gc.c:685-695 | the five slots of a frame, in order |
| `Collector.Collector.PopFrame` | src/gc.c:698-712 | the registers come back from the slots they were saved in |
| `Kinds.ObjectKept` | src/gc.c:535-580 | kind by kind, with the tags written out: which words of an object are addresses, of objects that are kept, and are in its copy the addresses of their copies; which words, lengths and bytes are data and the same; and so for every element of a vector or struct |
| `Kinds.NameKept` | src/gc.c:554-569 | strings, symbols, keywords and special values keep their names |
| `Kinds.CollectionKeeps` | src/gc.c:592-644 | after a collection every object that could be reached is kept whole, kind by kind, and has the name it had |
| `Mutator.MakeCell` | src/gc.c:166-178 | a new cell at the end of the heap is an object; everything else is as before; the heap stays valid for the collector |
| `Mutator.Cons` | src/gc.c:231-234 | a pair of two objects is an object |
| `Mutator.MakeBytes` | src/gc.c:243-250 | a byte block takes the cells counted for it and keeps the heap valid |
| `Mutator.Alloc` | src/gc.c:153-163 | cells taken from the end of the heap belong to no object, and the heap stays valid |
| `Mutator.VectorEntry` | src/vector.c:81-86 | a number or character stands for itself, anything else gets a reference |
| `Mutator.MakeVector` | src/vector.c:25-37 | header and boxed elements become one object, every element stands for the given one, and the heap is valid although it was not in between |
| `Mutator.VectorRef` | src/vector.c:60-72 | what is read is always an object of its own, never the address of a cell inside the vector, with the same tag and value |
| `Mutator.VectorSet` | src/vector.c:89-95 | only the element's cell changes, to what stands for the object |
| `Mutator.SetThenRef` | src/vector.c:60-95 | what is put into a vector comes out of it: a number or character with the same value, anything else as itself |
| `Mutator.SetCdr` | src/eval-apply.c:116-122 | overwriting a field of a pair with an object keeps the heap valid |
| `Mutator.InRun` | src/vector.c:60-72 | a cell inside a vector is never the start of an object |
| `Decoding.MeansAgrees` | src/gc.c:592-644 | an object and its copy after a collection stand for the same values: numbers, characters, strings, symbols, constants, pairs, multiple values and closures, to any depth |
| `Decoding.RootsMean` | src/gc.c:647-682 | every variable, stack slot and predefined cell stands for the same values after a collection as before |
| `Decoding.MeansOne` | src/gc.c:592-644 | an object stands for one value at most |
| `Decoding.MeansStays` | src/gc.c:175-218 | making new objects changes no value of another object |
| `Decoding.ConsFields` | src/gc.c:231-234 | of the steps that run between collections: the fields of a new pair are what it was made of, in order |
| `Decoding.CollectNow` | src/gc.c:647-682 | a collection that is run at any time keeps the values of the registers |
| `Decoding.Perform` | src/gc.c:647-682 | any row of conses, field accesses, moves, new numbers and collections, until one cannot be done, leaves in the registers what the steps make of values |
| `Decoding.CollectionsDoNothing` | src/gc.c:647-682 | these values are the same without the collections |
| `Refinement.EvalSim` | src/eval-apply.c:616-804 | whatever the recursive evaluator gives for an expression is what the machine comes to: the value returned to the same frames, an error, or a computation that has not ended, never looking below those frames |
| `Refinement.EvalListSim` | src/eval-apply.c:505-518 | the same for argument lists, evaluated left to right |
| `Refinement.CallSim` | src/eval-apply.c:763-771 | the same for calls, whose operator is evaluated a first time and dropped |
| `Refinement.OperatorSim` | src/eval-apply.c:609-614 | the second evaluation of an operator changes nothing but the time and stack it takes |
| `Refinement.ApplySim` | src/eval-apply.c:520-616 | the same for applying a procedure: builtin, closure, lambda expression, and the interpreter's own apply, eval, call-with-values |
| `Refinement.BodySim` | src/eval-apply.c:894-920 | the same for a body, with nested begin forms spliced in |
| `Refinement.SpliceBetter` | src/eval-apply.c:899-907 | splicing a nested begin into the body around it gives what evaluating it as one form would |
| `Refinement.IfSim` | src/eval-apply.c:977-994 | the same for if, with one arm or two |
| `Refinement.CallWithValuesSim` | src/eval-apply.c:1012-1021 | the same for call-with-values |
| `Theorems.Deterministic` | src/eval-apply.c:417-1028 | two runs from one state agree: where one stops, the other is no longer |
| `Theorems.Computes` | src/eval-apply.c:616-804 | with room on the stack the machine returns the evaluator's value to the very frames it started on |
| `Theorems.Complete` | src/eval-apply.c:616-804 | whatever value the machine returns is the evaluator's |
| `Theorems.MachineIsEvaluator` | src/eval-apply.c:417-1028 | for programs of the fragment, with room on the stack, the machine returns a value if and only if the evaluator has it |
| `Theorems.NeverReturns` | src/eval-apply.c:417-1028 | a program whose evaluation fails or never ends returns nothing |
| `Builtins.BuiltinExactly` | src/eval-apply.c:382-414 | what a step of applying a builtin does, for all arguments: a wrong count is an error, a multiple value without components is read beyond its end, and else the function is called with exactly what `Received` says; with more than three parameters never |
| `Builtins.ArgumentsInOrder` | src/eval-apply.c:402-411 | a builtin of up to three parameters is called with its arguments in their order, and the machine returns, or fails with, what it answers |
| `Laws.QuoteLaw` | src/eval-apply.c:633-637 | a quoted datum has itself as its value, and no other |
| `Laws.ConstantLaw` | src/eval-apply.c:782-796 | numbers, characters, strings and constants have themselves |
| `Laws.VariableLaw` | src/eval-apply.c:772-783 | a variable has the value of its innermost binding, or else that in the module, unless it is undefined |
| `Laws.LambdaLaw` | src/eval-apply.c:640-644 | a lambda form has the closure of its formals, body and environment |
| `Laws.IfLaw` | src/eval-apply.c:977-994 | a conditional has the value of its second arm if and only if its test has the value false; a missing arm is unspecified |
| `Laws.BeginLaw` | src/eval-apply.c:894-920 | a body has the value of its last expression, if all of them have values, be they begin forms themselves |
| `Laws.CallLaw` | src/eval-apply.c:760-771 | a call has the values that the value of its operator gives for those of its arguments, in order, and no others |
| `Laws.LambdaCallLaw` | src/eval-apply.c:596-608 | a lambda form in operator position is applied as it stands |
| `Laws.LambdaFormLaw` | src/eval-apply.c:596-608 | which gives what its body gives where the formals are bound, around them the whole environment |
| `Laws.ClosureLaw` | src/eval-apply.c:530-542 | a closure gives what its body gives where formals, proper, dotted or single, are bound to the arguments around its environment without the first entry, and nothing for the wrong number of them |
| `Laws.BuiltinLaw` | src/eval-apply.c:382-414 | a builtin gives what its function answers to what it receives |
| `Laws.BuiltinCall` | src/eval-apply.c:382-414 | a call of a builtin by name has a value if and only if its function answers that to the values of the arguments, in order |
| `Laws.WrongCount` | src/eval-apply.c:34-57 | with the wrong number of arguments a builtin gives nothing |
| `Laws.ApplyLaw` | src/eval-apply.c:559-563 | apply gives what its first argument gives for the items of its second |
| `Laws.EvalLaw` | src/eval-apply.c:564-568 | eval gives what the expression has in the environment given |
| `Laws.CallWithValuesLaw` | src/eval-apply.c:1012-1021 | the consumer of call-with-values gets the components of a multiple value, or the one value that the producer gave |
| `Blocks.ClosureErrors` | src/eval-apply.c:536-541 | which error a wrong number of arguments for a closure is |
| `Blocks.LambdaErrors` | src/eval-apply.c:602-606 | a lambda form where it stands binds before it counts, so that too few arguments are another error |
| `Blocks.UnboundError` | src/eval-apply.c:780-783 | a variable that is bound nowhere, or to undefined, is an error of its own |
| `Blocks.NoProcedure` | src/eval-apply.c:60-93 | what an operator may not evaluate to, value by value; anything else is applied |
| `Blocks.ConstantApplied` | src/eval-apply.c:556-575 | nor may a constant stand as an operator |
| `Blocks.NoRoom` | src/gc.c:685-689 | where there is no room for a frame, what would push one is an error |
| `Blocks.FrameSaved` | src/eval-apply.c:206-216 | whatever block pushes a frame saves the environment and expression it was in, and an empty procedure slot |
| `Fuel.MoreEvaluate` | src/eval-apply.c:616-804 | the bound on the depth of closures never changes a result: a larger one gives the same, unless the smaller one was too small |
| `Fuel.MoreApply` | src/eval-apply.c:506-614 | the same of applications |
| `Fuel.OneValue` | src/eval-apply.c:616-804 | an expression has at most one value, whatever the bounds it was computed with |
| `Environments.EnteredExactly` | src/eval-apply.c:530-542 | applying a closure enters its body exactly if there is an argument for every formal and none is left over, unless a formal takes the rest, and otherwise is an error; formals may be proper, dotted or one symbol |
| `Environments.BindsFormal` | src/eval-apply.c:97-104 | the first formal of a name holds the argument in its place |
| `Environments.BindsRest` | src/eval-apply.c:97-104 | the last formal of a dotted list, or a single one, holds exactly the list of the arguments left over |
| `Environments.SeesThrough` | src/eval-apply.c:97-104 | a name that is no formal is found in the outer environment, or not at all |
| `Environments.ClosureMeans` | src/eval-apply.c:530-542 | in the environment that applying a closure sets, a variable is its argument, the list of the rest, or what it is in the environment of the closure without the first entry |
| `Environments.LexicalScope` | src/eval-apply.c:530-542 | a free variable of a closure means in the body what it means where the closure was made if and only if the first entry there, which applying drops, does not bind it or binds it to what it is without |
| `Environments.FirstBindingLost` | src/eval-apply.c:536-537 | a variable that only the first entry binds is unbound in the body, for the evaluator and for the machine: the concrete program |
| `Environments.MadeInside` | src/eval-apply.c:150-157 | that entry is the mark of the enclosing procedure, if there is one: closures made inside a procedure have full lexical scope |
| `Environments.DirectLambda` | src/eval-apply.c:596-608 | a lambda form that is applied where it stands keeps the whole environment |
| `TailCalls.TailSim` | src/eval-apply.c:506-614 | from an expression the machine comes to the expression in its tail position, through if, begin, calls of closures and of lambda forms where they stand, call-with-values, apply, eval and call/cc, with exactly the frames more that the last three leave |
| `TailCalls.TailLoop` | src/eval-apply.c:894-994 | a loop of any length through tail positions comes to its last turn, a step a turn at least, at exactly the depth of its first and the frames left on the way, in a stack with room for only one turn more |
| `TailCalls.LetTail` | src/eval-apply.c:596-608 | the body of a lambda form applied where it stands, which is what let is, is in tail position at the same depth |
| `TailCalls.DepthKept` | src/eval-apply.c:556-598 | of the operators applied as they stand, closures and lambda forms keep the depth, and apply, eval and call/cc are exactly those that leave a frame |
| `TailCalls.CallsKeepDepth` | src/eval-apply.c:530-542 | a procedure that calls itself is after any number of turns at the depth at which it began, in a stack with room for one frame more |
| `TailCalls.ApplicationsGrow` | src/eval-apply.c:559-563 | a procedure that calls itself by way of apply has after so many turns left as many frames: not a proper tail call |
| `Continuations.StepKeeps` | src/eval-apply.c:442-504 | from any good state, whatever was captured before, a step keeps every frame of the stack and of all captured stacks resumable, with what its label takes apart in R2, and so the registers at the block it goes to; it never meets an unknown continuation |
| `Continuations.RunKeeps` | src/eval-apply.c:442-504 | in no run, also of a loop entered while continuations exist, is an unknown continuation met, and captured stacks never change |
| `Continuations.StandingStep` | src/eval-apply.c:1023-1036 | a step keeps the frames below the entry frame, under the stack and under all captured since entry, if and only if it does not apply a continuation captured earlier whose frames lie elsewhere; popping the entry frame leaves exactly those frames |
| `Continuations.BaseUntouched` | src/eval-apply.c:1023-1036 | over whole runs: the frames below the entry frame are untouched at every step if and only if no step applies such a continuation |
| `Continuations.SecondCapture` | src/eval-apply.c:1005-1010 | the capture made when the receiver returns saves the frames that the first one saved |
| `Continuations.ContinuationReturns` | src/eval-apply.c:543-555 | applying a captured continuation, at any later time and however often, returns the argument to the frames that call/cc saw |
| `Continuations.ReceiverReturns` | src/eval-apply.c:996-1010 | the receiver of call/cc returning normally does the same |
| `EvalApply.FramesInjective` | src/gc.c:685-712 | a stack of whole frames is determined, slot for slot, by its frames |
| `EvalApply.Vm.GcPushFrame` | src/gc.c:685-695 | pushes the registers as five slots, or finds the stack full exactly when no frame is left |
| `EvalApply.Vm.GcPopFrame` | src/gc.c:698-712 | the frame on top comes back into the registers |
| `EvalApply.Vm.PushCc` | src/eval-apply.c:206-216 | saves registers and continuation, and loads the new ones |
| `EvalApply.Vm.SetProcedure` | src/eval-apply.c:521 | the procedure slot of the frame on top, and nothing else, changes |
| `EvalApply.Vm.Capture` | src/eval-apply.c:999-1002 | the vector made by call/cc holds the used part of the stack |
| `EvalApply.Vm.Reinstate` | src/eval-apply.c:545-553 | the slots of a captured stack are put back, unless it is empty |
| `EvalApply.Vm.ApplyBlock` | src/eval-apply.c:520-608 | applying does, on the slots, what the step on frames says |
| `EvalApply.Vm.Eval` | src/eval-apply.c:616-804 | so does evaluating |
| `EvalApply.Vm.Begin` | src/eval-apply.c:894-920 | so does one turn of a body |
| `EvalApply.Vm.VmReturn` | src/eval-apply.c:1023-1027 | pops a frame and goes on where it says, or stops the loop with the stack of before |
| `EvalApply.Vm.Block` | src/eval-apply.c:417-1028 | every block of the loop does, on registers and slots, exactly the machine's step |
| `EvalApply.Vm.Run` | src/eval-apply.c:417-1028 | the loop is a run of the machine, whatever was captured before; it never stops at an unknown continuation, keeps what was captured, and leaves slots that it can be entered on again |
| `EvalApply.Vm.Call` | src/eval-apply.c:1031-1036 | apply, called any number of times, gives the evaluator's value with stack and captured stacks as they were, slot for slot; it fails where the evaluator does and gives no other value; else the stack is as it was unless a continuation from before was applied |
| `EvalApply.EnoughSteps` | src/eval-apply.c:1031-1036 | what the evaluator has a value for, the loop finishes within some number of blocks |
| `Expander.FormalP` | src/eval-apply.c:260-278 | finds a name in proper and dotted formals and in a single one |
| `Expander.AddFormals` | src/eval-apply.c:247-257 | adds exactly the names of a list, dotted list or single name |
| `Expander.AddDefinitions` | src/eval-apply.c:288-306 | adds exactly the names that the definitions in a body define, up to a quote, and finds them if and only if each of these definitions has a second element |
| `Expander.ExpandList` | src/eval-apply.c:308-355 | replaces the free names of one list and leaves the lists in it for later, none lost; it finds what it looks for if and only if the list is expandable, and has otherwise replaced nothing but marked names |
| `Expander.QuotedExpandable` | src/eval-apply.c:334-335 | quoted data, whatever names they end in, are expandable, and so is a quoted list in operator position |
| `Expander.ExpandVariable` | src/eval-apply.c:359-379 | terminates for all tree-shaped code; it finds every field that it looks at if and only if the code is expandable, and then the cells hold the same code but for exactly the marked names; otherwise it stops, having replaced only some of these |
| `Scoping.MarksExactly` | src/eval-apply.c:281-356 | a name is replaced if and only if it stands as code and is neither among the given formals, nor bound by formals of a lambda or define around it, nor defined in a body around it |
| `Scoping.WalkMarksFree` | src/eval-apply.c:308-355 | the same for the walk over one list |
| `Scoping.QuotedUntouched` | src/eval-apply.c:334-335 | nothing in a quoted list is replaced |
| `Binders.FormalsExactly` | src/eval-apply.c:247-257 | the names of formals are those in the list and the one that ends it, so that a single name is a formal |
| `Binders.BroughtExactly` | src/eval-apply.c:316-333 | what a lambda or define at the start of a list brings: its formals, and of a definition not at top level its own name |
| `Binders.InternalExactly` | src/eval-apply.c:288-306 | a list defines a name if and only if a definition of it, of either shape, is among the items in front of any quote |
| `Binders.CodeClosed` | src/eval-apply.c:308-355 | what is code of a list that is: the lists in it, what is behind its first element, behind a lambda or define what is behind the formals |
| `Binders.ReplacedExactly` | src/eval-apply.c:336-350 | a cell of the code is replaced if and only if it holds a name that nothing keeps: no word that the expander goes by, no given formal, no formals or definitions around it |
| `Binders.FormalsKept` | src/eval-apply.c:316-321 | no cell in the body of a lambda that holds one of its formals, proper, dotted or single, is replaced, wherever the lambda is |
| `Binders.DefinitionsKept` | src/eval-apply.c:288-306 | no cell in a list that holds a name is replaced, if the list holds a definition of it |
| `Binders.FormalsUntouched` | src/eval-apply.c:316-333 | nothing in formals is replaced, nor the word in front of them |
| `Binders.GivenExactly` | src/eval-apply.c:260-278 | the formals that the expander is given: a list, dotted list or single name |
| `Binders.ExpandableExactly` | src/eval-apply.c:288-333 | code is expandable if and only if something stands behind every lambda and define that code begins with, and every definition that the first pass comes to has a second element |
| `Reader.Input.Readchar` | src/posix.c:90-104 | delivers the character put back, or the next one of the file, or end of file, and leaves the slot free |
| `Reader.Input.Unreadchar` | lib/mes/fdungetc.c:24-37 | puts a character back; every call finds the slot free, so it never overflows |
| `Reader.Input.Peekchar` | src/posix.c:72-87 | shows the next character and leaves the input as it was |
| `Reader.ReadIdentifierOrNumber` | src/reader.c:72-111 | reads what the specification reads, with numbers as wrapping words |
| `Reader.EatSpace` | src/reader.c:157-174 | skips white space, line and block comments |
| `Reader.ReadString` | src/reader.c:445-496 | reads a string with its escapes; an unfinished one becomes too long |
| `Reader.ReadChar` | src/reader.c:275-365 | reads a character by name, octal or hexadecimal code, or itself |
| `Reader.ReadRadix` | src/reader.c:368-442 | reads a binary, octal or hexadecimal number as a wrapping word |
| `Reader.Sexp` | src/reader.c:114-154 | reads one datum, as the specification does, from the character in hand |
| `Reader.List` | src/reader.c:177-191 | reads the rest of a proper or dotted list |
| `Reader.Hash` | src/reader.c:212-266 | reads what follows a number sign |
| `Reader.ReadEnv` | src/reader.c:194-197 | reads one datum from any state of the input; the pushback slot is never in use when a character is put back |
| `Writer.Output.FdwriteString` | src/display.c:94-99 | writes every byte, escaped where it has an escape |
| `Writer.Output.DisplayHelper` | src/display.c:104-258 | entered with the levels that its callers leave, writes a datum in full and leaves four levels |
| `Writer.Output.WriteVector` | src/display.c:236-248 | elements separated by single spaces |
| `Writer.Output.Fdisplay` | src/display.c:303-307 | writes all of any finite datum: the depth counter never cuts it short |
| `Writer.Unescapable` | src/display.c:61-99 | text without escapes is written as it is |
| `Layout.EscapesExactly` | src/display.c:60-91 | which bytes are written as a backslash and a letter, and which letter |
| `Layout.EscapedClean` | src/display.c:60-99 | names and strings of any bytes are written without a control character that has an escape |
| `Layout.CharactersExactly` | src/display.c:28-57 | the names of characters, and which characters get a backslash only |
| `Layout.WrittenClean` | src/display.c:104-258 | a datum to any depth is written without such a control character, unless it has the character of code 27 |
| `Layout.ListLayout` | src/display.c:143-182 | a list is its elements in parentheses, single spaces between them, and a dot in front of a tail that is not the empty list |
| `Layout.VectorLayout` | src/display.c:236-248 | a vector the same behind a number sign |
| `RoundTrip.StringReads` | src/reader.c:445-496 | strings of arbitrary bytes read back |
| `RoundTrip.NumberReads` | src/reader.c:72-99 | every word-sized number reads back |
| `RoundTrip.NameReads` | src/reader.c:77-110 | every ordinary name reads back as one symbol |
| `RoundTrip.CharacterReads` | src/display.c:29-58 | every printing character and every control character that the writer names reads back |
| `RoundTrip.KeywordAsDatum` | src/reader.c:242-249 | every keyword whose name is one word, needs no escapes and is no number reads back |
| `RoundTrip.ItemsRead` | src/reader.c:177-191 | proper and dotted lists read back |
| `RoundTrip.VectorRead` | src/display.c:236-248 | vectors read back |
| `RoundTrip.WriteRead` | src/reader.c:114-191 | any readable datum that was written is read back, and nothing behind it is touched, whatever follows that ends a word |
| `RoundTrip.WriteThenRead` | src/display.c:104-258 | the writer and the reader themselves: what one writes the other reads, with the same datum |
| `Names.SexpNames` | src/reader.c:72-111 | every symbol that is ever read is one word and does not begin like another notation |
| `Names.SymbolsExactly` | src/reader.c:72-111 | a symbol reads back from what is written for it if and only if its name is ordinary |
| `Exactly.ReadsFine` | src/reader.c:113-154 | reading from any row of written tokens, whatever the names, numbers and characters in it, comes to tokens again, and never yields a character without a name, an empty symbol or a lone dot inside of something |
| `Exactly.ReadBack` | src/reader.c:113-191 | a datum that is read back, in front of any other tokens, is readable in all its parts |
| `Exactly.DataExactly` | src/reader.c:71-191 | any datum, of pairs and vectors to any depth, reads back from what is written for it if and only if it is readable: its numbers are words, its characters named, its strings not too long, its names ordinary; or it is the lone dot |
| `Notation.PrefixReads` | src/reader.c:135-147 | each of the eight prefixes in front of a datum is the list of its name and that datum, unless a comma meets an at sign |
| `Notation.LineCommentSkipped` | src/reader.c:44-53 | a line comment reads as nothing |
| `Notation.DatumCommentSkipped` | src/reader.c:260-264 | a datum that is commented out reads as nothing |
| `Notation.RadixReads` | src/reader.c:392-442 | what the C library prints in base 8 or 16 reads back for every word |
| `Notation.BlockEndsExactly` | src/reader.c:199-210 | reading a block comment ends, after some number of turns, if and only if the text behind its opening mark holds the closing one; otherwise the source goes on for ever, which is a failure here |
| `Spelling.EscapesRead` | src/reader.c:454-487 | each escape in a string is the byte it stands for |
| `Spelling.HexEscapeReads` | src/reader.c:481-485 | so is a hexadecimal escape |
| `Spelling.BinaryReads` | src/reader.c:368-389 | binary digits behind `#b`, with or without a sign, are the number |
| `Spelling.CharacterNamesRead` | src/reader.c:306-360 | all twenty names of characters read as their codes |
| `Spelling.CharacterCodes` | src/reader.c:280-303 | a character by its code in base 8 or 16 has that code, cut to an int |
| `Spelling.DigitsExactly` | src/reader.c:416-442 | the digits of each base, in either case, and what they stand for |
| `Spelling.NameEnds` | src/reader.c:65-69 | a name ends at white space, a quotation mark, a parenthesis or a comment, and nowhere else |
| `Spelling.PlusReads` | src/reader.c:77-79 | a number may have a plus sign |
| `Spelling.SpaceInList` | src/reader.c:157-160 | white space of any kind in a list |
| `Spelling.SpaceBefore` | src/reader.c:123-127 | white space in front of a datum, of four kinds |
| `Spelling.LineCommentInList` | src/reader.c:161-162 | a line comment in a list |
| `Spelling.BlockCommentSkipped` | src/reader.c:163-173 | a block comment of either kind, in a list or in front of a datum, up to the first closing mark |
| `Spelling.HashDropped` | src/reader.c:265 | a number sign in front of a character that means nothing behind it is dropped with that |
| `Spelling.NothingToRead` | src/reader.c:116-134 | the end of the input, and a parenthesis that closes nothing, read as the empty list; a list that is not closed is an error |
| `Spelling.BehindTail` | src/reader.c:184-190 | what comes behind the tail of a dotted list is read and dropped |
| `Spelling.LowerCase` | lib/mes/ntoab.c:74-83 | digits are printed in lower case |
| `Tables.InTableExactly` | src/hash.c:28-37 | a name hashes inside the table if and only if its sum is not negative, or is a multiple of the size; ASCII names always do |
| `Tables.NoBucket` | src/hash.c:28-37 | the name of the one byte 200 hashes to -72 in the table of symbols |
| `Tables.HashesFirstTwo` | src/hash.c:28-37 | the sum of a name is 37 times its first byte and 43 times its second, if there is one |
| `Tables.HashTable.constructor` | src/hash.c:258-272 | a new table is the empty map, of the default size if none is given |
| `Tables.HashTable.Ref` | src/hash.c:95-112 | the value of the key or the default; no answer for a key without a bucket |
| `Tables.HashTable.Set` | src/hash.c:115-133 | the map changes at that key and nowhere else |
| `Tables.HashTable.CreateHandle` | src/hash.c:136-159 | the value there was, or the new one, and no other key changes |
| `Tables.HashTable.Remove` | src/hash.c:180-208 | the key is gone, with all its shadowed entries, and no other key changes |
| `Tables.LookupWithout` | src/hash.c:180-208 | cutting out the entries of a key hides that key and no other |
| `Tables.Memcmp` | lib/string/memcmp.c:24-40 | zero if and only if the bytes are equal, and otherwise the difference of the first two that differ, as signed characters |
| `Tables.StringEqual` | src/string.c:66-95 | true if and only if the strings are |
| `Tables.Assoc` | src/core.c:34-48 | the first entry with the key |
| `Tables.SymbolTable.constructor` | src/symbol.c:27-42 | the predefined names have their cells from the start, #f the cell that string->symbol takes for nothing found |
| `Tables.SymbolTable.StringToSymbol` | src/string.c:116-122 | the symbol that the name has, or a new one; a name keeps its symbol if and only if it is not #f with its predefined cell; other names keep theirs and no two names share one |
| `Tables.FalseIsReplaced` | src/string.c:116-122 | the name #f gets a second symbol when it is first looked up, and keeps that one |
| `Tables.SymbolTable.MakeSymbol` | src/string.c:125-130 | a fresh symbol, which the name has from now on; other names keep theirs |
| `Tables.SymbolTable.SameSymbol` | src/string.c:116-130 | two strings have the same symbol if and only if they are equal |
| `Lists.ReverseX` | src/core.c:196-209 | turns the links of a list round, in place, in front of another |
| `Lists.Append2` | src/core.c:165-178 | a fresh copy of the first list in front of the second, which is shared; neither changes |
| `Modules.ModuleVariable` | src/module.c:132-152 | wherever the search ends, cyclic uses or not, the worklist finds what the search in depth finds |
| `Modules.ModuleGraph.SearchIsPreorder` | src/module.c:132-152 | on modules that do not use themselves, recursive search finds the first variable in depth-first preorder of the uses |
| `Modules.ModuleGraph.DepthIsSearch` | src/module.c:132-152 | there the search in depth is the plain recursive search |
| `Modules.ModuleGraph.EndsExactly` | src/module.c:137-150 | the worklist runs empty or meets a module that has the name, after some number of turns, if and only if the search in depth meets no module below itself before that; and then both find the same |
| `Modules.ModuleGraph.AbsentEnds` | src/module.c:137-150 | for a name that no reachable module has, the search ends if and only if no walk along uses comes to a module twice |
| `Modules.ModuleGraph.AcyclicEnds` | src/module.c:137-150 | where no walk comes to a module twice, the search for any name ends |
| `Modules.ModuleGraph.FoundIsThere` | src/module.c:132-152 | what is found is the value of the variable in a module that can be reached, and nothing is found if and only if no such module has one |
| `Modules.FoundBeforeCycle` | src/module.c:137-150 | a module that uses another and then itself: the search ends if and only if the other has the name |
| `Buffering.Memmove` | lib/string/memmove.c:24-33 | a copy within one array, however the ranges overlap |
| `Buffering.Memcpy` | lib/string/memcpy.c:25-38 | every byte of the result for any two ranges: a copy, unless the destination starts inside the source, where the bytes in between repeat |
| `Buffering.OriginRepeats` | lib/string/memcpy.c:25-38 | the bytes that come again in an overlapping forward copy do so with the distance of the ranges |
| `Buffering.WrittenAt` | lib/posix/write.c:27-41 | what each byte of a file is after a write |
| `Buffering.Descriptor.Drain` | lib/mes/__buffered_read.c:80-84 | delivers the cached bytes first, in order |
| `Buffering.Descriptor.Refill` | lib/mes/__buffered_read.c:97-107 | after any short read the cache ends with the bytes just before the kernel's offset |
| `Buffering.Descriptor.Read` | lib/mes/__buffered_read.c:72-109 | delivers the bytes at the logical position and moves it by their number; nothing is delivered if and only if nothing is asked for or the file ends; small requests are served in full |
| `Buffering.Descriptor.Clear` | lib/mes/__buffered_read.c:63-69 | empties the cache and tells how much was in it |
| `Buffering.Descriptor.Lseek` | lib/linux/lseek.c:35-46 | seeks from the logical position; a refused seek keeps it if and only if nothing was read ahead |
| `Buffering.Descriptor.Write` | lib/posix/write.c:27-41 | writes at the logical position and moves it by what was written, however much was read ahead |
| `Division.Log2i` | lib/mes/div.c:63-83 | the index of the highest bit that is set |
| `Division.NoBitsLost` | lib/mes/div.c:138-156 | shifting the divisor up by its leading zeros loses no bit |
| `Division.Uldiv1` | lib/mes/div.c:138-156 | long division gives quotient and remainder for every divisor that is not zero |
| `Division.Uldiv` | lib/mes/div.c:185-220 | so do the shifts for powers of two; only zero traps |
| `Division.TruncatesUnique` | lib/mes/div.c:222-225 | there is one quotient and remainder that truncate towards zero |
| `Division.TruncatesMagnitudes` | lib/mes/div.c:222-225 | the magnitudes are divided; the quotient is negative if one operand is, the remainder if the dividend is |
| `Division.Ldiv` | lib/mes/div.c:226-268 | truncating division for every dividend, the smallest included; it traps if and only if the divisor is zero or the smallest number, and is wrong only for the smallest number by minus one |
| `Division.CountDown` | lib/mes/div.c:254-262 | the smallest number is divided by repeated addition |
| `Division.Idiv` | lib/mes/div.c:279-284 | the quotient of truncating division |
| `Division.Imod` | lib/mes/div.c:271-276 | the remainder of truncating division |
| `Numerals.DigitsBound` | lib/mes/ntoab.c:70-80 | in a base of 8 or more a number below the n-th power of 8 has at most n digits |
| `Numerals.Printer.Ntoab` | lib/mes/ntoab.c:51-92 | the text of any word, in any base from 8 on, ends at the end of the 24-byte buffer and never starts before it |
| `Numerals.AlwaysSigned` | lib/mes/ntoab.c:84-88 | in the bases up to 36 every negative number has its sign |
| `Numerals.DigitsValue` | lib/mes/ntoab.c:70-80 | the digits of a number stand for that number |
| `Numerals.Abtol` | lib/mes/abtol.c:26-63 | spaces, signs and the longest run of digits, with the value cut to an int |
| `Numerals.WrapStep` | lib/mes/abtol.c:43-57 | arithmetic that wraps at every digit may as well wrap at the end |
| `Numerals.PrintParse` | lib/mes/abtol.c:26-63 | what was printed in base 8, 10 or 16 parses as the number cut to an int: the round trip is exact if and only if the number is an int |
| `Numerals.BufferParses` | lib/mes/ntoab.c:51-92 | the same for the buffer that the printer leaves |
| `Numerals.PaddedParse` | lib/mes/abtol.c:33-38 | spaces and a plus sign in front of a number change nothing |
| `Numerals.LeadingDigit` | lib/mes/ntoab.c:74-83 | no number but zero begins with a zero |
| `Quicksort.Qswap` | lib/stdlib/qsort.c:26-36 | exchanges two elements byte by byte and touches no other byte |
| `Quicksort.Qpart` | lib/stdlib/qsort.c:39-63 | partitions a range as the specification does, touching nothing else |
| `Quicksort.PartitionShrinks` | lib/stdlib/qsort.c:66-80 | a partition with an empty left side puts a smaller element first, so the recursion on the whole range happens once at most |
| `Quicksort.ScanParts` | lib/stdlib/qsort.c:43-60 | a scan separates the elements at its index if and only if no element above the pivot stands before one that equals it |
| `Quicksort.SortElements` | lib/stdlib/qsort.c:66-80 | sorting permutes |
| `Quicksort.SortsExactly` | lib/stdlib/qsort.c:66-80 | a range ends up sorted if and only if no partition on the way strands an element so |
| `Quicksort.GreatestSorts` | lib/stdlib/qsort.c:66-80 | a range in which only the greatest key repeats ends up sorted |
| `Quicksort.SortsAnyOrder` | lib/stdlib/qsort.c:66-80 | elements are sorted in whatever order they come if and only if only the greatest key repeats among them |
| `Quicksort.SortedStays` | lib/stdlib/qsort.c:39-63 | a range that is sorted stays as it is, equal keys and all |
| `Quicksort.DistinctSorts` | lib/stdlib/qsort.c:66-80 | without equal keys everything is sorted |
| `Quicksort.EqualKeysUnsorted` | lib/stdlib/qsort.c:57-58 | 3, 2, 2 stays as it is |
| `Quicksort.EqualKeysFirst` | lib/stdlib/qsort.c:57-58 | equal keys in front of everything above them do not help: 5, 5, 9, 1, 4 is left unsorted |
| `Quicksort.Qsort` | lib/stdlib/qsort.c:66-80 | terminates for every antisymmetric comparison, makes of a range what the specification says, and touches nothing else |

## Left out

Of the collector:

- growing the arena, dumping it, statistics, debugging output, and the
  environment variables that tune it (src/gc.c:51-150, 325-355, 715-865);
- `Collector.Collector.Gc` takes as its precondition that the reachable objects fit behind the heap; the
  source keeps a safety margin instead (src/gc.c:583-589), and checks no bound
  while it copies;
- the first word of a byte block's bytes shares its storage with the second word
  of the header; here the bytes are a field of their own. A byte block is
  counted in words as if they were cells (src/gc.c:237-240), as in the source;
- the scan ends by calling the flip (src/gc.c:579); here the two are called one
  after the other;
- strings of the arena, structs, closures and continuations as the mutator makes
  them, and `vector->list`, which hands out addresses inside a vector.

Of the interpreter:

- values are trees, not cells, so that code and data cannot be changed or be
  circular, and `eq?` on pairs is not modelled; `Decoding` relates trees to cells,
  but for labels, builtins, structs, vectors and captured continuations;
- macro expansion, `define`, `set!`, `primitive-load`, and bindings in code:
  runs that come to these leave the fragment (`Off`, `Beyond`). So do runs that
  would read a field that their argument does not have, among them an empty
  `begin` form at the end of a body (src/eval-apply.c:899-912);
- `Refinement.ApplySim` gives no value for captured continuations, which have no
  place in an evaluator without a stack; `Continuations` covers them;
- builtins are functions of their arguments, and all their errors are one;
- errors end a run; the source calls Scheme's `throw` if there is one;
- `EvalApply.Vm.Run` takes a bound on the number of blocks, because the source's
  loop need not end; `EvalApply.EnoughSteps` says that some bound is enough;
- after an error `EvalApply.Vm.Call` says nothing of stack and registers;
- numbers and characters are copied when a captured stack is put back
  (src/vector.c:60-72); on trees that is nothing.

Of the expander: looking up a name always finds or makes a binding; modules that
answer a lookup with Scheme code are not modelled. Where code ends behind a
lambda or define, outside of quotes, `Expander.ExpandVariable` stops and says so;
the source reads a field of whatever is there.

Of reader and writer:

- buffers have no end: names and strings longer than the source's buffer, and
  names of characters of ten bytes or more, are not modelled as overwriting it;
- string ports, and the input as anything but one file;
- closures, macros, ports, structs and bindings are written but not meant to be
  read; circular environments are written in a form of their own
  (src/display.c:153-165), and `Writer.Output.Fdisplay` excludes their mark;
- what `display` writes, as opposed to `write`;
- elements of vectors are data here, not cells that may be references;
- numbers are printed from a new buffer each time.

Of the tables:

- `Tables.HashTable.Remove` cuts entries out of a sequence, where the source
  changes links in place; removing from a bucket that was never set reads a
  field of a value that is no pair, and is answered with no here;
- keys that are compared by identity are numbers; symbols are compared by name,
  which is the same as long as they are interned;
- symbols whose name a program changes afterwards.

Of the C library:

- `Buffering.Descriptor.Read`, `Lseek` and `Write` are for regular files and a
  kernel that reports no errors; an error in the middle of a read loses count of
  what was delivered from the cache (lib/mes/__buffered_read.c:88-99);
- `Quicksort.Qsort` sorts elements, and `Quicksort.Qswap` exchanges their bytes;
  that elements are runs of bytes is not carried through. The index that
  `qpart` returns is not cut to an int;
- floating point, formatted input and output, division by way of the compiler.
