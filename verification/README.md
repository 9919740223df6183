# Verified models of mjs

mjs is a JavaScript interpreter in C++ whose values live in a copying garbage collector. This project models
the parts whose correctness is hardest to see from the code and proves what they are for.

- **The collector.** `GcHeap.Heap` is the heap as the program runs it: one array of slots used in two halves, the
  pointer set, the work lists of addresses still to fix up, forwarding positions written over moved objects.
  `Collection` and `Fixups` hold the invariant of the copying loop and what it establishes; `HeapOps` the
  mutator's operations; `ObjectGraph` an abstract heap that never moves or frees anything, and the proof that every
  run of the real heap looks like the same run there. `ValueRepresentation` is the NaN-boxed value that the
  collector relocates through its low 32 bits, `PointerSets` the growing array of pointers.
- **Clients of the collector.** `GcVectors` is the growable vector, `StringCaches` the move-to-front cache of weak
  strings in it, and `CacheInHeap` ties a collection of the heap to what the cache model says a collection does.
- **Labels and completions.** `Statements` is a reference semantics in which every statement is given the labels
  that enclose it in the text. `Interpreter.Evaluator` computes them with two mutable fields, as the program
  does; the two agree in every run, including calls in the middle of expressions and abrupt exits. `StatementSemantics`
  has section 12 of ECMA-262 as rules, written without the reference semantics, and proves that a statement ends as the
  rules derive and in no other way. `Completions`
  computes from the text how a statement can end and proves that its runs end in exactly these ways; `Labels` is the
  scoping rule under which break and continue stay inside a function.
- **Expressions.** `Expressions` has the precedence table, the printer and the climbing parser as functions,
  `Parser.Cursor` and `Printer.PrintVisitor` the loops and the visitor, `ExpressionRoundTrip` what they do to each other,
  `EcmaGrouping` has the productions of sections 11.5 to 11.14 of ECMA-262 and says when they derive a tree and when the
  parser's is that tree.
- **JSON.** `JsonText` has the lexer, parser and stringifier as functions, `JsonParser.Lexer` and
  `JsonStringifier.Stringifier` the stateful versions, `JsonRoundTrip` the text round trip, `JsonNumbers` the
  JSONNumber grammar against what the lexer takes, `JsonGrammar` the whole grammar, with the value each text stands for,
  against the parser, `JsonLayout` what the written text looks like, piece by piece, and `JsonGraph` the cycle check on
  object graphs.
- **Text and arrays.** `Unicode`, `Uri` and `Transcoding` cover UTF-8/UTF-16 conversion, percent encoding and
  escape, `UriGrammar` exactly which texts the two URI decoders accept; `Indices` the names of array indices; `Arrays` the in-place moves of shift, unshift and splice with holes.
  `Wrappers`, `Characters` and `Integers` hold what these share.

## How to read the models

A member of a class that changes state is proved equal to a function of the old state, and the lemmas are about
that function. Exceptions are results (`Option`, `Outcome`, `Scan`, `Parsed`). Integer wrap-around is written out
where the code relies on it or suffers from it.

A heap address (the program stores `uint32_t*`) is `Root(id)` for a tracked pointer outside the heap or
`Field(obj, index)` for a slot of an object. Objects hold tracked pointers, untracked strong pointers, weak
pointers, boxed values and plain data.

An expression in the statement model is a script: which functions it calls and whether it ends in a value or an
exception are inputs, so the theorems hold whatever expressions do. `fuel` bounds how far a run is followed; every
statement is proved for every fuel.

## What the proofs found

These are behaviours of the code, each with its exact condition and, where one helps, an input.

- The byte size passed on when the largest accepted object is moved wraps to 0, so the object can be allocated and
  not collected (`GcHeap.LargestObjectCannotMove`).
- A break that names a labelled block is not absorbed and leaves the function as an abrupt termination
  (`Labels.LabelledBlockLeaks`). A break gets out of the statement whose label it names exactly when the statement
  under the chain of labels is neither loop nor switch (`Completions.BreakGetsOut`), and some run of a program reports
  abrupt termination exactly when some body has a break or continue among its ways (`Completions.ReportsExactly`).
- The printer writes parentheses around looser binary operators only. What it prints is read as the same tree exactly
  when no operator has a child of its own precedence on the side it does not associate to and conditionals stand where
  they need no parentheses, for every tree (`ExpressionRoundTrip.ParsePrinted`, whose condition is
  `ExpressionRoundTrip.Associated`). `(a ? b : c) + d` comes back as another tree
  (`ExpressionRoundTrip.ConditionalRegrouped`), what is printed for `a ? (b, c) : d` cannot be read
  (`ExpressionRoundTrip.CommaBranchFails`).
- The parser's trees are not always those of ECMA-262. `&&` and `||` share a level, so `a || b && c` is read as
  `(a || b) && c` (`EcmaGrouping.OrBindsFirst`); commas group to the right (`EcmaGrouping.CommasToTheRight`); and
  `a + b = c` is read as an assignment to a sum, for which ECMA-262 has no tree (`EcmaGrouping.SumAssigned`). There is
  a tree of that grammar exactly when every assignment is to an operand, and the parser's is that tree exactly when
  besides no `||` stands before a `&&` with no assignment or comma between them and no comma before another
  (`EcmaGrouping.ParsesAsEcmaExactly`).
- The JSON lexer accepts leading zeros (`JsonNumbers.LeadingZeroRead`). It accepts exactly the texts that are in the
  grammar of section 15.12.1.1 of ECMA-262 once superfluous zeros are dropped (`JsonNumbers.AcceptedExactly`), so an
  accepted text is outside the grammar exactly when it has such a zero (`JsonNumbers.OutsideExactly`). That is all:
  but for such zeros JSON.parse accepts the texts of section 15.12.1 and no others (`JsonGrammar.ParsesExactly`).
- The UTF-8 decoder accepts overlong forms (`Unicode.OverlongAccepted`). `Unicode.Utf8ToUtf16Succeeds` says byte by
  byte what is accepted, `Unicode.Utf16RoundTrip` which of it comes back: what has no C0 or C1, no E0 before a byte
  below A0 and no F0 before a byte below 90. decode_uri takes overlong forms too (`UriGrammar.DecodesExactly`).
- The list test of the URI encoder narrows its argument, so some wide characters are emitted raw and some proper
  surrogate pairs are refused (`Uri.NarrowingShows`). `Uri.NarrowingExactly` and `Uri.NarrowingExactlyUri` say for
  which texts the output is what the lists as written would give, `Uri.LetThrough` which units pass wrongly,
  `Uri.RefusedExactly` which well-formed texts are refused. escape narrows in the same way (`Uri.EscapeNarrows`,
  `Uri.EscapeExactly`).
- Some ten-digit numerals are read as indices they do not denote (`Indices.MisreadExactly`, `Indices.NinesMisread`),
  and numerals with superfluous zeros are read as indices whose names they are not (`Indices.LeadingZeroMisread`);
  there is no third kind of string read as an index without being its name (`Indices.NotANameExactly`).
- unshift and splice wrap the new length at 32 bits (`Arrays.Receiver.Unshift`, `Arrays.Receiver.Splice`: both
  directions).
- shift on an object that is no array leaves its last property behind (`Arrays.Receiver.Shift`: exactly then, and when
  that slot was no hole).

## Model

| member | source | states |
|---|---|---|
| ValueRepresentation.DecodeEncode | src/mjs/value_representation.cpp:43-80 | Decoding an encoded value gives the value for every kind; all NaNs become one |
| ValueRepresentation.EncodeInjective | src/mjs/value_representation.cpp:25-57 | Two values share a representation exactly when they are the same value, NaNs identified |
| ValueRepresentation.NumbersAreNotSpecial | src/mjs/value_representation.cpp:17-38 | No number, whatever its bits, is taken for a tagged value |
| ValueRepresentation.MakeReprParts | src/mjs/value_representation.cpp:21-27 | Tag and payload are read back from a made representation |
| ValueRepresentation.WithLowKeepsTag | src/mjs/value_representation.cpp:82-103 | Overwriting the low word changes the position and nothing else, and can be overwritten again |
| ValueRepresentation.FixupMovesValue | src/mjs/value_representation.cpp:82-103 | After its low word is updated a string or object value is the same kind at the new position; no other kind is registered |
| ValueRepresentation.StoreMovesValue | src/mjs/value_representation.cpp:82-103 | The same for any stored word with a registered position, however it was made |
| PointerSets.PointerSet.Insert | src/mjs/gc_heap.h:244-256 | The pointer is appended at the end, also when the array doubles |
| PointerSets.PointerSet.Remove | src/mjs/gc_heap.h:258-267 | The last occurrence is replaced by the last element and the set shrinks by one |
| PointerSets.EraseKeeps | src/mjs/gc_heap.h:258-267 | Erasing from a set without repeats removes that pointer and no other |
| GcHeap.Heap.Allocate | src/mjs/gc_heap.cpp:164-180 | Succeeds exactly when the size is legal and the slots fit; only the header slot and the free position change |
| GcHeap.Heap.GcMove | src/mjs/gc_heap.cpp:84-144 | The position the object was or is forwarded to; an object moved before is not moved again and nothing is registered |
| GcHeap.Heap.MoveNewObject | src/mjs/gc_heap.cpp:103-143 | One more object is forwarded, its header and payload copied, and the loop invariant holds |
| GcHeap.Heap.CopyOut | src/mjs/gc_heap.cpp:103-143 | Memory, pointer set, pending and weak lists after one object is moved: each untracked slot is registered once, tracked ones from the tail of the set |
| GcHeap.Heap.Construct | src/mjs/gc_heap.cpp:104-114 | The new copy: header, payload, and tracked pointers appended to the set |
| GcHeap.Heap.RegisterFrom | src/mjs/gc_heap.cpp:116-126 | The addresses of the pointers a move created are appended to the pending list in order |
| GcHeap.Heap.Fixup | src/mjs/gc_heap.h:483-491 | An object registers each non-null untracked slot once, strong and weak separately |
| GcHeap.Heap.RegisterRoots | src/mjs/gc_heap.cpp:43-47 | The pending list becomes exactly the tracked pointers outside the heap |
| GcHeap.Heap.PopFixup | src/mjs/gc_heap.cpp:56-57 | The last address and the position stored there; the address is in flight and on the list no more |
| GcHeap.Heap.FixUp | src/mjs/gc_heap.cpp:57-59 | Storing the new position through the address in flight keeps the invariant with no address in flight: what was to do there is done |
| GcHeap.Heap.ProcessOne | src/mjs/gc_heap.cpp:57-59 | One address popped and fixed up keeps the invariant; an object is moved or the list gets shorter |
| GcHeap.Heap.ProcessFixups | src/mjs/gc_heap.cpp:55-60 | The loop ends, by unmoved objects and then list length, with nothing pending |
| GcHeap.Heap.SweepWeak | src/mjs/gc_heap.cpp:62-72 | Every registered weak pointer follows its moved target or becomes null |
| GcHeap.Heap.RunDestructors | src/mjs/gc_heap.cpp:182-192 | Every live object of the context is destroyed once, its tracked pointers leave the set, and the context is empty |
| GcHeap.Heap.GarbageCollect | src/mjs/gc_heap.cpp:38-82 | From a well-formed heap to a well-formed heap related by the forwarding map (`Collected`); every live old copy is destroyed exactly once; the use percentage never grows, and is 0 when there are no roots |
| GcHeap.Heap.DestroyAll | src/mjs/gc_heap.cpp:77-79 | Without roots nothing is kept and the same half is emptied |
| GcHeap.Heap.FinishCollection | src/mjs/gc_heap.cpp:62-76 | Weak pointers, the swap of contexts and the destructors complete the collection |
| GcHeap.Heap.AllocateAndConstruct | src/mjs/gc_heap.h:502-509 | A new object held by a new tracked pointer, its slots initialised with words or with the objects that pointers hold, tracked slots attached in order; or no change when it does not fit |
| GcHeap.UseShrinks | src/mjs/gc_heap.h:309-311 | A collection never raises the use percentage, which is at most 100 and 0 after a collection without roots |
| GcHeap.PercentExactly | src/mjs/gc_heap.h:309-311 | The use percentage is the largest whole number of hundredths of the capacity that are in use |
| GcHeap.Heap.AllocateAndAbandon | src/mjs/gc_heap.h:502-509 | A constructor that throws leaves an allocation that is neither live nor collected |
| GcHeap.Heap.CopyPointerTo | src/mjs/gc_heap.h:387-409 | Copying a tracked pointer keeps the pointer set exact |
| GcHeap.Heap.DropPointer | src/mjs/gc_heap.h:392-396 | Destroying a tracked pointer keeps the pointer set exact |
| GcHeap.Heap.LoadField | src/mjs/gc_heap.h:479-481 | A tracked pointer made from a slot; a null slot gives none |
| GcHeap.Heap.PutField | src/mjs/gc_heap.h:397-409 | Storing a word or a position in a slot keeps the heap well formed |
| GcHeap.LargestObjectCannotMove | src/mjs/gc_heap.cpp:103-105 | The copy of an accepted allocation is requested with its own size exactly when the payload is at most 0xFFFFFFF8 bytes |
| Collection.RoomForCopy | src/mjs/gc_heap.cpp:164-180 | Moving an object that was not moved always fits in the other half |
| Collection.MoveKeepsInv | src/mjs/gc_heap.cpp:103-143 | Moving an object keeps the invariant of the copying loop |
| Collection.FixKeepsInv | src/mjs/gc_heap.cpp:56-60 | Writing a forwarded position through a pending address keeps the invariant |
| Collection.ExactlyReachable | src/mjs/gc_heap.cpp:55-60 | When nothing is pending the moved objects are exactly the strongly reachable ones |
| Collection.SweepStep | src/mjs/gc_heap.cpp:62-72 | One weak pointer updated or cleared leaves the others to do |
| Collection.FinalValid | src/mjs/gc_heap.cpp:74-76 | The state after the swap is well formed: tiled without gap, all slots at live objects, pointer set exact |
| Collection.FinalCollected | src/mjs/gc_heap.cpp:38-82 | The forwarding map is one to one from the reachable objects onto the new half; headers, payloads and roots follow it; used slots are the sum of reachable sizes |
| Collection.EmptyCollected | src/mjs/gc_heap.cpp:77-79 | With no roots a collection leaves an empty heap |
| Fixups.PopPending | src/mjs/gc_heap.cpp:56-59 | Popping the last pending address keeps every address listed at most once |
| Fixups.MoveLoop | src/mjs/gc_heap.cpp:103-143 | The lists after a move again name every slot still to fix up exactly once, and the pointer set is exact |
| Fixups.CopiesDone | src/mjs/gc_heap.cpp:74-76 | Before the old half is destroyed every reachable object's old copy has been destroyed once and is not live |
| HeapOps.ApplyValid | src/mjs/gc_heap.h:379-509 | Every mutator operation keeps the heap well formed |
| ObjectGraph.CollectSim | src/mjs/gc_heap.cpp:38-82 | A collection keeps the correspondence with the heap that never moves anything |
| ObjectGraph.RunsAgree | src/mjs/gc_heap.cpp:38-180 | In every run of operations and collections the heap corresponds to the never-moving graph |
| ObjectGraph.RunsLookAlike | src/mjs/gc_heap.cpp:38-180 | Following any path from any root gives the same type, size and words as in the graph, and the same sharing |
| ObjectGraph.CollectionsUnnoticed | src/mjs/gc_heap.cpp:38-82 | A run that reads no weak slot has the objects and roots of the run without its collections |
| ObjectGraph.CollectingRunLooksAlike | src/mjs/gc_heap.cpp:38-180 | A run and the run of the same operations that never collects cannot be told apart without reading weak slots: through any path the same type, size, words and sharing |
| ObjectGraph.WeakSlots | src/mjs/gc_heap.cpp:62-72 | A weak slot is non-null exactly when its target was strongly reachable at every collection since it was made |
| ObjectGraph.AllReachable | src/mjs/gc_heap.cpp:49-76 | After a collection every object in the heap is strongly reachable; weak pointers keep nothing |
| ObjectGraph.FollowMoved | src/mjs/gc_heap.cpp:38-82 | A path leads to the new place of what it led to before |
| ObjectGraph.ValuesFollow | src/mjs/value_representation.cpp:59-103 | A value stored in a surviving object decodes to the same value after a collection; a string or object survives with it and is named at its new place |
| ObjectGraph.CollectTwice | src/mjs/gc_heap.cpp:38-82 | Collecting again at once keeps every object and the same number of slots in use |
| GcVectors.GcVector.PushBack | src/mjs/gc_vector.h:38-41 | The element is appended, a full table being replaced by one of twice the capacity, which never wraps; or nothing changes, exactly when the heap refuses the larger table |
| GcVectors.GrantedIsSmall | src/mjs/gc_vector.h:99-103 | A table that the heap grants has fewer than 2^30 entries, so twice its capacity fits 32 bits |
| GcVectors.GcVector.Grow | src/mjs/gc_vector.h:105-112 | A new table with the same contents, or no change when the heap refuses it |
| GcVectors.GcVector.Erase | src/mjs/gc_vector.h:134-138 | The element is removed and those behind it move down, in place |
| GcVectors.GcVector.PopBack | src/mjs/gc_vector.h:140-143 | The last element is removed |
| GcVectors.GcVector.Resize | src/mjs/gc_vector.h:65-80 | The contents are cut, or filled up with default elements; the doubling never wraps; nothing changes exactly when the heap refuses the capacity it arrives at |
| StringCaches.CalcHash | src/mjs/global_object.cpp:529-538 | The loop computes the FNV hash with 32-bit wrap-around |
| StringCaches.HashVectors | src/mjs/global_object.cpp:529-538 | The hashes of the empty name and of `a` are those published for 32-bit FNV-1 |
| StringCaches.StringCache.Get | src/mjs/global_object.cpp:454-502 | The string returned equals the name; the live names become the old ones with this one in front, the last dropped when full; a new string is made only when none was held |
| StringCaches.StringCache.EraseAt | src/mjs/global_object.cpp:466-472 | Erasing a lost entry leaves the live names alone |
| StringCaches.StringCache.Hit | src/mjs/global_object.cpp:474-484 | A hit moves the entry to the front |
| StringCaches.StringCache.MoveToFront | src/mjs/global_object.cpp:479-482 | The swaps rotate the entry to the front and keep the others in order |
| StringCaches.StringCache.Insert | src/mjs/global_object.cpp:487-501 | A new entry in front, the last one dropped at capacity; the table is never reallocated |
| StringCaches.StringCache.ShiftIn | src/mjs/global_object.cpp:495-499 | Every entry moves up by one and the new one is in front |
| StringCaches.StringCache.Fixup | src/mjs/gc_vector.h:164-169 | After a collection the cache holds, in their order, the names whose strings were kept, with their hashes |
| StringCaches.MovedNamesExactly | src/mjs/global_object.cpp:505-512 | An entry survives exactly when its own string did |
| StringCaches.RunCache | src/mjs/global_object.cpp:454-512 | Any run of requests and collections, each keeping whichever strings it likes: every string handed out reads as the name asked for, and the live names, in the end and before every event, are `Held` of the steps, which `HeldInOrder` and `HoldsTheLastDistinct` describe; a collection's step keeps the names whose own strings were kept |
| StringCaches.KeptTogether | src/mjs/global_object.cpp:505-512 | When a collection keeps all strings of some names together, those are the names that stay |
| StringCaches.HeldInOrder | src/mjs/global_object.cpp:454-502 | In every run with collections anywhere the names held are distinct, latest use first, at most the capacity |
| StringCaches.HoldsTheLastDistinct | src/mjs/global_object.cpp:454-502 | Without collections the cache holds exactly the last distinct names, as many as fit (16 in the program) |
| StringCaches.RecentMeans | src/mjs/global_object.cpp:454-502 | The list of recent names contains every name asked for, once, ordered by last use |
| StringCaches.TouchTake | src/mjs/global_object.cpp:487-499 | Dropping entries beyond the capacity does not change what a later request leaves within it |
| CacheInHeap.CollectionKeepsCache | src/mjs/global_object.cpp:450-452 | A collection of the heap that holds the cache's table does to the cache what the cache model says |
| CacheInHeap.EntriesMoved | src/mjs/global_object.cpp:505-512 | The table's weak pointers follow the strings kept and the others are null; hashes are untouched |
| CacheInHeap.StringsMoved | src/mjs/gc_heap.cpp:84-144 | Strings keep their text at their new place |
| Interpreter.Evaluator.GetLabels | src/mjs/interpreter.cpp:854-863 | The set returned is the chain of labels that directly enclose the statement in the text |
| Interpreter.Evaluator.ExecStatement | src/mjs/interpreter.cpp:886-1118 | Every statement runs as in the reference semantics, which has no label state and ends exactly as the rules of section 12 of ECMA-262 derive (`StatementSemantics.ExecutedExactly`) |
| Interpreter.Evaluator.ExecLabelled | src/mjs/interpreter.cpp:1050-1062 | "Duplicate label" is raised exactly when the enclosing chain repeats the label |
| Interpreter.Evaluator.ExecDo | src/mjs/interpreter.cpp:929-940 | The do loop with its labels asked once equals the reference loop |
| Interpreter.Evaluator.ExecWhile | src/mjs/interpreter.cpp:942-953 | The while loop equals the reference loop |
| Interpreter.Evaluator.ExecFor | src/mjs/interpreter.cpp:955-975 | The for loop equals the reference loop, the initialiser's completion being ignored |
| Interpreter.Evaluator.ExecForIn | src/mjs/interpreter.cpp:977-1026 | The for-in loop equals the reference loop |
| Interpreter.Evaluator.ExecSwitch | src/mjs/interpreter.cpp:1064-1098 | The switch equals the reference switch: first matching case, else default, then fall-through |
| Interpreter.Evaluator.ExecTry | src/mjs/interpreter.cpp:1104-1118 | Catch runs on a throw; an abrupt finally replaces the completion |
| Interpreter.Evaluator.CallFunction | src/mjs/interpreter.cpp:423-438 | A call ends in a value, a rethrown exception, or the abrupt-termination error |
| Interpreter.StaticChains | src/mjs/interpreter.cpp:854-863 | A program whose statements are distinct objects has one label chain per statement |
| StatementSemantics.ExecutedExactly | src/mjs/interpreter.cpp:886-1118 | With enough fuel a statement is executed to a completion, leaving a script, exactly when the rules derive that: the then-branch on a nonzero condition, loops while the condition is nonzero, the first case equal to the switch value or else the default, return and throw with the value evaluated, labels, catch and finally |
| StatementSemantics.CalledExactly | src/mjs/interpreter.cpp:423-438 | A call comes to a value, an exception or the abrupt-termination error exactly when the rules derive that |
| StatementSemantics.OneEnd | src/mjs/interpreter.cpp:886-1118 | The rules derive one end at most for a statement and a script |
| Completions.ExecSound | src/mjs/interpreter.cpp:886-1118 | However a statement ends in any run of any program, it is one of the ways computed from its text |
| Completions.WayReached | src/mjs/interpreter.cpp:886-1118 | For every way there are choices of what expressions do that make the statement end so, whatever is to be run afterwards |
| Completions.EndsExactly | src/mjs/interpreter.cpp:886-1118 | A statement can end in a way exactly when that is one of its ways |
| Completions.ReportsExactly | src/mjs/interpreter.cpp:423-438 | Some run of a program reports abrupt termination exactly when some body has a break or continue among its ways |
| Completions.BreakGetsOut | src/mjs/interpreter.cpp:865-884 | A break gets out of the statement whose label it names exactly when the statement under the chain of labels is neither loop nor switch, no label of the chain repeats, and that statement has this break among its ways |
| Labels.WaysInScope | src/mjs/interpreter.cpp:886-1118 | The ways of a well-labelled statement break or continue only to what encloses it |
| Labels.WellLabelledClean | src/mjs/interpreter.cpp:423-438 | No body of a well-labelled program has a break or continue among its ways |
| Interpreter.RunFunction | src/mjs/interpreter.cpp:423-438 | For every program, script and fuel: the reference result, which the rules derive with the value, the choices taken and the reports counted, and which is one of the body's ways; every label set handed out is the static chain; and a program without a break or continue among its bodies' ways, as every well-labelled one, reports no abrupt termination |
| Labels.NoLeak | src/mjs/interpreter.cpp:423-438 | No body of a well-labelled program ends with a break or continue, in any run and at any depth |
| Labels.ExecEnds | src/mjs/interpreter.cpp:886-1118 | A well-labelled statement breaks or continues only to what encloses it |
| Labels.HandleEnds | src/mjs/interpreter.cpp:865-884 | A loop absorbs what is aimed at it and lets the rest through |
| Labels.LabelledBlockLeaks | src/mjs/interpreter.cpp:1050-1062 | The smallest program that leaks: a labelled block lets its own break through, up to the caller (`Completions.BreakGetsOut` is the exact condition) |
| Parser.Cursor.ParseExpression1 | src/mjs/parser.cpp:589-622 | The two nested loops compute precedence climbing and leave the cursor where it stops |
| Parser.Cursor.ParseUnary | src/mjs/parser.cpp:534-541 | An operand or a parenthesised expression, the cursor behind it; anything else fails |
| Parser.Cursor.ParseAssignment | src/mjs/parser.cpp:624-627 | An operand and everything down to assignment level that climbs onto it, as `Expressions.Assignment` |
| Parser.Cursor.ParseExpression | src/mjs/parser.cpp:629-632 | A whole expression, commas included, as `Expressions.Expression`, whose result `ParsesUniquely` pins down |
| ExpressionRoundTrip.ParsesUniquely | src/mjs/parser.cpp:589-632 | Every operand-operator sequence is consumed whole and gives the only tree over it that precedence and associativity allow |
| ExpressionRoundTrip.ClimbGroups | src/mjs/parser.cpp:589-622 | The loop takes in everything up to its level, grouped |
| ExpressionRoundTrip.TighterGroups | src/mjs/parser.cpp:609-617 | The inner loop takes in what binds tighter, or as tight when right-associative |
| ExpressionRoundTrip.ClimbReaches | src/mjs/parser.cpp:589-622 | Reading a printed tree, the climbing loop gets to hold exactly that tree |
| ExpressionRoundTrip.ReadAll | src/mjs/printer.cpp:98-118 | A printed tree is read back when same-level children stand on the associative side only, whatever follows |
| ExpressionRoundTrip.ParsePrinted | src/mjs/printer.cpp:98-126 | For every tree, conditionals included, and both modes of `in`: what is printed is read as that tree exactly when same-level children stand on the associative side and conditionals only where the parser needs no parentheses |
| ExpressionRoundTrip.ParseRegrouped | src/mjs/printer.cpp:98-118 | Without conditionals what is printed always parses, to the tree with its same-level operators regrouped |
| ExpressionRoundTrip.ExpressionParens | src/mjs/parser.cpp:589-632 | For whatever tree the parser returns it has seen as many parentheses as that tree needs |
| ExpressionRoundTrip.WrittenNeeded | src/mjs/printer.cpp:317-322 | The printer writes no more pairs than the tree needs, and as many exactly for those that come back |
| ExpressionRoundTrip.ConditionalRegrouped | src/mjs/printer.cpp:120-126 | A conditional as the left operand of a sum comes back with the sum in its last branch |
| ExpressionRoundTrip.CommaBranchFails | src/mjs/printer.cpp:120-126 | A comma in a branch is printed so that it cannot be read |
| ExpressionRoundTrip.GroupedPrints | src/mjs/printer.cpp:317-322 | A tree grouped as the tables ask is printed without any parentheses |
| EcmaGrouping.ParsesAsEcmaExactly | src/mjs/parser.cpp:67-126 | Over the tokens of every operand-operator sequence the productions of sections 11.5 to 11.14 derive a tree exactly when every assignment is to an operand, and then one only; the parser returns it exactly when besides no logical or stands before a logical and without an assignment or comma between, and no comma before another |
| EcmaGrouping.LevelsAgree | src/mjs/parser.cpp:67-126 | Of every two operators the one that binds tighter is that of ECMA-262, except for logical and before logical or, and the same levels group to the right, except for the comma |
| EcmaGrouping.DerivesExactly | src/mjs/parser.cpp:67-126 | The productions derive a tree exactly when it is grouped by the levels of ECMA-262 and assigns to operands only |
| EcmaGrouping.EcmaExactly | src/mjs/parser.cpp:67-126 | A tree grouped by the parser's table is grouped by that of ECMA-262 exactly without such an or before an and and without two commas, and exactly when regrouping leaves it alone |
| EcmaGrouping.AssignsExactly | src/mjs/parser.cpp:596-608 | All targets of assignments in a grouped tree are operands exactly when no assignment operator has a tighter operator two tokens before it |
| EcmaGrouping.OneTree | src/mjs/parser.cpp:67-126 | Whatever the table of levels, two trees grouped by it over the same tokens are the same |
| EcmaGrouping.OrBindsFirst | src/mjs/parser.cpp:67-122 | Of an or followed by an and the parser takes the or first |
| EcmaGrouping.SumAssigned | src/mjs/parser.cpp:596-608 | An assignment to a sum is read; the grammar has no tree for it |
| EcmaGrouping.CommasToTheRight | src/mjs/parser.cpp:124-126 | Of two commas the parser takes the second first; the grammar's tree takes the first |
| Printer.PrintVisitor.Visit | src/mjs/printer.cpp:98-125 | The visitor appends the tokens of the tree and nothing else |
| Printer.PrintVisitor.PrintWithParentheses | src/mjs/printer.cpp:317-322 | Parentheses are written exactly around looser operators |
| Printer.PrintExpression | src/mjs/printer.cpp:325-328 | What is printed for any tree parses back exactly when it needs no parentheses that are not written |
| JsonParser.Lexer.NextToken | src/mjs/json_object.cpp:118-261 | The token at the position and the position behind it, or a syntax error |
| JsonParser.Lexer.ScanNumber | src/mjs/json_object.cpp:155-190 | The number branch takes digits, fraction and exponent, and fails where one lacks digits |
| JsonParser.Lexer.ScanQuoted | src/mjs/json_object.cpp:191-252 | The loop with its escape flag reads a string literal with its escapes undone |
| JsonParser.Lexer.Array | src/mjs/json_object.cpp:294-314 | The array loop parses elements to the closing bracket |
| JsonParser.Lexer.Object | src/mjs/json_object.cpp:316-348 | The object loop parses properties; a repeated name overwrites in place |
| JsonParser.Lexer.Value | src/mjs/json_object.cpp:350-366 | One value, the lexer standing behind it |
| JsonParser.ParseText | src/mjs/json_object.cpp:403-416 | The whole text is one value, or a syntax error |
| JsonParser.QuoteText | src/mjs/json_object.cpp:424-452 | The quoting loop escapes quotes, backslashes and control characters |
| JsonRoundTrip.ParseStringified | src/mjs/json_object.cpp:294-576 | For every tree with distinct names and every white-space gap, parsing the stringified text gives the tree with the same order |
| JsonRoundTrip.StringifyInjective | src/mjs/json_object.cpp:605-727 | Different trees have different texts, whatever their gaps |
| JsonRoundTrip.ValueBack | src/mjs/json_object.cpp:350-366 | Standing on a written value the parser reads it and stops right behind it |
| JsonRoundTrip.ItemsBack | src/mjs/json_object.cpp:294-314 | The array loop reads back the elements that are still to come |
| JsonRoundTrip.PropsBack | src/mjs/json_object.cpp:316-348 | The object loop reads back the properties that are still to come, in order |
| JsonRoundTrip.ScanQuoted | src/mjs/json_object.cpp:424-452 | Quoting is undone for every text, whatever follows |
| JsonRoundTrip.NumberAppend | src/mjs/json_object.cpp:155-190 | A number ends where it should whenever what follows cannot continue it |
| JsonNumbers.AcceptedExactly | src/mjs/json_object.cpp:155-190 | A text is taken as a number exactly when it is a JSONNumber once the superfluous zeros behind the sign are dropped |
| JsonNumbers.OutsideExactly | src/mjs/json_object.cpp:155-190 | An accepted text is no JSONNumber exactly when behind the sign a zero is followed by a digit |
| JsonNumbers.LeadingZeroRead | src/mjs/json_object.cpp:155-190 | 01 parses to a number |
| JsonGrammar.ParsesExactly | src/mjs/json_object.cpp:118-416 | JSON.parse gives a value for a text exactly when the grammar of section 15.12.1, numbers with superfluous zeros included, has the text and it stands for that value; \uXXXX is a number in base 16 and every other escape is listed; later properties of a name overwrite earlier ones |
| JsonGrammar.TextRead | src/mjs/json_object.cpp:294-416 | Every text of the grammar is parsed to what it stands for |
| JsonGrammar.ValueDerived | src/mjs/json_object.cpp:350-366 | Whatever the parser reads as a value is, behind white space, a value of the grammar that stands for it, and the lexer stands right behind |
| JsonGrammar.OneMeaning | src/mjs/json_object.cpp:294-416 | The grammar gives a text one value at most |
| JsonGrammar.LastValueFirstPlace | src/mjs/json_object.cpp:316-348 | Of several properties with one name the first says where it stands and the last what it holds, for every list of properties |
| JsonGrammar.DenotesExactly | src/mjs/lexer.cpp:523-536 | Four units are read as a number exactly when they are digits that denote it in base 16 |
| JsonGrammar.Spelled | src/mjs/json_object.cpp:122-153 | Which characters the punctuators, the words, white space and digits of the grammar are |
| JsonGraph.RaisesExactlyOnCycles | src/mjs/json_object.cpp:586-596 | The acyclic error is raised exactly when some path from the root meets an object twice |
| JsonGraph.PathMakesCyclic | src/mjs/json_object.cpp:586-596 | A path that comes back to the stack or to itself is always found |
| JsonGraph.CyclicHasPath | src/mjs/json_object.cpp:586-596 | The error always has such a path behind it |
| JsonGraph.SharedButAcyclic | src/mjs/json_object.cpp:586-600 | Objects reached in several ways but not from themselves raise nothing |
| JsonGraph.UnfoldMirrors | src/mjs/json_object.cpp:605-727 | Without an error the tree written mirrors the graph place for place, undefined and functions left out of objects and null in arrays |
| JsonGraph.MirrorUnique | src/mjs/json_object.cpp:605-727 | Only one tree mirrors a value |
| JsonGraph.WrittenTextParses | src/mjs/json_object.cpp:294-727 | The text written for an acyclic graph parses to the tree that mirrors it |
| JsonStringifier.Stringifier.Push | src/mjs/json_object.cpp:586-596 | Pushes an object unless it is on the stack |
| JsonStringifier.Stringifier.Str | src/mjs/json_object.cpp:673-727 | The text, undefined, or the error, with stack and indentation restored on every exit |
| JsonStringifier.Stringifier.StrArray | src/mjs/json_object.cpp:638-671 | The text of the tree an array unfolds to at the current indentation, or the error; null for elements without a text |
| JsonStringifier.Stringifier.StrObject | src/mjs/json_object.cpp:605-636 | The text of the tree an object unfolds to at the current indentation, or the error; properties without a text left out |
| JsonStringifier.Stringifier.Bracketed | src/mjs/json_object.cpp:557-567 | Brackets, line breaks and separators around the parts, nothing between the brackets when there are none |
| JsonStringifier.StringifyGraph | src/mjs/json_object.cpp:731-742 | On any finite graph: terminates, raises exactly on cycles, and what it writes is the tree that mirrors the graph, laid out with the gap, and parses to it |
| JsonLayout.WrittenLaidOut | src/mjs/json_object.cpp:533-671 | For every tree and every gap the text is the pieces of the tree with nothing between them but: with a gap, a line behind an opening bracket, behind a comma and before the closing bracket of what is not empty, indented by one gap for every bracket open on it, and one space behind a colon |
| JsonLayout.SpellingIs | src/mjs/json_object.cpp:424-452 | Quotes, backslashes and units below 32 are written as these escapes, and every other unit as itself |
| Unicode.Utf16ToUtf8Succeeds | src/mjs/char_conversions.cpp:31-49 | utf16_to_utf8 succeeds exactly on text whose surrogates are all paired |
| Unicode.Utf8RoundTrip | src/mjs/char_conversions.cpp:11-49 | utf8_to_utf16 gives back every text that utf16_to_utf8 accepts |
| Unicode.Utf16RoundTrip | src/mjs/char_conversions.cpp:11-49 | Bytes that utf8_to_utf16 accepts come back exactly when there is no C0 or C1, no E0 before a byte below A0 and no F0 before a byte below 90 |
| Unicode.Utf8ToUtf16Succeeds | src/mjs/char_conversions.cpp:11-29 | utf8_to_utf16 accepts exactly sequences of lead bytes with their tail bytes that are no surrogate, in three bytes or in four, and nothing beyond 10FFFF |
| Unicode.OneCharacter | src/mjs/char_conversions.h:34-92 | The same for the character in front, and that its form is the shortest exactly when no overlong form begins there |
| Unicode.Utf8Denotes | src/mjs/char_conversions.h:34-61 | Accepted bytes are read as the character that their bits denote |
| Unicode.Utf8Inverse | src/mjs/char_conversions.h:34-92 | Every code point's UTF-8 form decodes to it, whatever follows |
| Unicode.Utf16Inverse | src/mjs/char_conversions.h:118-157 | Every scalar's UTF-16 form decodes to it, whatever follows |
| Unicode.Utf16Unique | src/mjs/char_conversions.h:118-157 | What decodes is a scalar whose own form is the units read |
| Unicode.Utf16Denotes | src/mjs/char_conversions.h:118-142 | A single unit is read as itself, a pair as the character its twenty bits denote, and a surrogate without its other half is refused |
| Unicode.Utf8Shortest | src/mjs/char_conversions.h:34-92 | A decoded code point's own form is no longer than the bytes read, and is those bytes when as long |
| Unicode.OverlongAccepted | src/mjs/char_conversions.h:34-61 | A two-byte form of the null character is accepted |
| Uri.DecodeEncoded | src/mjs/global_object.cpp:113-261 | decode_uri gives back the input of every successful encoding, whichever characters are left alone |
| Uri.EncodeSucceeds | src/mjs/global_object.cpp:113-140 | Encoding succeeds exactly when the surrogates that are not left alone stand in pairs |
| Uri.KeptExactly | src/mjs/global_object.cpp:142-160 | Which of the 256 narrow characters each of encodeURIComponent, encodeURI and escape leaves alone |
| Uri.AsciiEncoded | src/mjs/global_object.cpp:88-140 | A character of ASCII that is not left alone becomes a percent sign and its two digits, A to F in upper case |
| Uri.NarrowingShows | src/mjs/global_object.cpp:149-160 | Two inputs: a wide character left alone, and a proper pair refused (`NarrowingExactly` and `RefusedExactly` are the exact conditions) |
| Uri.LetThrough | src/mjs/global_object.cpp:147-160 | The units left alone without being listed are exactly the wide ones whose lower byte is listed |
| Uri.NarrowingExactly | src/mjs/global_object.cpp:113-156 | The encoding of a component is what the list as written gives exactly when neither succeeds or no such unit stands outside the second half of an encoded pair |
| Uri.NarrowingExactlyUri | src/mjs/global_object.cpp:113-160 | The same for a whole URI, with its two lists |
| Uri.RefusedExactly | src/mjs/global_object.cpp:113-140 | A well-formed text is refused exactly when the first half of some pair is left alone and its second half is not |
| Uri.DecodeOne | src/mjs/global_object.cpp:211-261 | One percent-encoded character decodes to its UTF-16 form |
| Uri.UnescapeEscaped | src/mjs/global_object.cpp:164-201 | unescape gives back every text that was escaped |
| Uri.UnitEscaped | src/mjs/global_object.cpp:164-179 | A unit that escape does not leave alone becomes a percent sign and two digits, or with a u and four, A to F in upper case |
| Uri.EscapeExactly | src/mjs/global_object.cpp:164-179 | escape gives what its list as written would give exactly when no wide unit has a listed lower byte |
| Uri.EscapeNarrows | src/mjs/global_object.cpp:164-179 | A wide unit left alone |
| UriGrammar.DecodesExactly | src/mjs/global_object.cpp:211-261 | decode_uri gives a text exactly when its argument is plain units and percent-encoded characters, digits in either case, and stands for that text |
| UriGrammar.UnescapesExactly | src/mjs/global_object.cpp:181-201 | unescape gives a text exactly when its argument is plain units and complete escapes, digits in either case, and stands for that text |
| Characters.HexValueExactly | src/mjs/lexer.cpp:523-528 | A unit is read as a hexadecimal digit exactly when it is one, in either case |
| Transcoding.DecodeUtf8 | src/mjs/char_conversions.h:34-61 | The byte loop computes the code point and its length, or reports an invalid sequence |
| Transcoding.WriteUtf8 | src/mjs/char_conversions.h:71-92 | The bytes written to the buffer are the UTF-8 form; the rest of the buffer is untouched |
| Transcoding.WriteUtf16 | src/mjs/char_conversions.h:144-157 | The units written to the buffer are the UTF-16 form; the rest of the buffer is untouched |
| Transcoding.ToUtf16 | src/mjs/char_conversions.cpp:11-29 | The loop with its buffer computes `Unicode.Utf8ToUtf16`, the inverse of the other direction on well-formed text; it fails where that does |
| Transcoding.ToUtf8 | src/mjs/char_conversions.cpp:31-49 | The loop with its buffer computes `Unicode.Utf16ToUtf8`, which succeeds exactly on well-formed text |
| Transcoding.EncodeUri | src/mjs/global_object.cpp:113-140 | The loop with its byte buffer computes `Uri.Encode`, which decode_uri undoes; a URI error exactly where a surrogate to be encoded is unpaired |
| Transcoding.DecodeUri | src/mjs/global_object.cpp:211-261 | The loop with its byte and unit buffers computes `Uri.Decode`, the inverse of every successful encoding, which accepts what `UriGrammar.DecodesExactly` says |
| Transcoding.EscapeText | src/mjs/global_object.cpp:164-179 | The loop computes `Uri.Escape`, which unescape undoes on every text |
| Transcoding.UnescapeText | src/mjs/global_object.cpp:181-201 | The loop with its bounds checks computes `Uri.Unescape`, which accepts what `UriGrammar.UnescapesExactly` says, or fails where it does |
| Indices.IndexRoundTrip | src/mjs/string.cpp:36-56 | Every 32-bit index is read back from its name |
| Indices.NamesDiffer | src/mjs/global_object.cpp:778-787 | Different indices have different names |
| Indices.MisreadExactly | src/mjs/string.cpp:36-56 | A string is read as a number it does not denote exactly when it is a ten-digit numeral beyond 32 bits whose wrapped value is no smaller than its first nine digits |
| Indices.NotANameExactly | src/mjs/string.cpp:36-56 | A string is read as an index whose name it is not exactly when it is a numeral of two to ten digits that starts with a zero, or one that wraps unnoticed |
| Indices.CanonicalExactly | src/mjs/global_object.cpp:778-787 | The numerals without a superfluous zero are exactly those written for numbers |
| Indices.OneDigit | src/mjs/string.cpp:36-56 | The ten digits, written and read |
| Indices.LeadingZeroMisread | src/mjs/string.cpp:36-56 | 01 is read as index 1 |
| Indices.NinesMisread | src/mjs/string.cpp:48-52 | 9999999999 is read as 1410065407 |
| Indices.IndexString | src/mjs/global_object.cpp:778-787 | The digits written into the buffer from its end are the numeral of the index |
| Indices.ReadIndex | src/mjs/string.cpp:36-56 | The wrapping loop computes the index value or reports an invalid one |
| Arrays.Receiver.Put | src/mjs/array_object.cpp:37-53 | Putting an index property of an array keeps its length above every index |
| Arrays.Receiver.PutLength | src/mjs/array_object.cpp:63-70 | Assigning an array's length deletes exactly the index properties it no longer covers |
| Arrays.Receiver.Shift | src/mjs/array_object.cpp:176-196 | The first slot is returned and the rest move down, holes as holes; the last property stays behind exactly on a receiver that is no array and whose last slot was no hole |
| Arrays.Receiver.Unshift | src/mjs/array_object.cpp:198-220 | The items stand in front of the old slots exactly when the new length fits in 32 bits, for arrays and other receivers; the length is the wrapped sum and again above every index |
| Arrays.Receiver.Splice | src/mjs/array_object.cpp:222-316 | A negative start counts from the end, both ends of the cut are kept within the array, and a missing count takes everything behind the start; the slots cut out are returned, holes as holes, and the receiver becomes the spliced list exactly when the new length fits in 32 bits; its length is again above every index |
| Arrays.Receiver.MoveDown | src/mjs/array_object.cpp:283-296 | The overlapping move towards the front gives every later slot its new index, holes as holes, and what is left over at the end is deleted |
| Arrays.Receiver.MoveUp | src/mjs/array_object.cpp:297-308 | The overlapping move towards the end gives every later slot its new index, holes as holes, whenever the new length fits in 32 bits |
| Arrays.SplicedSlots | src/mjs/array_object.cpp:256-316 | What the loops leave, index by index, is the spliced list exactly when its length fits in 32 bits |

## Left out

- Console, REPL, file loading, stack-trace text and debug printing: input and output only.
- Number formatting and parsing, regular expressions, dates, sorting: library code or files outside this model. JSON numbers are the texts the number branch accepts.
- User callbacks in the middle of an operation: getters, toJSON, replacers, revivers, and prototypes with index properties.
- GcHeap.Heap.GarbageCollect: order of destruction inside an object is reverse slot order and destructors have no other effect; raw references that the program keeps across a collection are not modelled.
- GcHeap.Heap.AllocateAndConstruct: constructors that allocate other objects are a sequence of operations here, the inner ones first.
- GcHeap.Heap.RegisterRoots: the pointer set is a list field of the heap; `PointerSets` proves the array version equal to the list operations used.
- Interpreter.RunFunction: statements are identified by a number instead of their address, so reuse of a freed statement's address is outside the model; scopes and values are not modelled.
- Interpreter.Evaluator.ExecStatement: a run is cut off where `fuel` ends; what is proved holds for every fuel, and a run that is cut off makes no claim about its end.
- Interpreter.Evaluator.ExecFor: the assertion that the initialiser completes normally is not modelled; its completion is ignored, as in a build without assertions.
- Parser.Cursor.ParseUnary: prefix, postfix, member and call expressions are operands here; strict-mode checks are left out.
- EcmaGrouping.ParsesAsEcmaExactly: like `ExpressionRoundTrip.ParsesUniquely` about sequences of operands and binary operators; what stands in parentheses is such a sequence of its own, conditional operators are not covered, and every operand counts as a left-hand-side expression, also a prefix or postfix expression, which section 11.13 does not let stand before an assignment operator.
- ExpressionRoundTrip.ParsePrinted: dot and bracket operators, whose operands the printer treats apart, are operands here.
- JsonGraph.RaisesExactlyOnCycles: the list of property names a replacer array allows is not modelled; an object's own enumerable properties are written.
- JsonStringifier.StringifyGraph: the gap is given as text; taking it from the third argument, at most ten units or spaces, is not modelled.
- JsonParser.Lexer.NextToken: error messages and positions.
- StringCaches.StringCache.Get: positions of strings come from a counter here; `CacheInHeap` relates them to positions in the collected heap.
- CacheInHeap.EntriesMoved: an entry's hash and weak pointer take two slots here and share one in the program.
- GcVectors.GcVector.PushBack: how many slots are free is an input; `GcHeap.Heap.Allocate` is the allocation itself, and elements take at least the four bytes of a position.
- Arrays.Receiver.Unshift: assigning the length of a receiver that is no array stores a number; conversions of other length values are not modelled.
- Arrays.Receiver.Splice: a start or count that is infinite or not a number is an integer beyond the array, or 0, here.
- Uri.DecodeEncoded: what decode_uri reads when a percent escape is missing at the very end of the text counts as an error.
- Arrays that are not extensible, `defineProperty` on indices, `concat`, sparse fast paths, Unicode tables: easy, or large with little to prove.
