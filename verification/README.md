# A verified model of the Lama runtime and tools

Lama is a small language with closures, S-expressions and a garbage-collected heap. This project
models, in Dafny, the parts of its repository where the reasoning is hardest, and proves what they
are for.

- **The mark-compact collector** (`runtime/gc.c`). `Words`, `Chunk`, `MarkQueue`, `Heap`, `Sliding`,
  `Locations`, `References`, `Relocation`, `Objects`, `Compaction`, `Allocation`, `Mutation`,
  `Collector`, `Mapping`, `Mutator`, `MutatorLaws`, `Clients` and `TopRoot`. The heap is an array of words that parses
  into objects; marks, enqueued bits, forward addresses and the mark queue all live in the objects' forward
  words. The main result is that the collector is invisible: any run of allocations, of loads and stores of
  fields, string bytes, tags and code words computes what it would compute on an ideal heap that never moves
  or frees anything (`Mutators.Run`), where loads find what was stored and nothing else changes
  (`MutatorLaws`). It rests on exact
  reachability of marking, the capacity of the queue inside the heap, safe sliding into a larger chunk
  at another address, and an isomorphism of the object graphs over a whole cycle.
- **The concurrent copy** (`Assignment10`). `BoundedDeque`, `ThreadPool`, `PoolRuns`, `ParallelCopy`,
  `CopySafety` and `CopyProgress`. Caller and workers are a state machine of critical sections,
  notifications and single bytes copied. In every interleaving the target is the source when the call
  has returned, no wakeup is lost, nothing deadlocks, no two threads write one byte, and every call
  returns.
- **The two bytecode interpreters** (`Assignment02`, checked, and `Assignment04`, unchecked). `Bytecode`,
  `Interpreter`, `Machine`, `Erasure`, `Effects`, `Refinement`, `Discipline` and `MachineRuns`; `Language`,
  `Postfix`, `Correspondence`, `Instructions`, `Calling`, `Correctness`, `Programs` and `Assembly`. One
  specification of an instruction has the checks as a parameter; the class `Machine` does it in place. What
  the instructions compute is fixed from outside: `Language` evaluates expressions, loops, functions and
  closures with neither code nor a stack, and the postfix code of every program, run from any state that stands
  for an environment, leaves what the evaluator gives (`Correctness.Correct`), so that a machine prints what
  the program means (`Programs.RunProgram`). On
  every input the unchecked interpreter on a packed file repeats every non-failing checked run state for
  state, and on code with consistent operand depths both keep the stack discipline over whole runs;
  `MachineRuns` says both of the machines themselves.
- **Lexical addressing** (`Assignment05`). `Scopes`, `LexicalAddressing`, `ParseRuns`, `NodeParser` and
  `Activations`. The parser's resolution with remembered captures equals an uncached lookup of the
  nearest declaration, and at run time the walk along frames finds the activation of the declaring
  function, never through a null frame.
- **The idiom analyser** (`Assignment03`). `InstructionGraph`, `IdiomProcessor`, `IdiomSweep`, `IdiomEnd`,
  `ControlFlow` and `IdiomRanking`. The worklist computes the least closed set of an edge relation that is
  where the interpreter can go on (`ControlFlow`), the sweep ends exactly when it passes every
  STOP that it comes to, it is complete exactly when no reachable instruction starts inside another, and the
  reported frequencies are exact.
- **Values and ownership** (`runtime/runtime.c`, `Assignment08`). `Trees`, `ValueOrder`, `ValueHash`,
  `HeapValues`, `Tags` and `StringPtr`. Structural comparison is a total preorder that sees texts up to their
  first zero byte, with its direction stated position by position; where it goes wrong on wide numbers, and where equal values hash differently, is said with
  exact conditions. Tags round-trip through their hashes, and the string handle with a one-bit reference
  count never dangles or frees twice.

## How to read it

Words and addresses are natural numbers; bit masks are written as arithmetic. Code that updates state is
a class or a method proved against a function of the old state, and the lemmas are about that function.
`old` names in the collector are ghost: `names[k]` is the name that the mutator knows object k by, and
`ideal` holds every object ever made under its name. `IsRoot` are the words strictly between the stack's
top and bottom and the words under the extra roots.

What the collector needs from its surroundings is stated in its preconditions:

- The word at `__gc_stack_bottom` is fixed although it was not marked from (`runtime/gc.c:244` scans up to
  it, `runtime/gc.c:463` fixes one word more). It must hold a word that
  is good to fix; in whole runs it is an extra root or holds an immediate. What a pointer means that stands
  there without being a root is not promised after a collection.
- The word at `__gc_stack_top` is no root. An extra root at exactly this word is marked from but not fixed
  (`runtime/gc.c:369-380`): `Collectors.Collector.Collect` proves that all roots keep their meaning if and
  only if no such root holds a pointer, and `TopRoot.TopRootIsLost` constructs the case where one does.
- Every traced field and root is an immediate, a word outside the heap, or the address of an object's
  contents: no interior pointers.
- mmap gives an aligned region apart from the old chunk that nothing points into.

## Model

| member | source | states |
|---|---|---|
| Words.ObjWords | runtime/runtime_common.h:57 | an object takes the least whole number of words that holds its bytes, at least two |
| Words.WordsOfKinds | runtime/runtime_common.h:57 | kind by kind: two words and the fields, one more for the tag of an s-expression; of a string the words up to the one with its final zero byte |
| Words.HeaderParts | runtime/runtime_common.h:39-40 | tag and length are read back from a header |
| Words.ByteAtIs | runtime/runtime.c:698 | byte j of a word is its digit j to the base 256 |
| Words.SetForward | runtime/gc.h:35-37 | storing an aligned address keeps the mark and enqueued bits and is read back exactly |
| Words.SetMark | runtime/gc.h:26-27 | marking sets the mark bit and changes neither the enqueued bit nor the address |
| Words.ResetMark | runtime/gc.h:31 | unmarking clears the mark bit and changes nothing else |
| Words.MakeEnqueued | runtime/gc.h:28-29 | the enqueued bit is set, mark bit and address stay |
| Words.MakeDequeued | runtime/gc.h:30 | the enqueued bit is cleared, mark bit and address stay |
| Chunks.Chunk.GraphIsWellFormed | runtime/gc.c:845-864 | the edges that the pointer-field iterator yields lead to objects of the same chunk |
| Chunks.Chunk.FieldIsEdge | runtime/gc.c:845-864 | a traced field that is a valid heap pointer is an edge to the object it addresses, and only such fields are |
| Chunks.Chunk.ShapeKeepsGraph | runtime/gc.h:26-37 | writing forward words changes neither the layout nor the object graph |
| Chunks.Chunk.ForwardKeepsShape | runtime/gc.h:37 | a write to one forward word touches no header, no field and no other forward word |
| Chunks.Chunk.GoodInRange | runtime/gc.c:501-505 | for words that are good, even and within the used part of the chunk means exactly: the address of an object's contents |
| Chunks.Chunk.ContentIsInjective | runtime/gc.c:866-876 | different objects have different content addresses |
| MarkQueue.RoomInQueue | runtime/gc.c:507-513 | whenever an unmarked, not enqueued object exists the queue has a free cell, so the tail never passes the end of the heap |
| MarkQueue.EnqueueAppends | runtime/gc.c:507-513 | enqueueing appends to the queue threaded through the forward words: the k-th enqueue uses the k-th object's cell, marks and older cells stay |
| MarkQueue.DequeueTakesOldest | runtime/gc.c:515-522 | dequeueing yields the oldest element and, with marking, moves exactly it from enqueued to marked |
| MarkQueue.EmptyQueue | runtime/gc.c:527-533 | at the start of mark nothing is enqueued and both iterators agree with an empty history |
| MarkQueue.DrainedQueue | runtime/gc.c:536 | when head meets tail no enqueued bit is left and the marked set is the old one plus everything ever enqueued |
| MarkQueue.ExploreOne | runtime/gc.c:538-553 | one turn keeps: every child of a dequeued object is marked or in the history, and the history is reachable from the root |
| MarkQueue.ExploredAll | runtime/gc.c:524-554 | a drained queue has marked exactly what the root reaches, on top of a closed marked set |
| Graph.ReachLeast | runtime/gc.c:524-554 | the reachable objects are the least set that holds the roots and is closed under the edges |
| Graph.ReachUnion | runtime/gc.c:243-247 | what several roots reach is the union of what each reaches, so marking root by root is enough |
| Heaps.Heap.constructor | runtime/gc.c:589-605 | a new heap is an aligned, zeroed chunk with no objects |
| Heaps.Heap.SkipImmediates | runtime/gc.c:845-860 | the field iterator stops at the first even field or at the end, and skips only immediates |
| Heaps.Heap.AllocOnExistingHeap | runtime/gc.c:189-197 | takes the words behind current, zeroed, exactly when they fit; fails without change otherwise |
| Heaps.Heap.WriteHeader | runtime/gc.c:892-956 | the header and zero forward word make the taken words one new object |
| Heaps.Heap.QueueEnqueue | runtime/gc.c:507-513 | the in-place enqueue is the abstract one on the chunk, and advances the tail by one object |
| Heaps.Heap.QueueDequeue | runtime/gc.c:515-522 | returns the object in the head's cell, clears its enqueued bit and advances the head |
| Heaps.Heap.EnqueueFields | runtime/gc.c:540-552 | after the field loop every child of the object is marked, in the queue, or was handled before; the queue stays a correct FIFO |
| Heaps.Heap.Mark | runtime/gc.c:524-554 | on a closed marked set: marked afterwards is marked before plus everything reachable from obj; nothing is left enqueued; nothing but forward words changed |
| Heaps.Heap.MarkFrom | runtime/gc.c:529-554 | the breadth-first loop from one unmarked object, which ends because every object is enqueued at most once |
| Heaps.Heap.MarkNext | runtime/gc.c:536-552 | one turn of the loop keeps the queue and the exploration invariant |
| Heaps.Heap.ComputeLocations | runtime/gc.c:305-328 | every live object's forward address is the chunk's base plus the total size of the live objects before it; the result is the total |
| Heaps.Heap.LocateNext | runtime/gc.c:312-321 | one object of the scan: its forward address if marked, nothing otherwise |
| Heaps.Heap.Remap | runtime/gc.c:284-294 | the new chunk, possibly larger, starts with a copy of the old words at a new address |
| Heaps.Heap.FixedIsMoved | runtime/gc.c:446-453 | for every pointer to a live object this arithmetic is the address where the object will be |
| Heaps.Heap.UpdateReferences | runtime/gc.c:428-461 | every pointer field of every live object is carried to its target's new place; all other words stay |
| Heaps.Heap.UpdateField | runtime/gc.c:434-453 | one field: moved if it points into the old chunk, unchanged otherwise |
| Heaps.Heap.MoveObject | runtime/gc.c:490-491 | memmove of an object's bytes and unmarking at the destination, right even when source and destination overlap |
| Heaps.Heap.PhysicallyRelocate | runtime/gc.c:477-499 | after the pass each live object lies at its destination as it was before the pass |
| Heaps.Heap.RelocateNext | runtime/gc.c:482-494 | one object of the pass: objects not yet moved are untouched |
| Sliding.DestAtMostStart | runtime/gc.c:309-321 | an object's destination is never behind its source |
| Sliding.DestIsMonotone | runtime/gc.c:309-321 | destinations increase with the sources |
| Sliding.DestBlocksAreDisjoint | runtime/gc.c:309-321 | destination blocks of different live objects are disjoint and in order |
| Sliding.NewStartsIncrease | runtime/gc.c:309-321 | the new layout is strictly increasing and contiguous from the base |
| Sliding.LiveOfRank | runtime/gc.c:305-328 | the live objects in order are an increasing list of exactly the live set |
| Relocation.SlideOne | runtime/gc.c:482-494 | moving object k to its destination does not damage objects already moved nor those still to move |
| Relocation.ArrivedStay | runtime/gc.c:490 | an earlier arrival is not touched by a later move |
| Relocation.MovedBytes | runtime/gc.c:490 | only the object's own bytes move; of a string's last word the bytes behind the string may differ |
| References.UpdateOne | runtime/gc.c:434-453 | updating one traced field extends the updated part by it |
| References.HeadersStay | runtime/gc.c:423-475 | updating references changes no header and no forward word |
| References.FixedPointer | runtime/gc.c:446-453 | the address arithmetic does not leave the address space and lands on the target's content |
| Locations.LocateOne | runtime/gc.c:314-320 | one more object located, mark bits unchanged |
| Compaction.CompactedParses | runtime/gc.c:276-303 | the compacted chunk parses into exactly the live objects, in their old order, from its first to its last used word |
| Compaction.CompactedIsUnmarked | runtime/gc.c:492 | no mark and no enqueued bit is left after a collection |
| Compaction.MovedPoints | runtime/gc.c:446-453 | the image of a good word is good: a moved pointer addresses an object of the new chunk, everything else is unchanged |
| Compaction.ObjectSurvives | runtime/gc.c:276-303 | each live object has the same header and, field by field under any naming of the objects, the same contents at its new place: an isomorphism of the object graphs |
| Compaction.CompactedIsWellPointed | runtime/gc.c:199-240 | every traced field of the new chunk is again an immediate, a foreign word, or an object's address |
| Compaction.CompactedDepicts | runtime/gc.c:199-240 | before and after, the chunk depicts the same ideal objects under names carried along |
| Compaction.CollectedHeap | runtime/gc.c:199-240 | marking, locating, updating and sliding together give a valid unmarked heap with the same ideal objects |
| Compaction.CollectedRoot | runtime/gc.c:330-421 | a fixed root means after the collection what it meant before |
| Compaction.UnfixedRoot | runtime/gc.c:369-380 | a root that is skipped keeps its meaning exactly if it held no pointer |
| Compaction.MovedIsNotOld | runtime/gc.c:466-467 | a fixed word does not point into the old chunk, so scanning an extra root again could not change it twice |
| Compaction.CarriedName | runtime/gc.c:276-303 | the object of rank r after the collection is the r-th live object of before |
| Collectors.NextCapacity | runtime/gc.c:279-282 | the next chunk is the largest of twice the live words with the request, 64 words, and the old size; so it has room for the live words and the request |
| Collectors.Collector.constructor | runtime/gc.c:584-605 | a collector starts valid, with an empty heap of the minimum capacity |
| Collectors.Collector.MarkRoot | runtime/gc.c:572-581 | one root: what it reaches is added to what the roots so far reach |
| Collectors.Collector.ScanStack | runtime/gc.c:243-247 | the words strictly between top and bottom are marked from |
| Collectors.Collector.ScanExtraRoots | runtime/gc.c:556-562 | the words under the extra roots are marked from |
| Collectors.Collector.MarkPhase | runtime/gc.c:249-274 | marked at the end is exactly what the roots reach, and nothing is enqueued |
| Collectors.Collector.FixWord | runtime/gc.c:334-345 | one root word: moved if it points to a live object, otherwise unchanged |
| Collectors.Collector.FixStack | runtime/gc.c:330-350 | all words from behind top up to and including bottom are fixed, nothing else |
| Collectors.Collector.FixExtraRoots | runtime/gc.c:352-421 | extra roots outside the stack window are fixed once, also when registered twice; those inside are skipped since they were fixed with the stack |
| Collectors.Collector.LocateAndRemap | runtime/gc.c:276-294 | locations are prefix sums of live sizes, and the new chunk is a copy at the mapped address with the computed capacity |
| Collectors.Collector.UpdateAndRelocate | runtime/gc.c:296-299 | references, roots and objects together: the chunk becomes the compacted one |
| Collectors.Collector.CompactPhase | runtime/gc.c:276-303 | compact_phase yields the compacted chunk in the new region, with room for the request |
| Collectors.Collector.MarkAndCompact | runtime/gc.c:199-240 | one whole cycle: what survives is exactly what the roots reach |
| Collectors.Collector.Collect | runtime/gc.c:199-241 | a collection is invisible: the ideal objects stay, each root is carried over once, and all roots keep their meaning if and only if no extra root at exactly top holds a pointer; afterwards the request fits |
| Collectors.Collector.AllocInPlace | runtime/gc.c:189-197 | where there is room: one zeroed object behind the others, and every root keeps its meaning; without room nothing changes |
| Collectors.Collector.AllocObject | runtime/gc.c:58-80 | whether or not it collects, allocation adds one zeroed object, disjoint from all others, keeps every root's meaning, and after a collection never fails |
| Collectors.Collector.LoadWord | runtime/runtime.c:686-702 | reading a content word through a pointer gives what the ideal object has there: a named object for a traced field, the bits of any other word |
| Collectors.Collector.StoreWord | runtime/runtime.c:947-968 | writing a content word, traced or not, changes this word of one ideal object and nothing else |
| Allocation.AppendedParses | runtime/gc.c:189-197 | a chunk extended by a new header parses into the old objects and the new one |
| Allocation.AppendedDepicts | runtime/gc.c:892-956 | the extended chunk depicts the old ideal objects and one fresh object |
| Allocation.NewObjectIsFresh | runtime/gc.c:189-197 | all fields of the new object are zero words |
| Allocation.LooksAfterAppend | runtime/gc.c:189-197 | words keep their meaning across an allocation without collection |
| Mutation.StoredDepicts | runtime/runtime.c:947-968 | a store into any content word of an object, a byte of a string included, is a store into one word of one ideal object |
| Mutation.WordMeans | runtime/runtime.c:686-702 | a content word read from the chunk means the ideal object's word, and a traced one is good |
| Words.LowBytesKeepBytes | runtime/runtime.c:952-955 | reading and writing a byte of a string does not depend on the bytes behind the string |
| Mappings.MappableAbove | runtime/gc.c:284-288 | a region above the chunk and above every even word that a collection looks at meets what a collection needs |
| Mappings.Mmap | runtime/gc.c:284-288 | one way to choose the region: above everything that a collection could take for an address; it fails only when no address space is left there |
| Mappings.AllocWithMmap | runtime/gc.c:58-80 | allocation with an mmap that may fail: one more object, roots keep their meaning, words that are no pointers stay as they are, and it fails only without room and address space |
| Mutators.ByteMeans | runtime/runtime.c:952-955 | a byte of a string is the byte of the ideal string, before and after a store of another byte |
| Mutators.StoreByteRoot | runtime/runtime.c:952-955 | a store of a byte into a string changes this byte of one ideal string |
| Mutators.LoadByteRoot | runtime/runtime.c:698 | a byte of a string, as a signed char, boxed |
| Mutators.TagMatches | runtime/runtime.c:878-887 | an object matches a pattern if it is an S-expression with this tag and length |
| Mutators.Step | runtime/gc.c:58-80 | one operation of compiled code is the ideal machine's step, whose effect MutatorLaws states; it can fail only in an allocation for which neither chunk nor address space has room |
| Mutators.Run | runtime/gc.c:58-80 | any run of allocations, of loads and stores of fields, string bytes, tags and code words, of tag tests and copies, with collections wherever they happen, ends in the state of the ideal machine that never collects, of which MutatorLaws states that loads find what was stored and nothing else changes |
| Mutators.RunOneMore | runtime/gc.c:58-80 | the ideal run of n+1 operations is one step after the ideal run of n |
| MutatorLaws.StoredIsLoaded | runtime/runtime.c:963 | after a store of a root into a field and then any operations that spare this field and root, a load of the field gives what the root held |
| MutatorLaws.OthersStay | runtime/runtime.c:947-968 | an operation changes no word of an object but the one it writes, and no root but its destination |
| MutatorLaws.SparedStays | runtime/runtime.c:947-968 | so does any run: what no operation writes is as it was |
| MutatorLaws.RunsJoin | runtime/gc.c:58-80 | a run and one more operation is the step after the run |
| MutatorLaws.BoxRoundTrip | runtime/runtime_common.h:54-55 | unboxing a box gives the number back modulo 2^63, exactly and with its sign in 64 bits for numbers of 63 bits; the box of one that is not negative is 2x + 1 |
| MutatorLaws.SignedCharOfLowByte | runtime/runtime.c:698 | the byte of a stored number comes back as the signed number with the same low byte |
| MutatorLaws.StoredByteIsLoaded | runtime/runtime.c:952-955 | after a byte is stored and loaded the destination holds the boxed signed low byte |
| MutatorLaws.OtherBytesStay | runtime/runtime.c:952-955 | a stored byte changes no other byte of any string |
| MutatorLaws.AllocatedIsNew | runtime/gc.c:892-956 | an allocation gives an object that no root knew, of the tag and length, all of whose words are zero; every other object stays |
| MutatorLaws.MatchesTag | runtime/runtime.c:878-887 | a tag test leaves 3, the boxed 1, for an S-expression with this tag and length, and 1, the boxed 0, for everything else |
| MutatorLaws.SetTagMatches | runtime/runtime.c:868-870 | a tag that was set is the tag that matches |
| MutatorLaws.CopiesAndImmediates | runtime/gc.c:58-80 | a copy changes one root to what its source holds, an immediate one root to the given word |
| MutatorLaws.StoreThenLoad | runtime/runtime.c:947-968 | the same on the collected heap: whatever collections happen between a store and a load, the loaded root means what the stored one meant |
| MutatorLaws.RootLooks | runtime/gc.c:199-240 | what a root is on the ideal heap is what the word under it means on the collected one |
| Clients.PushExtraRoot | runtime/gc.c:622-630 | registers a root, or ends the program when all 32 are taken; the word at top may be registered as long as it holds no pointer, the word at bottom always |
| Clients.PopExtraRoot | runtime/gc.c:632-645 | removes the last root, and ends the program when it is not the one named or there is none |
| Clients.PushArgs | runtime/runtime.c:827-829 | all arguments are registered in order |
| Clients.Fill | runtime/runtime.c:833-835 | the new object's fields become what the arguments mean now, which is what they meant before the allocation |
| Clients.AllocWithArgs | runtime/runtime.c:827-831 | registered arguments mean after the allocation what they meant before it |
| Clients.Barray | runtime/runtime.c:821-843 | the array holds what the elements meant before the call, wherever a collection moved them; the root pool is as before; it fails only on a full pool or without address space |
| Clients.Bclosure | runtime/runtime.c:795-819 | the same for a closure: the code word first, then the captures, whether or not one of them is the word behind the stack |
| Clients.Bsexp | runtime/runtime.c:849-876 | the same for an S-expression, whose tag is read behind the elements and set after they are copied |
| TopRoot.TopRootIsLost | runtime/gc.c:369-380 | an extra root at exactly the top of the stack no longer means its object after a collection |
| BoundedDeques.RemainderIsCell | Assignment10/src/bounded_deque.h:102-174 | the remainders in the code are the ring positions of the elements |
| BoundedDeques.EndsAreFree | Assignment10/src/bounded_deque.h:137-169 | while there is room, the two end cells hold no element |
| BoundedDeques.RingPushBack | Assignment10/src/bounded_deque.h:137-141 | writing the back cell appends to the sequence, also around the end of the array |
| BoundedDeques.RingPushFront | Assignment10/src/bounded_deque.h:157-161 | writing the front cell prepends to the sequence |
| BoundedDeques.RingPopFront | Assignment10/src/bounded_deque.h:171-174 | advancing the front drops the first element; the end positions stay consistent also when the ring was full |
| BoundedDeques.BoundedDeque.constructor | Assignment10/src/bounded_deque.h:60-66 | every capacity, zero and one included, gives an empty deque |
| BoundedDeques.BoundedDeque.Front | Assignment10/src/bounded_deque.h:112-120 | the first element |
| BoundedDeques.BoundedDeque.Back | Assignment10/src/bounded_deque.h:102-110 | the last element |
| BoundedDeques.BoundedDeque.PushBack | Assignment10/src/bounded_deque.h:137-148 | appends, for the caller that keeps the size below the capacity |
| BoundedDeques.BoundedDeque.PushFront | Assignment10/src/bounded_deque.h:157-169 | prepends, for the caller that keeps the size below the capacity |
| BoundedDeques.BoundedDeque.PopBack | Assignment10/src/bounded_deque.h:151-154 | drops the last element |
| BoundedDeques.BoundedDeque.PopFront | Assignment10/src/bounded_deque.h:171-174 | drops the first element |
| BoundedDeques.BoundedDeque.Empty | Assignment10/src/bounded_deque.h:122-125 | true exactly for the empty sequence |
| PoolRuns.StepKeepsWakeups | Assignment10/src/thread_pool.h:90-128 | no step of submitters or workers leaves queued work without an awake worker or a pending notification |
| PoolRuns.StepKeepsStop | Assignment10/src/thread_pool.h:77-128 | after stop has notified nobody waits, and no worker begins more than one further action |
| PoolRuns.EveryRunKeepsInv | Assignment10/src/thread_pool.h:77-128 | both hold in every run with any number of submitting threads |
| PoolRuns.WorkersRunOut | Assignment10/src/thread_pool.h:77-88 | after stop, every step of a worker brings its exit nearer |
| PoolRuns.JoinIsNotStuck | Assignment10/src/thread_pool.h:84-87 | after stop, a worker that has not left can take a step, so the joins return if the actions do |
| ParallelCopy.MadePlanFits | Assignment10/src/parallel_memcpy.cpp:34-39 | chunks and tail fit the size, with at most one chunk a thread, for every size, page size and number of threads |
| ParallelCopy.EveryByteInOnePiece | Assignment10/src/parallel_memcpy.cpp:34-48 | chunks and tail partition the bytes: each byte lies in exactly one piece |
| ParallelCopy.SmallCopyUsesAllThreads | Assignment10/src/parallel_memcpy.cpp:36 | below a page the subtraction wraps and the clamp takes every thread |
| ParallelCopy.PieceOf | Assignment10/src/parallel_memcpy.cpp:37-46 | every byte of a fitting plan has one piece, and no second one |
| CopySafety.StepSafe | Assignment10/src/parallel_memcpy.cpp:21-53 | each step of caller or worker keeps: the counter counts the unfinished chunks, finished pieces are copied, the queue holds the latest chunks in order, no two workers have one chunk |
| CopySafety.RunSafe | Assignment10/src/parallel_memcpy.cpp:21-53 | and so does every run |
| CopySafety.ReturnedMeansCopied | Assignment10/src/parallel_memcpy.cpp:49-53 | in every such state between calls the target equals the source |
| CopySafety.EveryCallCopies | Assignment10/src/parallel_memcpy.cpp:34-54 | in every interleaving, after any earlier calls and pools, when parallel_memcpy has returned the target holds the source that was passed |
| CopySafety.QueueNeverOverflows | Assignment10/src/parallel_memcpy.cpp:40-45 | at every submit the deque, whose capacity is the number of threads, has room |
| CopySafety.CounterNeverWraps | Assignment10/src/parallel_memcpy.cpp:24-26 | the unsigned counter is never decremented at zero |
| CopySafety.NoRaces | Assignment10/src/parallel_memcpy.cpp:22-46 | writes stay inside the target, and two threads never write the same byte |
| CopySafety.NobodyCopies | Assignment10/src/parallel_memcpy.cpp:50-52 | a zero counter means an empty queue and no worker with a chunk in hand |
| CopySafety.WorkerTakesSafe | Assignment10/src/thread_pool.h:110-117 | taking the oldest job from the queue keeps the invariant |
| CopySafety.CallSafe | Assignment10/src/parallel_memcpy.cpp:34-39 | starting a call resets the counter only when nothing of an earlier call is pending |
| CopySafety.InitializeSafe | Assignment10/src/parallel_memcpy.cpp:29-32 | a new pool starts in a state that satisfies the invariant |
| CopyProgress.WorkStaysSeen | Assignment10/src/thread_pool.h:90-128 | a non-empty queue has an awake worker, or the caller is about to notify one |
| CopyProgress.EndStaysSeen | Assignment10/src/parallel_memcpy.cpp:24-27 | a caller that waits with a zero counter is about to be notified |
| CopyProgress.StopStaysSeen | Assignment10/src/thread_pool.h:77-88 | after stop nobody waits, and joined workers are gone |
| CopyProgress.NoLostWakeup | Assignment10/src/parallel_memcpy.cpp:21-53 | these hold in every reachable state of every interleaving |
| CopyProgress.NoDeadlock | Assignment10/src/parallel_memcpy.cpp:34-54 | unless no call is in progress, some thread can take a step that is no spurious wakeup |
| CopyProgress.StepWeighs | Assignment10/src/parallel_memcpy.cpp:21-53 | every such step makes a measure smaller, and a spurious wakeup adds one to it |
| CopyProgress.EveryCallReturns | Assignment10/src/parallel_memcpy.cpp:34-54 | the steps inside a call (or stop) are bounded up to spurious wakeups, under every scheduling, and when none is left the call has returned |
| Erasure.FetchSame | Assignment04/src/interpreter.h:430-454 | fetching an operand without the end-of-code check gives what the checked fetch gave |
| Erasure.PlainSame | Assignment04/src/interpreter.cpp:220-665 | every instruction but calls, entries and closures: where the checked one succeeds, the unchecked one reaches the same state |
| Erasure.OnVariableSame | Assignment04/src/interpreter.cpp:383-469 | loads, addresses and stores of variables, whose bounds only the checked interpreter looks at (captures: both) |
| Erasure.BeginSame | Assignment04/src/interpreter.cpp:481-502 | entry with a packed operand makes the same frame, or reports that the packed size does not fit |
| Erasure.ClosureSame | Assignment04/src/interpreter.cpp:504-536 | building a closure, with its loop over captures |
| Erasure.CapturesSame | Assignment04/src/interpreter.cpp:512-530 | the captures loop, for every number of captures |
| Erasure.CallSame | Assignment04/src/interpreter.cpp:551-560 | direct calls |
| Erasure.CallcSame | Assignment04/src/interpreter.cpp:538-549 | calls of closures whose code is an instruction on which both files agree |
| Refinement.StepRefines | Assignment04/src/interpreter.cpp:220-730 | one turn: same state, or the function's own space check; control stays on instructions |
| Refinement.RunRefines | Assignment04/src/interpreter.cpp:730-901 | every run from such a state |
| Refinement.UncheckedRefinesChecked | Assignment04/src/interpreter.cpp:730-901 | on every input, every non-failing checked run is repeated state for state by the unchecked interpreter on the packed file, to its end or to the unchecked one's own space check |
| Refinement.LostControl | Assignment02/src/interpreter.cpp:357 | a return to a frame that has not called anything leads out of the code |
| Refinement.FailedTurnEnds | Assignment04/src/interpreter.cpp:730-901 | a run that stops for space has reported so, however many turns it was given |
| Refinement.SetReads | Assignment04/src/verifier.cpp:477-479 | an operand written is the operand read |
| Refinement.PackingAgrees | Assignment04/src/verifier.cpp:344-352 | packing any depth into any entry, any number of times, keeps the hypothesis of the refinement when instructions do not overlap |
| Refinement.PackedAgrees | Assignment04/src/verifier.cpp:344-352 | so does any sequence of such writes |
| Refinement.PackedFileRefines | Assignment04/src/verifier.cpp:344-352 | a file whose locals fit 16 bits, packed with whatever depths the verifier finds, runs unchecked as it runs checked, up to the packed space check |
| Refinement.PackedDepthIsChecked | Assignment04/src/interpreter.cpp:481-502 | the depth that was packed is the room an unchecked entry asks for: it reports an overflow exactly if the stack has less, or the frames are used up |
| Effects.PlainMoves | Assignment04/src/verifier.cpp:130-214 | each such instruction changes the stack by its entry in the stack-delta table, keeps frames, and goes to the next instruction or its target |
| Effects.ClosureMoves | Assignment02/src/interpreter.cpp:524-561 | CLOSURE leaves one value more on the stack (the table says captures + 1), whose code is the operand |
| Effects.BeginMoves | Assignment02/src/interpreter.cpp:501-522 | entry puts a frame above the arguments, and room for the locals |
| Effects.CallMoves | Assignment02/src/interpreter.cpp:577-587 | CALL changes only the return address of the top frame, and goes to a BEGIN |
| Effects.CallcMoves | Assignment02/src/interpreter.cpp:563-575 | CALLC changes only the return address, and goes to the entry of the closure below the arguments |
| Effects.RetMoves | Assignment02/src/interpreter.cpp:350-363 | RET drops frame, arguments and closure, and leaves the result in their place |
| Effects.PlainUnderflow | Assignment02/src/interpreter.cpp:755-763 | an instruction reports an underflow only when the stack has fewer values than it needs |
| Discipline.PlainStep | Assignment04/src/verifier.cpp:130-214 | on consistent code an instruction leaves the stack as its successor expects it |
| Discipline.CallStep | Assignment02/src/interpreter.cpp:563-587 | a call with matching arity leaves an entry that fits under the caller |
| Discipline.BeginStep | Assignment02/src/interpreter.cpp:501-522 | the new frame lies directly above the caller's remaining operands |
| Discipline.RetStep | Assignment02/src/interpreter.cpp:350-363 | RET gives the caller back its stack with one result, at the instruction after the call |
| Discipline.NoUnderflow | Assignment02/src/interpreter.cpp:739-763 | on consistent code no instruction finds the stack or the frames too small |
| Discipline.StackDiscipline | Assignment02/src/interpreter.cpp:777-947 | for every input, in every reachable state of either interpreter the stack size is base + locals + operand depth, frames do not overlap, and nothing underflows |
| Discipline.RunInOrder | Assignment02/src/interpreter.cpp:777-947 | the same from any such state, also for runs that fail: they do not fail with an underflow |
| Discipline.CallReturns | Assignment02/src/interpreter.cpp:350-363 | whatever the callee does: when it has returned, the caller is behind its call with the same frames and its stack changed by the call's net effect |
| Discipline.RunReturns | Assignment02/src/interpreter.cpp:350-363 | a run that comes back to k frames returns to the k-th of them, all frames below untouched |
| Machine.Machine.constructor | Assignment02/src/interpreter.cpp:206-214 | the initial machine: an empty frame stack and a stack of globals and two arguments |
| Machine.Machine.ExecCaptures | Assignment02/src/interpreter.cpp:532-556 | the loop over the captures pushes what the specification of CLOSURE does |
| Machine.Machine.Step | Assignment02/src/interpreter.cpp:777-943 | one turn of the main loop: the next state, the end, or the failure of the specification, which Correctness ties to an evaluator instruction by instruction |
| Machine.Machine.Interpret | Assignment02/src/interpreter.cpp:777-945 | the main loop for any number of turns is the run of the specification; Programs.RunProgram says what it prints |
| Language.Wrap | Assignment02/src/interpreter.cpp:236-243 | arithmetic is over the 32-bit number that differs by a multiple of 2^32 |
| Language.DivideCuts | Assignment02/src/interpreter.cpp:244-251 | division cuts towards zero: the rest is smaller than the divisor and has the dividend's sign |
| Language.OthersStay | Assignment02/src/interpreter.cpp:455-488 | an assignment changes no other variable |
| Language.PutIsFound | Assignment02/src/interpreter.cpp:325-342 | behind a store into an element, ELEM finds what was stored (in a text the signed low byte), and every other element of every object as before |
| Language.LoadAfterStore | Assignment02/src/interpreter.cpp:316-342 | behind x := e, by ST, STI or STA, of a variable of any place, LD of x is e |
| Instructions.CalculateIsBinary | Assignment02/src/interpreter.cpp:226-277 | each BINOP computes the wrapped, truncating or comparing operation of its opcode |
| Instructions.BinopDelivers | Assignment02/src/interpreter.cpp:226-277 | BINOP leaves the operation's value in the place of its operands, or fails on a value that is no number and on a zero divisor |
| Instructions.EqualDelivers | Assignment02/src/interpreter.cpp:279-290 | == of two numbers, or of a number and anything else; of two references it fails |
| Instructions.AtDelivers | Assignment02/src/interpreter.cpp:381-391 | ELEM leaves the element, or fails outside the bounds |
| Instructions.SameTextDelivers | Assignment02/src/interpreter.cpp:622-627 | PATT =str compares texts up to their first zero byte |
| Instructions.DyadicDelivers | Assignment02/src/interpreter.cpp:374-391 | two operands become the evaluator's value; SWAP in front keeps their order |
| Instructions.LoadDelivers | Assignment02/src/interpreter.cpp:393-422 | LD leaves the variable's value on top |
| Instructions.AddressDelivers | Assignment02/src/interpreter.cpp:424-453 | LDA leaves an address of this very variable |
| Instructions.StoreDelivers | Assignment02/src/interpreter.cpp:455-488 | ST assigns the top to the variable and leaves it on top; all other variables, operands and frames stay |
| Instructions.StiDelivers | Assignment02/src/interpreter.cpp:316-323 | STI assigns through an address that LDA has made |
| Instructions.StaDelivers | Assignment02/src/interpreter.cpp:325-335 | STA with an address below the value does the same |
| Instructions.PutDelivers | Assignment02/src/interpreter.cpp:336-342 | STA with an index sets this element of this object, and leaves the value |
| Instructions.UnaryDelivers | Assignment02/src/interpreter.cpp:589-688 | DUP, LLENGTH, the patterns, LWRITE, LSTRING and FAIL leave the evaluator's value in the place of the top |
| Instructions.ConstDelivers | Assignment02/src/interpreter.cpp:292-295 | CONST leaves its operand |
| Instructions.StringDelivers | Assignment02/src/interpreter.cpp:297-302 | STRING leaves a new text, the string at its operand up to its zero byte |
| Instructions.ReadDelivers | Assignment02/src/interpreter.cpp:665-668 | LREAD leaves the next number of the input |
| Instructions.BarrayDelivers | Assignment02/src/interpreter.cpp:690-697 | BARRAY leaves a new array of the values on top, in their order |
| Instructions.SexpDelivers | Assignment02/src/interpreter.cpp:304-314 | SEXP leaves a new S-expression of the values on top with the hash of its tag |
| Instructions.JumpLeads | Assignment02/src/interpreter.cpp:344-348 | JMP goes to its operand and changes nothing else |
| Instructions.BranchLeads | Assignment02/src/interpreter.cpp:490-499 | CJMPZ jumps on 0, CJMPNZ on 1 alone; both drop the condition |
| Instructions.DropLeads | Assignment02/src/interpreter.cpp:365-367 | DROP drops the top |
| Calling.LambdaDelivers | Assignment02/src/interpreter.cpp:524-561 | CLOSURE leaves a new closure of the function with the values of the captured variables (and one unused capture) |
| Calling.CallLeads | Assignment02/src/interpreter.cpp:577-587 | CALL goes to the function, having noted where to come back, and fails for a function that needs a closure |
| Calling.CallcLeads | Assignment02/src/interpreter.cpp:563-575 | CALLC goes to the function of the closure below the arguments, or fails if there is none |
| Calling.BeginLeads | Assignment02/src/interpreter.cpp:501-522 | entry makes a frame in which arguments, closure and fresh locals are where variables are looked for |
| Calling.BackStands | Assignment02/src/interpreter.cpp:350-363 | behind RET the caller's variables and operands are as before the call, with the value in the place of what the call took; globals, heap and channels as the callee left them |
| Correctness.Correct | Assignment02/src/interpreter.cpp:777-943 | compilation is correct: from any state that stands for an environment, with any operands and frames below, the postfix code of an expression leaves the evaluator's value on top in a state that stands for the environment behind it; where the evaluator fails, the run fails in the same way |
| Correctness.CorrectIf | Assignment02/src/interpreter.cpp:490-499 | conditionals by CJMPZ and JMP |
| Correctness.CorrectWhile | Assignment02/src/interpreter.cpp:490-499 | loops by CJMPZ and a jump back, for any number of rounds |
| Correctness.CorrectCall | Assignment02/src/interpreter.cpp:577-587 | direct calls, recursive ones too |
| Correctness.CorrectCallValue | Assignment02/src/interpreter.cpp:563-575 | calls of closures |
| Correctness.RunsBody | Assignment02/src/interpreter.cpp:501-522 | a function from its entry to its last instruction leaves its value on its own stack, above everything that was there |
| Programs.ProgramRuns | Assignment02/src/interpreter.cpp:777-947 | a program run from the first instruction ends, having read and written exactly what the evaluator says, or fails as the evaluator says |
| Programs.RunProgram | Assignment02/src/interpreter.cpp:777-947 | the machine on the file of a program, for any number of turns: where the program has a value it does not fail, and when it ends it has printed the program's output; where the program fails it does not end, and fails only like this |
| Programs.StoredIsLoaded | Assignment02/src/interpreter.cpp:393-488 | ST, DROP, LD of one variable, of any place: the value is back on top and no other variable has changed |
| Assembly.EveryProgramLoads | Assignment02/src/interpreter.cpp:777-947 | every program that is not too big has a file for which all this holds |
| MachineRuns.RunFile | Assignment02/src/interpreter.cpp:777-947 | the machine of either interpreter, run for any number of turns on any input: on consistent code it never reports an underflow, and while it runs its frames lie one above the other with only the operands between |
| MachineRuns.RunBoth | Assignment04/src/interpreter.cpp:730-901 | a checked and an unchecked machine run side by side: where the checked one does not fail, the unchecked one ends the same way with equal fields, or has stopped for a function's space |
| MachineRuns.RunPacked | Assignment04/src/verifier.cpp:344-352 | the same for a file as the verifier leaves it |
| Scopes.ResolveOrCapture | Assignment05/src/main/java/io/github/dtolmachev/parser/LamaNodeParser.java:1041-1062 | resolving touches no parent, slot or finished node, and only appends captures |
| Scopes.OwnerIsNearest | Assignment05/src/main/java/io/github/dtolmachev/parser/LamaNodeParser.java:1041-1053 | the scope that owns a name is on the way out, and no scope before it declares the name; without an owner no scope on the way does |
| LexicalAddressing.MeaningFromOutside | Assignment05/src/main/java/io/github/dtolmachev/parser/LamaBaseParser.java:134-149 | seen from inside one more function, a local is at level 0 and a capture one level further; globals stay |
| LexicalAddressing.ResolvesToMeaning | Assignment05/src/main/java/io/github/dtolmachev/parser/LamaNodeParser.java:1041-1062 | resolving with remembered captures finds the nearest declaration, its slot, and the number of functions out to it, and keeps the invariant |
| LexicalAddressing.CaptureKept | Assignment05/src/main/java/io/github/dtolmachev/parser/LamaBaseParser.java:216-221 | remembering a capture keeps everything remembered before right, and makes the function keep frames |
| LexicalAddressing.FramesStay | Assignment05/src/main/java/io/github/dtolmachev/parser/LamaBaseParser.java:216-221 | a function that keeps frames goes on keeping them |
| ParseRuns.DeclareKeepsInv | Assignment05/src/main/java/io/github/dtolmachev/parser/LamaBaseParser.java:162-169 | a declaration does not make anything remembered by an unfinished function wrong, and takes a fresh slot |
| ParseRuns.FinishKeepsInv | Assignment05/src/main/java/io/github/dtolmachev/parser/LamaNodeParser.java:330 | hasCaptures of a finished function is right for good: its captures cannot grow any more |
| ParseRuns.StepKeepsInv | Assignment05/src/main/java/io/github/dtolmachev/parser/LamaNodeParser.java:306-331 | every event of a parse keeps all of it, and every load compiled so far stays right |
| ParseRuns.ResolveMakesLoad | Assignment05/src/main/java/io/github/dtolmachev/parser/LamaNodeParser.java:505-506 | a compiled load names the slot and distance of its declaration |
| ParseRuns.MemoisedEqualsUncached | Assignment05/src/main/java/io/github/dtolmachev/parser/LamaNodeParser.java:1037-1062 | wherever a parse has come to, the memoised resolution is the uncached lookup of the declarations |
| ParseRuns.EveryLoadIsRight | Assignment05/src/main/java/io/github/dtolmachev/parser/LamaNodeParser.java:1037-1062 | every compiled load is right, every function in between keeps its frame, and no two variables of a function share a slot |
| Activations.LookupFrame | Assignment05/src/main/java/io/github/dtolmachev/nodes/util/LamaLookupMaterializedFrameNode.java:18-25 | the loop is the walk along the closures' frames |
| Activations.Arguments | Assignment05/src/main/java/io/github/dtolmachev/nodes/expression/LamaCallNode.java:36-43 | the callee in front of the values, or an error for a wrong number of them |
| Activations.StepKeepsInv | Assignment05/src/main/java/io/github/dtolmachev/nodes/expression/LamaFunctionNode.java:26-28 | closures keep the frame they were made in exactly if their function has captures |
| Activations.WalkFindsCreator | Assignment05/src/main/java/io/github/dtolmachev/nodes/util/LamaLookupMaterializedFrameNode.java:18-25 | the walk meets no null frame and ends in the activation that made the chain of closures, which is one of the declaring function |
| Activations.EveryLoadFindsItsFrame | Assignment05/src/main/java/io/github/dtolmachev/nodes/util/LamaLookupMaterializedFrameNode.java:18-25 | for every parse and every run: a compiled load of a captured variable finds the frame of its declaration |
| NodeParsers.NodeParser.constructor | Assignment05/src/main/java/io/github/dtolmachev/parser/LamaBaseParser.java:42-47 | the parser starts in the root function inside the global scope |
| NodeParsers.NodeParser.DeclareLocal | Assignment05/src/main/java/io/github/dtolmachev/parser/LamaBaseParser.java:162-169 | a fresh slot, or the error that the name is declared already |
| NodeParsers.NodeParser.DeclareCapture | Assignment05/src/main/java/io/github/dtolmachev/parser/LamaBaseParser.java:216-221 | the outer variable is recorded and the name bound one function further out |
| NodeParsers.NodeParser.ResolveOrCapture | Assignment05/src/main/java/io/github/dtolmachev/parser/LamaNodeParser.java:1041-1054 | the loop over scopes with the mutual recursion is the specified resolution |
| NodeParsers.NodeParser.Capture | Assignment05/src/main/java/io/github/dtolmachev/parser/LamaNodeParser.java:1056-1062 | globals are not captured, everything else is |
| NodeParsers.NodeParser.Resolve | Assignment05/src/main/java/io/github/dtolmachev/parser/LamaNodeParser.java:1037-1039 | resolution from the current scope |
| NodeParsers.NodeParser.NewScope | Assignment05/src/main/java/io/github/dtolmachev/parser/LamaBaseParser.java:227-229 | a block's scope inside the current one |
| NodeParsers.NodeParser.NewFunction | Assignment05/src/main/java/io/github/dtolmachev/parser/LamaNodeParser.java:311 | a function's scope inside the current one, without slots or captures |
| InstructionGraph.Disassemble | byterun/byterun.c:85-313 | the length is -1 exactly for the opcodes from 0xF0 on, and positive for all others that do not fail |
| InstructionGraph.GraphOf | Assignment03/src/idiom_analyzer.cpp:111-128 | successors are positions of the code |
| IdiomProcessors.IdiomProcessor.constructor | Assignment03/src/idiom_analyzer.cpp:89-93 | nothing is reached but the sentinel behind the code |
| IdiomProcessors.IdiomProcessor.ReachEntries | Assignment03/src/idiom_analyzer.cpp:97-105 | the entry points are reached and marked, or one of them is outside the code |
| IdiomProcessors.IdiomProcessor.Explore | Assignment03/src/idiom_analyzer.cpp:107-128 | one visit adds the instruction's successors and jump targets, which ControlFlow ties to the interpreter, or fails as the instruction does |
| IdiomProcessors.IdiomProcessor.ReachAll | Assignment03/src/idiom_analyzer.cpp:114-128 | each position is put on the worklist once |
| IdiomProcessors.IdiomProcessor.FindReachableInstructions | Assignment03/src/idiom_analyzer.cpp:95-130 | terminates; succeeds exactly if all entries and all reachable instructions are well-formed; then the reached set is the least one with the entries and closed under the successors, which are where the interpreter can go on, and the jump targets are exactly those |
| IdiomProcessors.IdiomProcessor.FindIdioms | Assignment03/src/idiom_analyzer.cpp:132-153 | after a successful search, whenever the sweep ends, it collects what its turns collect, one instruction or pair after the other |
| IdiomProcessors.OneExplored | Assignment03/src/idiom_analyzer.cpp:106-129 | one turn keeps: what is reached and not on the worklist is explored |
| IdiomProcessors.AllExplored | Assignment03/src/idiom_analyzer.cpp:106-129 | with an empty worklist the set is the least closed one |
| IdiomProcessors.SearchIsDone | Assignment03/src/idiom_analyzer.cpp:95-130 | a successful search leaves what the sweep needs: every reachable instruction was explored |
| IdiomProcessors.StepLength | Assignment03/src/idiom_analyzer.cpp:139-151 | at a reachable instruction the sweep goes ahead, or one byte back at a STOP, and stays inside the code |
| IdiomEnd.SweepEndsIff | Assignment03/src/idiom_analyzer.cpp:132-153 | the sweep ends if and only if every STOP that it comes to is passed: the instruction behind the row of STOPs is reachable and reaches beyond it |
| IdiomEnd.Trapped | Assignment03/src/idiom_analyzer.cpp:132-153 | from a STOP that is not passed the sweep never gets away |
| IdiomEnd.ApartSweepEndsIff | Assignment03/src/idiom_analyzer.cpp:132-153 | where no reachable instruction starts inside another, the sweep ends if and only if no STOP is reachable |
| IdiomEnd.DropStopNeverEnds | Assignment03/src/idiom_analyzer.cpp:132-153 | DROP and STOP in a row: the search succeeds and the sweep does not end |
| IdiomEnd.SweptIsSweep | Assignment03/src/idiom_analyzer.cpp:132-153 | without a reachable STOP the sweep ends, and collects what the plain sweep does |
| IdiomSweep.SweepIsExact | Assignment03/src/idiom_analyzer.cpp:132-153 | without overlaps: each reachable instruction once; each pair whose first is no call and no end of a block and whose second is no jump target once; nothing else (ControlFlow.SweepCollectsExactly says it of operations) |
| IdiomSweep.SweepIsCompleteIff | Assignment03/src/idiom_analyzer.cpp:132-153 | the sweep collects every reachable instruction if and only if none starts inside another |
| IdiomSweep.CollectedApart | Assignment03/src/idiom_analyzer.cpp:150 | collected instructions never overlap |
| ControlFlow.StepsToSuccessor | Assignment02/src/interpreter.cpp:777-943 | wherever the checked interpreter continues from an instruction, it continues at a successor; a call will come back to one |
| ControlFlow.ContinuesIff | Assignment02/src/interpreter.cpp:777-943 | and the interpreter can go on from p to q, from some state, if and only if q is a successor and the operands are not hopeless |
| ControlFlow.SuccessorsAre | Assignment03/src/idiom_analyzer.cpp:111-128 | JMP has its target alone, CJMPZ and CJMPNZ have both, calls have the target and what follows, RET, END, FAIL and STOP have none |
| ControlFlow.DisassembleIsLength | byterun/byterun.c:85-313 | the disassembler's length is the distance to the next instruction |
| ControlFlow.MovesByDisassemble | Assignment02/src/interpreter.cpp:777-943 | an instruction that falls through moves the instruction pointer by exactly the disassembler's length; jumps go to their operand |
| ControlFlow.CallsByDisassemble | Assignment02/src/interpreter.cpp:563-587 | a call goes to its operand and will come back behind itself |
| ControlFlow.JumpTargetsAre | Assignment03/src/idiom_analyzer.cpp:111-125 | the jump targets are the entries, the operands of reachable jumps and calls, and what follows reachable calls |
| ControlFlow.SweepCollectsExactly | Assignment03/src/idiom_analyzer.cpp:132-153 | in terms of the operations: each reachable instruction once; each pair once whose first is neither a call nor a jump away, a return, a failure or a stop, and whose second is no jump target; nothing else |
| IdiomRanking.SpanOf | Assignment03/src/idiom_analyzer.cpp:41-44 | the number of bytes of an idiom |
| IdiomRanking.SpanIs | Assignment03/src/idiom_analyzer.cpp:41-44 | it is the length of its one or two instructions, one behind the other |
| IdiomRanking.LexLessIff | Assignment03/src/idiom_analyzer.cpp:53-72 | the comparison of bytes: the first difference is smaller in the first, or it is a proper prefix |
| IdiomRanking.LessIsStrictWeakOrder | Assignment03/src/idiom_analyzer.cpp:53-72 | the comparator is a strict weak order, and two idioms are equivalent exactly if idiom_equal says so |
| IdiomRanking.CountRuns | Assignment03/src/idiom_analyzer.cpp:155-171 | the counting loop; with no idioms it reads the last of an empty list |
| IdiomRanking.RunsAreExact | Assignment03/src/idiom_analyzer.cpp:163-171 | on a sorted list every run's length is the multiplicity of its idiom, and no idiom is missing |
| IdiomRanking.MultiplicityPermutes | Assignment03/src/idiom_analyzer.cpp:162 | sorting does not change how often an idiom occurs |
| IdiomRanking.MultiplicityCounts | Assignment03/src/idiom_analyzer.cpp:163-171 | the multiplicity is the number of positions in the list whose idiom has the same size and bytes |
| IdiomRanking.RankedLessInOrder | Assignment03/src/idiom_analyzer.cpp:157-161 | more frequent first; among equals the one of fewer instructions; then by the bytes of their code |
| IdiomRanking.ReportIsCorrect | Assignment03/src/idiom_analyzer.cpp:155-174 | whatever std::sort does with equivalents: reported idioms are pairwise different, each frequency is the number of its occurrences, and they add up to all collected; for k < l the k-th has the higher frequency, or the same and the smaller size, or also the same size and the smaller byte where their code first differs (or is a proper prefix) |
| IdiomRanking.SweptIdiomsAreInside | Assignment03/src/idiom_analyzer.cpp:132-153 | everything collected decodes, so it can be compared |
| ValueOrder.ExactIsPreorder | runtime/runtime.c:626-684 | with unbounded numbers comparison is a total preorder on all values, whose zero is equality of the values with their texts cut at the first zero byte |
| ValueOrder.CompareIsBoxed | runtime/runtime.c:627-630 | on machine values the result is this comparison's, boxed: reduced to 63 bits |
| ValueOrder.CompareZeroIff | runtime/runtime.c:626-684 | zero if and only if the values are equal up to what follows a zero byte in a text; equal values exactly, where no text has one |
| ValueOrder.CutIsWhole | runtime/runtime.c:648 | cutting texts at zero bytes changes a value if and only if it has one |
| ValueOrder.CompareRightIff | runtime/runtime.c:627-635 | the sign is right if and only if the first difference fits 63 bits, and is turned by exchanging the values if and only if the difference is not exactly 2^62 |
| ValueOrder.IntervalOrderedIff | runtime/runtime.c:634-635 | comparison orders the immediates of an interval if and only if it spans less than 2^62 |
| ValueOrder.CompareIsTotalOrder | runtime/runtime.c:626-684 | on values with 32-bit immediates, whatever their texts hold, comparison is a total preorder whose zero is equality of the cut values |
| ValueOrder.StrCmpIff | runtime/runtime.c:648 | negative exactly if the first text is a proper prefix of the second or has the smaller byte where they first differ |
| ValueOrder.KindsInOrder | runtime/runtime.c:632-645 | an immediate precedes every object, and objects of different kinds follow the order of their tags |
| ValueOrder.LeavesInOrder | runtime/runtime.c:634-648 | numbers compare as their difference, texts by the position where they first differ |
| ValueOrder.ObjectsInOrder | runtime/runtime.c:649-676 | two objects of one kind compare as the first of label, length and items in which they differ, with the sign of that difference |
| ValueHash.EqualHashAlike | runtime/runtime.c:558-684 | values that compare as zero hash alike when the texts that hashing looks at are equally long |
| ValueHash.HashesWithEqualsIff | runtime/runtime.c:558-684 | a value hashes like every value that compares as equal to it if and only if hashing, which stops at depth 3, meets no text in it |
| ValueHash.HashKeepsApart | runtime/runtime.c:558-607 | before the last step hashing loses nothing: different words stay different when the same value is hashed on top of them |
| ValueHash.StretchesHashApart | runtime/runtime.c:567-581 | zero bytes behind a text, which comparison does not see, change the hash |
| ValueHash.OneZeroByteTells | runtime/runtime.c:567-581 | a text and the same with one zero byte behind it compare as equal and hash to 1 and 2 |
| ValueHash.AppendSwapsHalves | runtime/runtime.c:559-560 | one word of hashing adds it and exchanges the halves |
| ValueHash.HashIsFold | runtime/runtime.c:563-607 | a value is hashed as a list of words: kind, length, tag or code, then characters or items, through four levels |
| ValueHash.LhashIsFold | runtime/runtime.c:615 | Lhash is the low 22 bits of folding these words |
| ValueHash.DepthIsThree | runtime/runtime.c:558-564 | a number inside three arrays changes the hash, one inside four does not |
| HeapValues.CompareSelf | runtime/runtime.c:632 | the identity shortcut agrees with the full comparison |
| HeapValues.Lcompare | runtime/runtime.c:626-684 | the comparison over the heap sees only the trees |
| HeapValues.CompareObjects | runtime/runtime.c:641-679 | two objects: tag, code or constructor, length, then the first different field |
| HeapValues.InnerHash | runtime/runtime.c:563-607 | the depth-bounded hash over the heap sees only the trees |
| HeapValues.HashObject | runtime/runtime.c:567-605 | tag, length, then text, code or constructor, and fields |
| HeapValues.LhashOf | runtime/runtime.c:615 | 22 bits of the hash of the tree |
| Tags.NumberOfDeHash | runtime/runtime.c:240-253 | the digits of a number denote it, and have no leading zero |
| Tags.DeHashOfNumber | runtime/runtime.c:217-253 | digits without a leading zero come back from their number |
| Tags.TagsRoundTrip | runtime/runtime.c:217-238 | hashing succeeds exactly for tags whose first ten characters are in the alphabet and do not begin with an underscore; de_hash returns these ten; the hash is below 2^60 |
| Tags.HashesTellPrefixes | runtime/runtime.c:217-238 | hashes agree exactly when the first ten characters do |
| Tags.EveryHashIsATag | runtime/runtime.c:217-253 | every number below 2^60 is the hash of its own digits |
| Tags.DeHashInto | runtime/runtime.c:240-253 | the digit loop stays inside its eleven bytes and leaves the digits at the returned place |
| Tags.LtagHash | runtime/runtime.c:217-238 | the loop with its check computes the hash or fails as specified |
| Tags.DigitsAre | runtime/runtime.c:208 | the digit of each character: underscore 0, lower-case letters 1 to 26 in their order, upper-case 27 to 52, digits 53 to 62, the quote 63 |
| Tags.NumberOfBoth | runtime/runtime.c:224-231 | a tag behind another one is shifted in behind it, six bits a character |
| Tags.SmallTags | runtime/runtime.c:217-238 | a tag of one lower-case letter hashes to its place in the alphabet, one of two to 64 times the first place and the second |
| StringPtrs.StringPtr.Null | Assignment08/src/string_ptr.h:50-52 | an empty handle owns nothing |
| StringPtrs.StringPtr.FromString | Assignment08/src/string_ptr.h:54-56 | a handle from a string is the unique owner of a buffer that was not in use; one from null owns nothing |
| StringPtrs.StringPtr.Copy | Assignment08/src/string_ptr.cpp:8-11 | both handles hold the buffer and neither is unique |
| StringPtrs.StringPtr.Move | Assignment08/src/string_ptr.cpp:13-15 | the buffer and its ownership go over, the other handle is empty |
| StringPtrs.StringPtr.Destroy | Assignment08/src/string_ptr.h:62-69 | only a unique handle frees |
| StringPtrs.StringPtr.Swap | Assignment08/src/string_ptr.h:79-81 | buffers and ownership are exchanged |
| StringPtrs.StringPtr.Assign | Assignment08/src/string_ptr.cpp:17-23 | a copy, and the end of the handle's old contents; assigning to itself does nothing |
| StringPtrs.StringPtr.MoveAssign | Assignment08/src/string_ptr.cpp:25-31 | a move, and the end of the handle's old contents |
| StringPtrs.StepKeepsSound | Assignment08/src/string_ptr.cpp:8-31 | every operation keeps: no dangling handle, a unique handle is alone, nothing freed that is not live |
| StringPtrs.EveryRunIsSound | Assignment08/src/string_ptr.cpp:8-31 | in every run over any number of handles |
| StringPtrs.OnceSharedNeverFreed | Assignment08/src/string_ptr.cpp:8-11 | a buffer without a unique handle is never freed again |
| StringPtrs.Handles.Do | Assignment08/src/string_ptr.cpp:8-31 | each event of a run is the constructor, method or destructor of its name, on handles that share an allocator |
| StringPtrs.Handles.Run | Assignment08/src/string_ptr.cpp:8-31 | any sequence of such calls on real handles ends in the world that the run of events says, and that is sound |

## Left out

Collector:

- mmap and munmap: the mapped region is a parameter; `Mappings.Mmap` shows how to choose one. The length
  that is passed to munmap is in words where bytes are expected (`runtime/gc.c:300`), which has no effect on
  the heap.
- The debug dumps, the invariant checks and the `LAMA_ENV` global area.
- Word width: words are unbounded, but for the address arithmetic of references, which wraps at 64 bits.
- Relocation.MovedBytes: of a string's last word only the bytes of the string are carried over, as memmove
  does; the fields of an ideal string object are compared on these bytes.
- Collectors.Collector.AllocObject: alloc_string, alloc_array, alloc_sexp and alloc_closure are one method with the
  tag as parameter; Collectors.Collector.Collect says how large the new chunk is.
- Mappings.Mmap: the kernel places a mapping by rules of its own; this method looks above everything, and may fail
  where the kernel would find a gap. `Collectors.Collector.AllocObject` holds for any region that meets its precondition.
- Bstring and the other constructors of strings as clients: `Clients` has Barray, Bclosure and Bsexp.

Concurrent copy:

- Moved-from deques, copying deques, and exceptions thrown by actions.
- Actions are not promised to run after `stop`: a worker that comes from an action leaves at once.
- One calling thread, as the static variables of `Assignment10/src/parallel_memcpy.cpp` demand; source and target do not overlap.
- CopyProgress.EveryCallReturns: the bound counts spurious wakeups; no fairness is assumed, and none is needed.

Interpreters:

- Garbage collection during interpretation: objects have identities instead of addresses.
- Interpreter.Store: STI and STA through a reference that LDA did not make overwrite the first payload word of an
  object; such a step is Stuck here, as are reads of headers through other words than objects.
- Refinement.UncheckedRefinesChecked: says nothing about checked runs that fail or get stuck, after which the
  unchecked interpreter may do anything.
- Discipline.StackDiscipline: STA is excluded from consistent code, as in the verifier, because its depth is not static; closures
  must be called with the number of arguments their code says, which no static check sees.
- Soundness of the verifier: its merge checks compare a depth with itself (`Assignment04/src/verifier.cpp:339`, `Assignment04/src/verifier.cpp:385`),
  it counts CLOSURE as captures + 1, and the packed depth does not count the locals.
- Language.Eval: says nothing (Stuck) where a local is read that was never assigned, a capture one beyond the captured
  ones is used, a function gets another number of arguments than it takes, a closure is printed, the last cell of the stack is
  used up by SEXP or CLOSURE, or the fuel of loops and calls runs out; `Interpreter` says what happens there.
- Lama's own compiler is not part of the repository: `Postfix` is the code as the interpreters expect it, operands first.
  `Correctness` is about the checked interpreter; `Refinement` carries runs over to the unchecked one.
- strcmp, printing and tag hashing inside the interpreters are parameters (`Interpreter.Library`); `Trees` and `Tags` model them.

Lexical addressing:

- Stores to captured variables: the node replaces itself by one that is bound to the first frame it met
  (`Assignment05/src/main/java/io/github/dtolmachev/nodes/capture/LamaStoreCaptureNode.java:24-30`).
- The grammar: a parse is any sequence of scope events that the visitor's nesting allows.
- Truffle's specialisation and the evaluation of expressions.

Idiom analyser:

- IdiomProcessors.IdiomProcessor.FindIdioms: a sweep that does not end has no result; `IdiomEnd.SweepEndsIff` says which do, and
  `IdiomEnd.ApartSweepEndsIff` says it of code without overlaps in terms of the code alone.
- IdiomRanking.SweptIdiomsAreInside: for sweeps over code without a reachable STOP, as are the results of `IdiomSweep`; the comparator
  on idioms with a length of -1 is not modelled.
- True control flow: CALLC's number of arguments is used as a target (`Assignment03/src/idiom_analyzer.cpp:112-113`), and the bodies of
  closures are not followed. The least fixpoint is the one of the coded relation.
- std::sort: its results are parameters, any permutation sorted by a comparator that is proved to be a strict weak order.
- Operands of opcodes beyond the disassembler's tables are reported as Stuck.

Values:

- Cyclic values, on which comparison and hashing need not end (hashing stops at depth 3, comparison does not).
- Trees.StrCmp: C promises only the sign of strcmp's result, so only the sign is modelled.
- StringPtrs.Allocator: buffers come from `new[]` and go to `free`; the model has one allocator for both, and no contents.

Not modelled at all: file reading, the compiler, the parser generator, regular expressions, formatted printing, signal handlers, and the
remaining assignments.
