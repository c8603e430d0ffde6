# A Dafny model of the Whisper caption path

The project models six deterministic parts of the caption path and proves what they promise. Update in
place is kept where the source has it: free-block arrays, hash tables, cache cells, FFT buffers, DTW
tables and decoder state are classes and arrays with methods proved against specifications on values.

- **Graph memory** (`FreeList`, `ChunkSpec`, `DynTallocr`, `GraphSpec`, `Plan*`, `GraphAllocr`, `HashSet`):
  the chunked free-list allocator, the planner that gives every tensor of a computation graph its bytes,
  and the open-addressing table behind it. The main result is that of a register allocator: running the
  graph in the planned memory, whatever its nodes compute, reads what running it with a buffer for every
  tensor would read (`PlanRuns`). A second one says which memory is still held at the end, and so which
  outputs survive (`PlanRelease`).
- **Key-value cache** (`KvCache`, `KvDecoding`): slot search, sequence copy and remove over shared cells,
  the beam shuffle through scratch ids and the attention mask, with one invariant over whole runs.
- **Grammar** (`Grammar*`, `Utf8Decode`, `Bytes`): the pushdown engine against leftmost derivations, the
  recursive candidate filter against following one candidate at a time, and the incremental UTF-8 decoder
  against section 3 of RFC 3629.
- **Signals and alignment** (`Fourier`, `Dtw`, `VadSegments`, `VadFrames`, `VadMap`): the FFT over shared scratch
  memory, dynamic time warping with its backtrace, speech segments by the frames and the samples they copy,
  and the time map back to the original audio.
- **Segmenter** (`Segmenter`, `SegmenterFrames`): the gate's time accounting for every gate, its segments by
  the frames, and their union.
- **Text** (`Utf8Safe`) and **timestamps** (`Timestamps`): character boundaries, the carried prompt, the
  timestamp rules and why the main loop ends.

`Arith` holds facts about quotients and remainders.

## How things are modelled

- Tensors are numbers; a graph lists nodes, leafs, sources, views and flags. Sizes are arbitrary positive
  numbers per buffer type, and equal layout stands for equal type, shape and strides. What planning demands
  of a graph is `GraphSpec.WellFormed`: nodes in topological order, views of tensors that are no views,
  leafs and inputs without an operation, and views that are read being nodes with an operation or views of
  external memory. Aborts of the source are `ok == false`, with the reason in the contract.
- What a node computes is any function of the contents of its sources, taken before it writes; a view also keeps
  or changes the bytes that were there. Runs are compared for graphs in which no node reads what nobody has set.
- The planner looks a tensor's node up in a table of its own; `HashSet` proves that a tensor keeps its slot,
  so `GraphAllocr` uses one entry per tensor.
- Grammar element pointers are pairs of rule and index. A grammar carries which rules can be empty and a
  weight per rule that bounds expansions; `GrammarRank.WellFormedIffNoLeftRecursion` shows that such weights
  exist exactly for grammars without left recursion. A partial character is the bytes read so far.
- Probabilities are arbitrary reals, and sampling is any choice of an unmasked token. FFT and DTW work over
  exact reals, the table of angles being any one on which angles add up. Centiseconds use the integer form
  (samples + 80) / 160. The library sort of the time table is any permutation in order.
- Decoder threads touch disjoint decoders and are modelled one after the other.

Where the code falls short of its comments or of what its parameters promise, the model follows the code,
and there is a concrete input and the exact condition for each:

- partial characters of a negated class, of a reversed range or of an overlong form (`GrammarPartial`);
- broken sequences inside one piece, which are not reported (`Utf8Decode.FirstIllegalByte`);
- dearer paths at ties in DTW (`Dtw.CheapestExactlyWhen`);
- whole characters dropped behind a truncated one (`Utf8Safe.KeepsWholeCharactersExactlyWhen`);
- the greatest length of speech segments, undone by merging (`VadSegments.MergedNoLongerExactlyWhen`);
- samples copied behind the reserved room (`VadMap.OverrunsExactlyWhen`);
- outputs that are views, whose memory is given back (`PlanRelease.KeptExactlyWhen`).

## Model

| member | source | states |
|---|---|---|
| FreeList.CanonicalUnique | asr/whisper/src/main/cpp/ggml/src/ggml-alloc.c:134-177 | A list of free blocks that is sorted, has no empty block and no two touching blocks is determined by the bytes it covers; so every correct insert or merge has exactly one possible result. |
| FreeList.GrowUp | asr/whisper/src/main/cpp/ggml/src/ggml-alloc.c:317-331 | Extending a block upwards by the freed range adds exactly that range and keeps the list sorted and apart. |
| FreeList.GrowBoth | asr/whisper/src/main/cpp/ggml/src/ggml-alloc.c:320-331 | A freed range that closes the gap between two blocks joins them into one block, and the next block is dropped. |
| FreeList.GrowDown | asr/whisper/src/main/cpp/ggml/src/ggml-alloc.c:333-345 | Extending a block downwards by the freed range keeps the list sorted and apart with no further merge: the merge with a previous block is never needed. |
| FreeList.InsertAdds | asr/whisper/src/main/cpp/ggml/src/ggml-alloc.c:134-149 | A range that touches no block becomes a block of its own at its place in address order. |
| FreeList.CarveRemoves | asr/whisper/src/main/cpp/ggml/src/ggml-alloc.c:260-268 | Taking the first bytes of a block removes exactly those bytes from the free bytes; a block used up disappears. |
| ChunkSpec.AlignedLeast | asr/whisper/src/main/cpp/ggml/src/ggml-alloc.c:52-56 | The aligned offset is the least multiple of the alignment at or above the offset. |
| ChunkSpec.AllocatedKeeps | asr/whisper/src/main/cpp/ggml/src/ggml-alloc.c:201-308 | After an allocation, free blocks and live ranges again partition every chunk: no byte is lost, none is in two ranges, every address is aligned and ends at or below the high-water mark. |
| ChunkSpec.FreedKeeps | asr/whisper/src/main/cpp/ggml/src/ggml-alloc.c:311-349 | After freeing a live range, or the end of one, the same partition holds for what is left. |
| ChunkSpec.WithChunkKeeps | asr/whisper/src/main/cpp/ggml/src/ggml-alloc.c:159-177 | A new chunk is one free block and leaves the partition intact. |
| ChunkSpec.BestTailExactlyWhen | asr/whisper/src/main/cpp/ggml/src/ggml-alloc.c:225-246 | The last block taken is the one that lets its chunk grow least, of those the one that wastes least below the high-water mark, and of those the earliest. |
| DynTallocr.TallocrChunk.InsertBlock | asr/whisper/src/main/cpp/ggml/src/ggml-alloc.c:134-149 | Shifts the array in place and puts the block in address order; refuses exactly when all 256 entries are taken. |
| DynTallocr.TallocrChunk.RemoveBlock | asr/whisper/src/main/cpp/ggml/src/ggml-alloc.c:151-157 | Shifts everything behind the entry by one; the list is the old one without that entry. |
| DynTallocr.TallocrChunk.MergeUp | asr/whisper/src/main/cpp/ggml/src/ggml-alloc.c:320-331 | The chunk stays valid and its free bytes grow by exactly the freed range, whether or not the next block is joined. |
| DynTallocr.TallocrChunk.MergeDown | asr/whisper/src/main/cpp/ggml/src/ggml-alloc.c:333-345 | The same for a range below a block; the merge with the previous block is shown to be dead code. |
| DynTallocr.TallocrChunk.FreeBytes | asr/whisper/src/main/cpp/ggml/src/ggml-alloc.c:311-349 | Returns the range to the free list joined with whatever it touches; aborts exactly when the list is full and the range touches nothing. |
| DynTallocr.TallocrChunk.Take | asr/whisper/src/main/cpp/ggml/src/ggml-alloc.c:260-303 | Removes the bytes from the free list and raises the high-water mark to their end. |
| DynTallocr.DynTallocr.FindInner | asr/whisper/src/main/cpp/ggml/src/ggml-alloc.c:206-223 | The block found before the last one of its chunk is a best fit in the sense of the code, whose best size starts again in each chunk; -1 exactly when no inner block fits. |
| DynTallocr.DynTallocr.FindTail | asr/whisper/src/main/cpp/ggml/src/ggml-alloc.c:225-246 | Among the last blocks the one needing least growth, then wasting least, is found, the earliest on ties. |
| DynTallocr.DynTallocr.NewChunk | asr/whisper/src/main/cpp/ggml/src/ggml-alloc.c:159-177 | Adds one chunk with its size rule (the last one is as large as can be); fails exactly at 16 chunks. |
| DynTallocr.DynTallocr.FindRoom | asr/whisper/src/main/cpp/ggml/src/ggml-alloc.c:206-258 | Inner blocks first, then last blocks, then a new chunk; fails exactly when none of the three can serve. |
| DynTallocr.DynTallocr.Alloc | asr/whisper/src/main/cpp/ggml/src/ggml-alloc.c:201-308 | The address returned is aligned, belongs to no live range and becomes a live range of the padded size; free blocks and live ranges partition every chunk; fails exactly when nothing fits and no chunk can be added. |
| DynTallocr.DynTallocr.FreeBytes | asr/whisper/src/main/cpp/ggml/src/ggml-alloc.c:311-349 | Frees a live range or its end: exactly those bytes become free and all other live ranges stay; aborts exactly when the list is full. |
| DynTallocr.DynTallocr.Reset | asr/whisper/src/main/cpp/ggml/src/ggml-alloc.c:351-363 | No chunk and no live range is left. |
| PlanSpec.AllocatedApart | asr/whisper/src/main/cpp/ggml/src/ggml-alloc.c:622-688 | Two different tensors that own memory never share a byte. |
| PlanSpec.InheritedKeeps | asr/whisper/src/main/cpp/ggml/src/ggml-alloc.c:670-677 | Taking over the first bytes of a parent keeps ranges and owners in one-to-one correspondence. |
| PlanSteps.NodePlaced | asr/whisper/src/main/cpp/ggml/src/ggml-alloc.c:762-777 | A node that gets memory of its own overwrites no tensor that is still needed. |
| PlanSteps.LastUse | asr/whisper/src/main/cpp/ggml/src/ggml-alloc.c:655-656 | A source with one child left and no views is read exactly once more, by this node, and through no view. |
| PlanSteps.InheritedSafe | asr/whisper/src/main/cpp/ggml/src/ggml-alloc.c:655-677 | A node that takes over its parent in place overwrites only that parent, at its last use. |
| PlanUpdates.UpdatedKeeps | asr/whisper/src/main/cpp/ggml/src/ggml-alloc.c:792-820 | Counting a parent down, retiring its view and freeing it keeps every invariant: counts equal the reads still to come, and only finished tensors lose memory. |
| PlanLoading.LoadingDone | asr/whisper/src/main/cpp/ggml/src/ggml-alloc.c:718-760 | After the first two loops the child and view counts are those of the whole graph, and leafs and inputs hold memory, no two of them the same byte. |
| GraphAllocr.GraphAllocr.FindParent | asr/whisper/src/main/cpp/ggml/src/ggml-alloc.c:631-679 | The first source that is allocated, is no output, has the same layout, one child and no views; none exists otherwise. |
| GraphAllocr.GraphAllocr.FreeExtraSpace | asr/whisper/src/main/cpp/ggml/src/ggml-alloc.c:599-620 | The end of the parent that the node does not need is freed, so that the node keeps exactly its padded size. |
| GraphAllocr.GraphAllocr.TakeOver | asr/whisper/src/main/cpp/ggml/src/ggml-alloc.c:670-677 | The node owns the start of the parent's range under the parent's buffer and address, the parent owns nothing. |
| GraphAllocr.GraphAllocr.AllocateNode | asr/whisper/src/main/cpp/ggml/src/ggml-alloc.c:622-688 | Only tensors that are no views, not external and not yet allocated get memory: the first reusable parent's, or a new range. It fails only when an allocator has reached a fixed limit or the first reusable parent is smaller than the node. |
| GraphAllocr.GraphAllocr.FreeNode | asr/whisper/src/main/cpp/ggml/src/ggml-alloc.c:690-711 | Gives the range back and clears the owner; outputs keep theirs. |
| GraphAllocr.GraphAllocr.UpdateParent | asr/whisper/src/main/cpp/ggml/src/ggml-alloc.c:793-820 | One read of a source is done: its count, its view and its memory change exactly as the update function says. |
| GraphAllocr.GraphAllocr.CountNode | asr/whisper/src/main/cpp/ggml/src/ggml-alloc.c:731-760 | One node of the counting loop, with the inputs it meets. |
| GraphAllocr.GraphAllocr.PlanNode | asr/whisper/src/main/cpp/ggml/src/ggml-alloc.c:763-821 | One node of the main loop keeps every planning invariant. |
| PlanBuffers.ReusableExactlyWhen | asr/whisper/src/main/cpp/ggml/src/ggml-alloc.c:631-656 | Counters and flags before a node say exactly what the graph says: a source may be overwritten when it is managed, no output, of the same layout, read once more and only here, and all computed views of it have been read for the last time. |
| PlanBuffers.NodeInPlace | asr/whisper/src/main/cpp/ggml/src/ggml-alloc.c:622-688 | A node that may overwrite a source takes over the first such source, with its buffer and address; any other node is in the buffer given for it. |
| PlanBuffers.PlannedWhereGiven | asr/whisper/src/main/cpp/ggml/src/ggml-alloc.c:713-822 | In every plan each managed tensor has memory: a leaf in the buffer given at its first index, everything else in the buffer given for the first node that is or reads it, unless it takes over a source. |
| GraphAllocr.GraphAllocr.AllocGraph | asr/whisper/src/main/cpp/ggml/src/ggml-alloc.c:713-822 | The whole plan is safe at every node, every tensor is where the buffer ids and the graph say, and all invariants hold at its end, that on memory given back included; planning stops early only when an allocator has reached one of its fixed limits or some node is larger than a source of its own layout that it could take over. |
| GraphAllocr.GraphAllocr.Reserve | asr/whisper/src/main/cpp/ggml/src/ggml-alloc.c:824-847 | Resetting every allocator and planning again gives such a plan, in the buffers given. |
| PlanExecution.ReadyIsPlanned | asr/whisper/src/main/cpp/ggml/src/ggml-alloc.c:717-822 | The planner's final state is a safe plan: no node overwrites what is still needed, and no leaf or input is loaded over another. |
| PlanExecution.NotOverwritten | asr/whisper/src/main/cpp/ggml/src/ggml-alloc.c:622-822 | From the time a tensor holds data until its last reader, only nodes that mean to write to it write to its bytes. |
| PlanExecution.LoadedAlone | asr/whisper/src/main/cpp/ggml/src/ggml-alloc.c:718-729 | Before the first node runs, a byte of a leaf or input holds what was loaded for it and for no other. |
| PlanExecution.ReadsSeeOwnData | asr/whisper/src/main/cpp/ggml/src/ggml-alloc.c:717-822 | Running the graph in the shared memory, every byte a node reads was last written by the node that would have written it with a buffer of its own for every tensor, or, if no node wrote it, was loaded for that very tensor. |
| PlanExecution.OutputsSurvive | asr/whisper/src/main/cpp/ggml/src/ggml-alloc.c:690-711 | At the end of the run every byte of an output that is no view still holds its own data, written or loaded, and so does every byte behind an output that is a view if the tensor behind it is an output too or some computed view of it is never read. |
| PlanRuns.OneStep | asr/whisper/src/main/cpp/ggml/src/ggml-alloc.c:622-822 | What a node does to a byte that still matters is the same in shared memory and in buffers of their own: a new value if the byte is in its tensor, nothing otherwise. |
| PlanRuns.SameBytes | asr/whisper/src/main/cpp/ggml/src/ggml-alloc.c:717-822 | For all functions that the nodes may compute: before every node each byte that is still to be seen has the same value in both runs. |
| PlanRuns.PlannedRunReadsTheSame | asr/whisper/src/main/cpp/ggml/src/ggml-alloc.c:717-822 | Whatever the nodes compute, every node that runs in the planned memory reads from all its sources the contents that it would read with a buffer for every tensor. |
| PlanRuns.PlannedRunResults | asr/whisper/src/main/cpp/ggml/src/ggml-alloc.c:690-822 | And at the end every output has the contents that it would have, under the conditions of OutputsSurvive. |
| PlanRelease.UpdatedGivenBack | asr/whisper/src/main/cpp/ggml/src/ggml-alloc.c:792-820 | A source read for the last time gives its memory back, and so does the tensor behind the last view of it, whether or not that view is an output. |
| PlanRelease.KeptExactlyWhen | asr/whisper/src/main/cpp/ggml/src/ggml-alloc.c:690-820 | At the end of planning a tensor that was read or looked into holds memory exactly when it is an output or some computed view of it was never read. |
| PlanExample.ViewOutputGivenBack | asr/whisper/src/main/cpp/ggml/src/ggml-alloc.c:690-711 | A graph with an output that is a view of a tensor that is none, and that a node reads: in every plan the memory behind the output is given back. |
| PlanExample.GivenBackIsPicked | asr/whisper/src/main/cpp/ggml/src/ggml-alloc.c:206-349 | Of two equal ranges taken from an empty allocator the first, given back, is picked again for the same size, whatever the size and the limit on chunks. |
| PlanExample.ViewOutputOverwritten | asr/whisper/src/main/cpp/ggml/src/ggml-alloc.c:690-711 | A safe plan of that graph in which the last node overwrites every byte of the output. |
| PlanExecution.ViewsOwnNothing | asr/whisper/src/main/cpp/ggml/src/ggml-alloc.c:626-627 | Views never own memory, so the branch at 657-669 that would reuse a view's memory never runs. |
| HashSet.SetBitOnly | asr/whisper/src/main/cpp/ggml/src/ggml-impl.h:209-215 | Setting a bit in its 32-bit word changes that bit and no other bit of the set. |
| HashSet.StoppedAtEmpty | asr/whisper/src/main/cpp/ggml/src/ggml-impl.h:259-272 | A probe that ends at an empty slot proves the key absent. |
| HashSet.WentRound | asr/whisper/src/main/cpp/ggml/src/ggml-impl.h:259-272 | A probe that comes round again proves the table full of other keys. |
| HashSet.FilledReachable | asr/whisper/src/main/cpp/ggml/src/ggml-impl.h:279-297 | Filling the first empty slot of a probe keeps every key reachable on a full probe path. |
| HashSet.HashSet.Find | asr/whisper/src/main/cpp/ggml/src/ggml-impl.h:259-272 | The slot of the key if it is present, else the first empty slot of its path, else full. |
| HashSet.HashSet.ContainsKey | asr/whisper/src/main/cpp/ggml/src/ggml-impl.h:274-277 | True exactly for the keys in the set. |
| HashSet.HashSet.Insert | asr/whisper/src/main/cpp/ggml/src/ggml-impl.h:279-297 | Adds exactly the key, reports keys that were there, and aborts exactly when the table is full of other keys. |
| HashSet.HashSet.FindOrInsert | asr/whisper/src/main/cpp/ggml/src/ggml-impl.h:300-319 | The key is in the set afterwards, all earlier keys keep their slots, and it aborts exactly when the table is full of other keys. |
| HashSet.HashSet.Reset | asr/whisper/src/main/cpp/ggml/src/ggml-impl.h:239 | The set is empty. |
| GrammarRules.GeneratesRef | asr/whisper/src/main/cpp/whisper.cpp:5637-5670 | A rule reference in front generates what one of the rule's alternates followed by the rest generates. |
| GrammarEngine.ExpandedSmaller | asr/whisper/src/main/cpp/whisper.cpp:5645-5655 | Replacing a reference by an alternate lowers the number of expansions that can still be needed: the recursion ends. |
| GrammarEngine.Advance | asr/whisper/src/main/cpp/whisper.cpp:5628-5683 | There is always at least one resulting stack, and each is empty or has a character on top. |
| GrammarEngine.AdvanceLanguage | asr/whisper/src/main/cpp/whisper.cpp:5628-5683 | Expanding a stack keeps the language it stands for. |
| GrammarRank.WellFormedIffRanked | asr/whisper/src/main/cpp/whisper.cpp:5637-5670 | The bound on the recursion exists exactly when the rules can be ranked so that what can come first in a rule ranks below it. |
| GrammarRank.WellFormedIffNoLeftRecursion | asr/whisper/src/main/cpp/whisper.cpp:5637-5670 | The bound on the recursion exists exactly when no chain of rules, each coming first in the one before it behind nullable rules only, leads back to its start. |
| GrammarAccept.AcceptDerivative | asr/whisper/src/main/cpp/whisper.cpp:5685-5711 | Accepting a character turns the language of the stacks into its left derivative by that character. |
| GrammarAccept.AcceptAllDerivative | asr/whisper/src/main/cpp/whisper.cpp:5685-5711 | After a text the stacks generate exactly the words that continue it. |
| GrammarAccept.InitialLanguage | asr/whisper/src/main/cpp/whisper.cpp:5785-5823 | The initial stacks generate the language of the start rule. |
| GrammarAccept.EngineFollowsGrammar | asr/whisper/src/main/cpp/whisper.cpp:5685-5823 | After any text the stacks generate exactly what may follow it in a sentence of the start rule. |
| GrammarAccept.EmptyStackIsComplete | asr/whisper/src/main/cpp/whisper.cpp:5632-5635 | An empty stack is among the stacks exactly when the text so far is a sentence. |
| GrammarReject.RejectCount | asr/whisper/src/main/cpp/whisper.cpp:5713-5783 | The recursive filter returns each candidate as often as it was given if following it alone leaves no stack that can take it, and never otherwise. |
| GrammarReject.DeadIsNoStackLeft | asr/whisper/src/main/cpp/whisper.cpp:5718-5783 | For a completely decoded candidate, being taken by no stack means that accepting its code points one by one leaves none. |
| GrammarReject.FilterRefinesSimulation | asr/whisper/src/main/cpp/whisper.cpp:5713-5783 | A completely decoded candidate is rejected exactly when accepting its code points leaves no stack. |
| GrammarOpen.ContinuesIffSomeTop | asr/whisper/src/main/cpp/whisper.cpp:5576-5626 | Some character that begins with the open bytes leaves a stack exactly when some class on top contains such a character. |
| GrammarOpen.FilterRefinesCompletion | asr/whisper/src/main/cpp/whisper.cpp:5713-5783 | A candidate that ends inside a character, of which it leaves some bytes open, is rejected exactly when no character that begins with these bytes leaves a stack behind its code points; for classes outside the exceptions of PartialMatchExactWhen. |
| GrammarOpen.BrokenIsDead | asr/whisper/src/main/cpp/whisper.cpp:5741-5743 | A candidate that the decoder refuses is refused by every stack. |
| GrammarOpen.OpenTail | asr/whisper/src/main/cpp/whisper.cpp:5485-5539 | After any legal bytes that end inside a character, the bytes of that character alone say where the decoder is. |
| GrammarPartial.WindowIsCompletions | asr/whisper/src/main/cpp/whisper.cpp:5584-5604 | The characters whose encoding by section 3 of RFC 3629 begins with the bytes read so far are those of the code's window without overlong forms, surrogates and what lies behind 10FFFF. |
| GrammarPartial.WindowIsFull | asr/whisper/src/main/cpp/whisper.cpp:5584-5604 | These are the whole window unless no character begins with the bytes, or they are the single byte ED or F4. |
| GrammarPartial.PartialMatchExactWhen | asr/whisper/src/main/cpp/whisper.cpp:5576-5626 | The exact condition on bytes and class for the documented equivalence, that bytes match exactly when some character that begins with them does: bytes without a character must be refused, a class must meet the characters and not only by a reversed range, and a negated class must miss the window or contain none of the characters. |
| GrammarPartial.PartialMatchSound | asr/whisper/src/main/cpp/whisper.cpp:5576-5626 | With proper ranges and characters that fill the window, a match can always be completed. |
| GrammarPartial.OverlongMatches | asr/whisper/src/main/cpp/whisper.cpp:5584-5604 | E0 85 matches the class of U+0144, although no character begins with these bytes. |
| GrammarPartial.NegatedClassRefusesTooMuch | asr/whisper/src/main/cpp/whisper.cpp:5609-5626 | A negated class refuses a partial character that could still be completed to a match: the comment at 5576-5577 is wrong there. |
| GrammarRun.MatchChar | asr/whisper/src/main/cpp/whisper.cpp:5552-5574 | The loop over a class decides membership and returns the element behind it. |
| GrammarRun.ClassContains | asr/whisper/src/main/cpp/whisper.cpp:5552-5574 | A class goes on while upper bounds and alternative characters follow, and contains a character exactly when one of its characters is that character or one of its ranges includes it. |
| GrammarRun.MatchPartialChar | asr/whisper/src/main/cpp/whisper.cpp:5579-5626 | The loop over a class decides the partial match. |
| GrammarRun.AdvanceStack | asr/whisper/src/main/cpp/whisper.cpp:5628-5683 | Appends exactly the settled stacks of the expansion, in order. |
| GrammarRun.AcceptChar | asr/whisper/src/main/cpp/whisper.cpp:5685-5711 | The loop over stacks computes the accepted stacks. |
| GrammarRun.InitialStacks | asr/whisper/src/main/cpp/whisper.cpp:5800-5820 | The loop over the alternates of the start rule builds the initial stacks. |
| GrammarRun.RejectCandidatesForStack | asr/whisper/src/main/cpp/whisper.cpp:5718-5767 | One stack's rejects: those decided at once and those decided one code point later, moved back. |
| GrammarRun.RejectCandidates | asr/whisper/src/main/cpp/whisper.cpp:5769-5783 | Every stack filters what the stacks before it rejected. |
| GrammarTokens.TokensAccept | asr/whisper/src/main/cpp/whisper.cpp:5869-5891 | The stacks after some tokens depend only on the decoded text, not on its division into tokens. |
| GrammarTokens.TokensFollowGrammar | asr/whisper/src/main/cpp/whisper.cpp:5785-5891 | After tokens whose bytes encode a text, wherever they are cut, the stacks generate exactly what may follow the text. |
| GrammarTokens.PenalizedIffRefused | asr/whisper/src/main/cpp/whisper.cpp:5825-5891 | A token that ends with a complete character is penalized exactly when accepting it would leave no stack. |
| GrammarTokens.PenalizedIffNoCompletion | asr/whisper/src/main/cpp/whisper.cpp:5825-5891 | A token that ends inside a character is penalized exactly when no character that begins with the open bytes leaves a stack, under the condition of FilterRefinesCompletion. |
| GrammarTokens.BrokenIsPenalized | asr/whisper/src/main/cpp/whisper.cpp:5825-5867 | A token whose bytes the decoder refuses is penalized. |
| GrammarTokens.Matcher.AcceptToken | asr/whisper/src/main/cpp/whisper.cpp:5869-5891 | Decodes the token behind what is open, accepts its code points and keeps what is open now; tokens that start with "[_" and finished grammars change nothing. |
| GrammarTokens.Matcher.SuppressInvalid | asr/whisper/src/main/cpp/whisper.cpp:5825-5867 | Each token that no stack can take loses the penalty once, and no other logit changes. |
| Utf8Decode.DecodeUtf8 | asr/whisper/src/main/cpp/whisper.cpp:5485-5539 | The three loops compute the decoding function, invalid input included. |
| Utf8Decode.DecodeByteByByte | asr/whisper/src/main/cpp/whisper.cpp:5485-5539 | On legal bytes the decoder completes code points byte by byte, whatever was open before. |
| Utf8Decode.DecodeText | asr/whisper/src/main/cpp/whisper.cpp:5485-5539 | Section 3 of RFC 3629: decoding the encoding of a text gives the text back. |
| Utf8Decode.RoundTripInPieces | asr/whisper/src/main/cpp/whisper.cpp:5485-5539 | However the encoding of a text is cut into pieces, decoding piece by piece gives the text back and leaves nothing open. |
| Utf8Decode.ErrorExactlyWhen | asr/whisper/src/main/cpp/whisper.cpp:5485-5539 | From any carried state, that of an earlier error included, an error is reported exactly when a byte that is no continuation byte stands in the sequence left open by the previous piece, or a continuation byte stands at one of the sequence starts, which follow from the lengths that first bytes announce, or nothing follows an earlier error. |
| Utf8Decode.AfterError | asr/whisper/src/main/cpp/whisper.cpp:5485-5539 | After an error the next piece is decoded as if nothing were open; an empty piece keeps the error. |
| Utf8Decode.FirstIllegalByte | asr/whisper/src/main/cpp/whisper.cpp:5483-5539 | Text whose bytes are all legal in turn gives no error. The first illegal byte gives one in a sequence left open by the previous piece and at the start of a sequence; inside a sequence begun in this piece it decodes like the continuation byte with the same low bits. |
| Utf8Decode.BadTailDecodes | asr/whisper/src/main/cpp/whisper.cpp:5524-5535 | A sequence broken off inside one piece is decoded without an error, although the comment at 5483-5484 promises one. |
| Utf8Decode.BadTailRefused | asr/whisper/src/main/cpp/whisper.cpp:5494-5505 | The same bytes cut in two are refused. |
| Utf8Decode.DecodeFits | asr/whisper/src/main/cpp/whisper.cpp:5485-5539 | No value ever needs more than 22 bits, so 32-bit arithmetic never wraps. |
| KvCache.Cache.FindWindow | asr/whisper/src/main/cpp/whisper.cpp:1019-1057 | From any head the search ends, and succeeds exactly when a free window of that length exists anywhere. |
| KvCache.Cache.FindSlot | asr/whisper/src/main/cpp/whisper.cpp:1019-1068 | On success exactly the cells of a free window are filled with the batch; on failure no cell changes. |
| KvCache.Cache.CellMax | asr/whisper/src/main/cpp/whisper.cpp:1071-1079 | One past the last cell in use, at least 1. |
| KvCache.Cache.SetN | asr/whisper/src/main/cpp/whisper.cpp:2876-2877 | Attention looks far enough: no cell in use lies behind the limit; and no further than to the first multiple of the padding behind the cells in use. |
| KvCache.Cache.Clear | asr/whisper/src/main/cpp/whisper.cpp:1081-1089 | Every cell is free. |
| KvCache.Cache.SeqRm | asr/whisper/src/main/cpp/whisper.cpp:1091-1119 | The sequence leaves exactly the cells in the position range, cells without an owner become free, and the search restarts at the first of them. |
| KvCache.RemovedExactly | asr/whisper/src/main/cpp/whisper.cpp:1091-1119 | A cell loses the sequence, or all for a negative one, exactly if it is in use at a position in the range, negative bounds being none; it becomes free exactly if nobody is left. |
| KvCache.Cache.SeqCp | asr/whisper/src/main/cpp/whisper.cpp:1121-1137 | The new sequence joins exactly the cells that the old one owns in the position range. |
| KvCache.CopiedExactly | asr/whisper/src/main/cpp/whisper.cpp:1121-1137 | A cell gains the other sequence exactly if the first one owns it at a position in the range. |
| KvCache.Cache.FillMask | asr/whisper/src/main/cpp/whisper.cpp:2908-2937 | A token sees a cell exactly when its sequence owns it at no later position. |
| KvDecoding.ParallelAssignment | asr/whisper/src/main/cpp/whisper.cpp:7284-7324 | The shuffle through scratch ids is one parallel assignment of ownership for any parents, swaps and duplicates included: finished decoders keep their cells, no scratch id remains, a cell is free exactly when nobody owns it. |
| KvDecoding.ShuffleTakesOver | asr/whisper/src/main/cpp/whisper.cpp:7284-7324 | Over the whole cache each live decoder owns exactly what its parent owned. |
| KvDecoding.PlacedGrows | asr/whisper/src/main/cpp/whisper.cpp:7436-7467 | A new token extends its decoder's text by one position, with one cell. |
| KvDecoding.PlacedInherits | asr/whisper/src/main/cpp/whisper.cpp:7436-7467 | And leaves the cells of the text so far to it, and no others below the new position. |
| KvDecoding.PlacedKeeps | asr/whisper/src/main/cpp/whisper.cpp:7436-7467 | Finished decoders keep exactly their cells. |
| KvDecoding.RowIsTheText | asr/whisper/src/main/cpp/whisper.cpp:2918-2930 | In a token's mask row every position up to its own has exactly one visible cell, the decoder's own, and nothing else is visible. |
| KvDecoding.Decoding.Decode | asr/whisper/src/main/cpp/whisper.cpp:2868-2937 | A slot, the limit and the mask; succeeds exactly when a window exists. |
| KvDecoding.Decoding.Begin | asr/whisper/src/main/cpp/whisper.cpp:7149-7186 | After the prompt every decoder owns one cell for each of its positions, all of them the same cells; it fits exactly when the cache is as large as the prompt. |
| KvDecoding.Decoding.Shuffle | asr/whisper/src/main/cpp/whisper.cpp:7284-7324 | The beam step keeps the whole-run invariant. |
| KvDecoding.Decoding.ChooseParents | asr/whisper/src/main/cpp/whisper.cpp:7284-7324 | In beam search each live decoder owns exactly what its chosen parent owned, otherwise what it owned. |
| KvDecoding.Decoding.Extend | asr/whisper/src/main/cpp/whisper.cpp:7436-7467 | One more position for every live decoder; mask rows show exactly the decoders' own cells. |
| KvDecoding.Decoding.Run | asr/whisper/src/main/cpp/whisper.cpp:7149-7467 | Over a whole segment, whatever parents are chosen and whenever decoders finish, every live decoder owns exactly one cell for each position so far; call by call the batch has one token for each decoder that has not finished, each owns below its new position exactly the cells of the parent that it continues in the call before, each token's mask row shows exactly its own text, and the cache after the last call is the one that it saw; the run stops early only for a prompt larger than the cache or without a free window. |
| Fourier.SplitSum | asr/whisper/src/main/cpp/whisper.cpp:3073-3085 | The transform splits into the even and the odd terms, up to any number of terms. |
| Fourier.Butterfly | asr/whisper/src/main/cpp/whisper.cpp:3087-3101 | Two coefficients come from one coefficient each of the even and the odd half. |
| Fourier.Dft | asr/whisper/src/main/cpp/whisper.cpp:3038-3054 | The double loop computes every coefficient and writes nowhere else. |
| Fourier.TransformIsSums | asr/whisper/src/main/cpp/whisper.cpp:3038-3054 | The cells hold the transform exactly when the real parts are the sums with the cosines and the imaginary parts the negated sums with the sines, at the indices of the table that the loop uses. |
| Fourier.Fft | asr/whisper/src/main/cpp/whisper.cpp:3060-3102 | The fast form equals the transform for every size that divides the table; it reads its input unchanged, uses only n scratch cells behind it and at most 8n cells of the output. |
| Fourier.TransformHalves | asr/whisper/src/main/cpp/whisper.cpp:3073-3085 | Both halves share the scratch cells one after the other, and the second never reaches the result of the first. |
| Fourier.Combine | asr/whisper/src/main/cpp/whisper.cpp:3087-3101 | Joining the halves in place gives the transform. |
| Dtw.Inside | asr/whisper/src/main/cpp/whisper.cpp:8715-8736 | The table is finite inside, and the choice never leads into row or column 0 before the corner. |
| Dtw.TrailIsMonotone | asr/whisper/src/main/cpp/whisper.cpp:8747-8766 | The backtrace is a connected monotone path from the first cell to the last. |
| Dtw.TrailSum | asr/whisper/src/main/cpp/whisper.cpp:8713-8766 | The elements on the path sum up to the cost in the table. |
| Dtw.LeastIsLower | asr/whisper/src/main/cpp/whisper.cpp:8698-8700 | The least cost is a lower bound for every monotone path. |
| Dtw.OptimalExactlyWhen | asr/whisper/src/main/cpp/whisper.cpp:8721-8730 | Every cell of the table holds the least cost exactly when no cell has two equal predecessors passed over for a dearer third. |
| Dtw.CheapestIffLeast | asr/whisper/src/main/cpp/whisper.cpp:8713-8766 | The path found is cheapest exactly when the last cell holds the least cost. |
| Dtw.CheapestExactlyWhen | asr/whisper/src/main/cpp/whisper.cpp:8698-8782 | The path found is cheapest exactly when some cheapest path steps on no such cell. |
| Dtw.TieCosts | asr/whisper/src/main/cpp/whisper.cpp:8721-8730 | At such a tie the table is too high. |
| Dtw.TieExample | asr/whisper/src/main/cpp/whisper.cpp:8721-8730 | Two tokens and two frames for which the path found costs 1 and the best path 0. |
| Dtw.HarmlessTie | asr/whisper/src/main/cpp/whisper.cpp:8721-8730 | Two tokens and three frames with such a cell, for which the path found is cheapest all the same. |
| Dtw.FillTables | asr/whisper/src/main/cpp/whisper.cpp:8706-8736 | The loops fill both tables. |
| Dtw.Backtrace | asr/whisper/src/main/cpp/whisper.cpp:8738-8781 | Borders, backtrace, clip and transpose give the path in at most N + M - 1 rows. |
| Dtw.DtwAndBacktrace | asr/whisper/src/main/cpp/whisper.cpp:8698-8782 | The path returned is monotone, stays in the table and sums up to its cost; no monotone path costs less exactly when some cheapest path avoids bad ties. |
| VadSegments.Scanner.Resume | asr/whisper/src/main/cpp/whisper.cpp:5262-5268 | Speech that comes back ends the tentative silence, and may be where a split segment restarts. |
| VadSegments.Scanner.Split | asr/whisper/src/main/cpp/whisper.cpp:5278-5299 | A segment that is too long is cut at its last long silence, or here if it had none. |
| VadSegments.Scanner.Silence | asr/whisper/src/main/cpp/whisper.cpp:5301-5326 | A segment ends when its silence has lasted and counts when it is long enough. |
| VadSegments.Scanner.Feed | asr/whisper/src/main/cpp/whisper.cpp:5258-5327 | Segments stay sorted and apart, each starts at a frame of speech, the two speech flags always agree, and a frame of speech is inside a segment unless one was just cut at it. |
| VadSegments.Scan | asr/whisper/src/main/cpp/whisper.cpp:5251-5332 | The scan finds exactly the detected segments, sorted, apart and inside the audio. |
| VadFrames.DetectedAreParts | asr/whisper/src/main/cpp/whisper.cpp:5251-5332 | By the frames alone: each segment starts at a frame of speech and ends where a dip begins that lasts for the least silence at a quiet frame, with no speech in between and no such dip before it; or it is cut when it is too long, at its last long dip or right there; or it lasts until the end. Shorter ones than the least speech do not count unless cut. |
| VadFrames.SpeechIsInParts | asr/whisper/src/main/cpp/whisper.cpp:5251-5332 | Every frame of speech is inside one of these parts, but for those at which a part was cut. |
| VadFrames.OnePart | asr/whisper/src/main/cpp/whisper.cpp:5258-5327 | The frames leave no choice where a part that has started is decided and ends. |
| VadFrames.DetectedExactly | asr/whisper/src/main/cpp/whisper.cpp:5251-5332 | Any list of parts that fits the recording gives the segments detected. |
| VadSegments.Merge | asr/whisper/src/main/cpp/whisper.cpp:5334-5350 | The erasing loop computes the merge. |
| VadSegments.MergedApart | asr/whisper/src/main/cpp/whisper.cpp:5334-5350 | Merging keeps the order and leaves no gap below 200 ms. |
| VadSegments.MergedCovers | asr/whisper/src/main/cpp/whisper.cpp:5334-5350 | What was speech stays speech. |
| VadSegments.DetectedNoLonger | asr/whisper/src/main/cpp/whisper.cpp:5278-5332 | For every recording no detected segment is longer than the greatest length and one window. |
| VadSegments.MergedSameExactlyWhen | asr/whisper/src/main/cpp/whisper.cpp:5334-5350 | Merging keeps a list as it is exactly when no gap is below 200 ms. |
| VadSegments.MergedNoLongerExactlyWhen | asr/whisper/src/main/cpp/whisper.cpp:5334-5350 | A greatest length survives merging exactly when every run of detected segments with only gaps below 200 ms keeps it from its start to its end. |
| VadSegments.PaddedKeepTheLimit | asr/whisper/src/main/cpp/whisper.cpp:5223-5412 | If those runs keep the limit in samples and one window, no padded segment is longer than the greatest length in seconds: the window and twice the padding that were taken off it are what a late cut and padding can add. |
| VadSegments.SteadySpeechIsOneSegment | asr/whisper/src/main/cpp/whisper.cpp:5278-5350 | In a recording that is all speech every cut for the greatest length is merged back: one segment reaches from the start to at most the least speech and a window before the end. |
| VadSegments.LimitIsExceeded | asr/whisper/src/main/cpp/whisper.cpp:5278-5350 | A minute of speech with a greatest length of ten seconds gives a segment longer than 59 seconds. |
| VadSegments.LongEnoughStay | asr/whisper/src/main/cpp/whisper.cpp:5355-5364 | Exactly the segments shorter than the least speech are dropped. |
| VadSegments.PaddingKeepsOrder | asr/whisper/src/main/cpp/whisper.cpp:5379-5412 | Padding only extends segments and keeps them apart and inside the audio. |
| VadSegments.PaddedExactlyWhen | asr/whisper/src/main/cpp/whisper.cpp:5379-5412 | Padding covers exactly the samples of the audio that are at most the padding from a segment, but for the middle sample of an odd gap that is too small for both sides. |
| VadSegments.Pad | asr/whisper/src/main/cpp/whisper.cpp:5379-5412 | The loop that changes two neighbours at a time gives each side the full padding, or half of a gap too small for both. |
| VadSegments.SegmentsFromProbs | asr/whisper/src/main/cpp/whisper.cpp:5197-5431 | Segments come out sorted, apart, inside the audio, no shorter than the least speech, and no longer than the greatest length if every run of detected segments with small gaps keeps it; rounding to centiseconds keeps their order. |
| VadMap.FillsExactlyWhen | asr/whisper/src/main/cpp/whisper.cpp:6683-6770 | For segments that start at most 50 ms behind the audio, the copied segments and silences fill the reserved room exactly when every segment but the last has a sample to copy and the last starts no later than it is cut; at most 799 samples too many are written. |
| VadMap.OverrunsExactlyWhen | asr/whisper/src/main/cpp/whisper.cpp:6683-6770 | More is written than there is room for exactly when every segment but the last has a sample to copy and the last starts behind where it is cut. |
| VadMap.OneSampleTooMany | asr/whisper/src/main/cpp/whisper.cpp:6637-6770 | A recording of 9217 samples with speech in its first and last window, for which 64 samples are written behind the room. |
| VadMap.DetectedAreInside | asr/whisper/src/main/cpp/whisper.cpp:6683-6721 | Detected segments lie inside when the least speech is longer than a window. |
| VadMap.EntriesContinue | asr/whisper/src/main/cpp/whisper.cpp:6734-6768 | Each segment's table entries continue the table in both times. |
| VadMap.AnySortGivesTable | asr/whisper/src/main/cpp/whisper.cpp:6772-6786 | However a sort arranges entries of the same processed time, after removing repeats processed times strictly increase and original times never decrease. |
| VadMap.CopiesAll | asr/whisper/src/main/cpp/whisper.cpp:6723-6768 | Each cut lies behind those before it and their silences: sample by sample it is the audio from the start of its segment to its end, or the overlap further if another follows, without the last sample of the audio; and behind it are zeros for 0.1 s. |
| VadMap.EntriesArePoints | asr/whisper/src/main/cpp/whisper.cpp:6734-6768 | The entries of the time table are exactly both ends of each segment and of the silence behind it, for the cuts that are not empty. |
| VadMap.ExtractSpeech | asr/whisper/src/main/cpp/whisper.cpp:6683-6790 | The cut audio is that copy, the table holds exactly these points, one for each processed time, and it says exactly when the reserved room is filled and when it is overrun. |
| VadMap.Vad | asr/whisper/src/main/cpp/whisper.cpp:6637-6797 | Detection and cutting together fill the room exactly when every segment does, overrun it exactly when the last segment alone starts behind its cut, and always fill it when the least speech is longer than a window, as it is by default. |
| VadMap.LowerBound | asr/whisper/src/main/cpp/whisper.cpp:7940-7946 | The first entry at or after the time. |
| VadMap.MapToOriginal | asr/whisper/src/main/cpp/whisper.cpp:7927-7966 | The lookup computes the piecewise linear map; its guard against a zero difference is never needed. |
| VadMap.MapOnLine | asr/whisper/src/main/cpp/whisper.cpp:7953-7965 | Between two neighbouring entries the mapped time is on the straight line through them, rounded down. |
| VadMap.ExactAtEntries | asr/whisper/src/main/cpp/whisper.cpp:7948-7951 | The map is exact at every entry of the table. |
| VadMap.MapBounded | asr/whisper/src/main/cpp/whisper.cpp:7932-7938 | Mapped times stay between the first and the last original time. |
| VadMap.MapMonotone | asr/whisper/src/main/cpp/whisper.cpp:7927-7966 | Later processed times never map to earlier original times. |
| Segmenter.Frames | benchmark/tools/segmenter_sim.py:36-46 | Frames follow each other without a gap in their millisecond time stamps, the short one at the end of the audio included. |
| Segmenter.Step | benchmark/tools/segmenter_sim.py:94-126 | One frame for any decision of the gate: while in speech the start plus the length is the current time, and the state is the one given in terms of lengths. |
| Segmenter.Segment | benchmark/tools/segmenter_sim.py:85-132 | Neighbours overlap by exactly 1000 ms after a segment closed for its length and not at all otherwise; such a segment always has a successor; every segment is at least 300 ms and less than 5050 ms. |
| SegmenterFrames.SegmentsAreParts | benchmark/tools/segmenter_sim.py:85-132 | By the frames alone: each segment opens at the first two loud frames in a row, with up to 100 ms from before them, or 1000 ms before the end of one closed for its length; it is closed after the first frame at which 300 ms have been quiet without a break or 5000 ms are reached, or by the end of the stream. |
| Segmenter.UnionMs | benchmark/tools/segmenter_sim.py:135-150 | The sweep computes the union over the sorted spans. |
| Segmenter.UnionIsMeasure | benchmark/tools/segmenter_sim.py:135-150 | For segments in any order the result is the measure of their union. |
| Segmenter.UnionOfSegments | benchmark/tools/segmenter_sim.py:135-150 | For the segmenter's output it is the sum of the durations less 1000 ms for each segment closed for its length. |
| Segmenter.Covered | benchmark/tools/segmenter_sim.py:153-163 | Both together for every audio length and every gate. |
| Utf8Safe.BoundaryIffNoContinuation | asr/whisper/src/main/cpp/utf8_safe.h:29-33 | In well-formed text the character boundaries are exactly the places without a continuation byte. |
| Utf8Safe.AlignStart | asr/whisper/src/main/cpp/utf8_safe.h:30-33 | The next place without a continuation byte; in well-formed text a boundary. |
| Utf8Safe.Sanitize | asr/whisper/src/main/cpp/utf8_safe.h:39-56 | The loop computes the sanitized text. |
| Utf8Safe.SanitizedWellFormed | asr/whisper/src/main/cpp/utf8_safe.h:35-38 | The result is well-formed. |
| Utf8Safe.SanitizedIdentity | asr/whisper/src/main/cpp/utf8_safe.h:35-38 | Nothing changes exactly when the text is well-formed, the length tells whether anything was dropped, and sanitizing twice is sanitizing once. |
| Utf8Safe.SanitizedKeepsFront | asr/whisper/src/main/cpp/utf8_safe.h:39-56 | A well-formed front is kept whatever follows. |
| Utf8Safe.KeepsWholeCharactersExactlyWhen | asr/whisper/src/main/cpp/utf8_safe.h:39-56 | Every whole character is kept exactly when none stands behind a truncated one; at most two bytes of whole characters are lost. |
| Utf8Safe.TruncatedTailTakesMore | asr/whisper/src/main/cpp/utf8_safe.h:45 | Every first byte of a longer sequence in front of a last letter takes that letter with it, which 36-37 does not say. |
| Utf8Safe.Chars | asr/whisper/src/main/cpp/utf8_safe.h:59-69 | The loop computes the split. |
| Utf8Safe.SplitIsExact | asr/whisper/src/main/cpp/utf8_safe.h:58-69 | Well-formed text is split into its characters, and joined they give it back. |
| Utf8Safe.Handle.Commit | asr/whisper/src/main/cpp/whisper-jni.cpp:593-617 | The carried text is the trimmed end of the result from a word or character start on: at most 200 bytes, a contiguous part of the result, and well-formed when the result is; otherwise the carry does not change. |
| Utf8Safe.TrimmedOnce | asr/whisper/src/main/cpp/whisper-jni.cpp:611-615 | What trimming leaves is determined by the text: no other part of it starts and ends with something to keep and has only blanks around it. |
| Timestamps.MaskTimestamps | asr/whisper/src/main/cpp/whisper.cpp:6284-6324 | The loops mask exactly the tokens that the timestamp rules name, on top of what was masked before. |
| Timestamps.MaskedExactlyWhen | asr/whisper/src/main/cpp/whisper.cpp:6284-6324 | A token is masked exactly when it would put a timestamp before an earlier one, make a third in a row or a second at the start, leave one without a partner, or start too late. |
| Timestamps.UnmaskedKeepsOrder | asr/whisper/src/main/cpp/whisper.cpp:6284-6324 | Any unmasked token keeps timestamps sorted, paired and never three in a row, and the latest timestamp never goes back. |
| Timestamps.Update | asr/whisper/src/main/cpp/whisper.cpp:7331-7412 | The failure for going back in time never happens; when a decoder completes or fails, and with which length and window advance, is given exactly. |
| Timestamps.SampleAll | asr/whisper/src/main/cpp/whisper.cpp:7200-7325 | One token for every live decoder, from its own track or from any live parent, keeps every decoder valid. |
| Timestamps.DecodeWindow | asr/whisper/src/main/cpp/whisper.cpp:7067-7560 | Whichever decoder is selected, its window advance is the latest timestamp of its text or the whole chunk, and at least 2, and its timestamps are in order. |
| Timestamps.SeekLoop | asr/whisper/src/main/cpp/whisper.cpp:7005-7752 | The loop over windows ends with less than 100 ms left, whatever is masked and however many decoders there are in each. Each window starts where the one before it moved to: behind the whole chunk or the audio if its text ends in a single timestamp and not at the limit on tokens, else at the latest timestamp of its text or behind the whole chunk; never less than 2 further. |

## Left out

- Backend and device code, model loading, JNI plumbing and logging: input, output and foreign calls.
- Graph builders, tensor kernels, softmax, entropy and scores, Silero inference: their results are arbitrary here.
- Rounding of floating-point numbers in FFT, DTW, masks and time conversions.
- Widths of integers: sample counts, positions and offsets are unbounded, with the limits of the source
  (chunk and free-list sizes, half of the address space, positions below 2^31 - 1) stated where they decide.
- Buffer reallocation and the tensors' final addresses in `ggml_gallocr_reserve_n_impl` and `ggml_gallocr_alloc_graph`: only the reset and the plan are modelled.
- `realloc` and `calloc` failures, debug-only bookkeeping of the allocator, and pointers of copied grammars.
- Temperature fallback and scoring between decoders: any decoder of a window may be selected.
- A decoder all of whose tokens are masked: what the source then samples is undefined, and the model stops the window.
- Negative padding or overlap in the speech detector's parameters.
- Strict UTF-8 in `utf8_safe.h`: overlong forms, surrogates and first bytes above 0xF4 pass there, so well-formed means lead and continuation structure only.
- `uniqueCharFraction`, token-level timestamp heuristics, `whisper_full_parallel` and the gate classes of the simulator.
- VadMap.FillsExactlyWhen: segments that start more than 50 ms behind the audio are not covered; with windows of 512 samples the detector never gives one.
- DynTallocr.DynTallocr.FindInner: states the best fit per chunk, not across chunks, because the code forgets the best size at each chunk.
- GrammarPartial.PartialMatchSound: demands ranges that are not reversed and characters that fill the window; the equivalence for all ranges and bytes is PartialMatchExactWhen.
- GraphAllocr.GraphAllocr.AllocGraph: the reason for stopping is given one way; whether an allocator at its limit is asked for more depends on the sizes still to come.
- PlanExample.ViewOutputOverwritten: shows one safe plan with the loss; that planning ends in it rests on GivenBackIsPicked and the order of the allocator calls, not on the contract of AllocGraph.
- GrammarOpen.FilterRefinesCompletion: demands classes for which the partial match decides as documented; PartialMatchExactWhen says for which it does.
- VadFrames.DetectedExactly: demands a negative threshold that is not above the threshold, as it is for thresholds from 0.01 on; DetectedAreParts does not.
- GrammarRank.WellFormedIffNoLeftRecursion: takes the nullable rules as given, closed under the alternates; any larger set of them only adds left corners.
- Timestamps.SeekLoop: no callback stops the loop and encoding never fails.
