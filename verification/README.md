# Verified model of the serving core

This project models the parts of an LLM serving engine whose state is easiest to get wrong, in
Dafny, and proves what they promise.

* **Paged radix tree** (`RadixPages`, `RadixSteps`, `RadixSearch`, `RadixCompression`,
  `RadixOperations`, `RadixRollback`, `RadixTree`). Token sequences live in pages of 64 tokens
  linked by parent, first child and next sibling. The class `PagedRadixTree` changes those links,
  buffers, the sequence index and the page pool step by step; its contracts say what happens to
  the plain map from sequence to tokens. Below it every step is a function on trees, with lemmas
  for what it keeps: finite tree, distinct first tokens of siblings, a sequence in every leaf, an
  exact index, a partition of pages into used and free, and no page that could be merged.
* **Prefix cache** (`PrefixCacheSpec`, `PrefixCache`, `PrefixCacheMeaning`). A state machine over
  that map, the class that implements it on the tree, properties of all its runs, and what every
  call does in the words of its caller.
* **Threaded engine** (`ThreadedEngine`, `ThreadedProgress`). Threads as interleaved steps around
  one mutex and two condition variables; a blocked thread may wake for no reason. Safety over all
  runs, and which instructions and calls are certain to be served or never will be.
* **Multi-GPU loader** (`MultiGpuLoader`, `MultiGpuRun`). The communication script of each worker
  from the loader's loops, and all workers together, with sends and group collectives that block
  until everybody has arrived.
* **MRoPE positions** (`MropePositions`, `MropeChunks`, `MropeBatches`, `MropeMeaning`,
  `MropeModel`, `MropeReference`). Three-axis positions of multimodal prompts, chunk by chunk and in batches,
  against one call on the whole prompt and against the independent Python version.
* **Speculative drafts** (`DraftTokens`, `TokenLayout`, `PenaltyRows`, `PenaltyMeaning`,
  `LogitProcessor`, `MaskRows`, `DraftSlots`). Draft trees, counts, penalty rows, grammar masks and slots.
* **Codec, image size, memory budget** (`Utf8`, `Escapes`, `ImageResize`, `MemoryBudget`).

`Common.dfy` holds optional values, results, lists without repeats and a few facts of arithmetic. Classes whose fields
the source updates keep those fields. A failed check or a thrown error is a result value that
says no; what the state is then is part of the contract. `hide` statements in proofs only keep
definitions from the solver where they are not needed.

Where the code and its documentation disagree the code is modelled:

* `cpp/serve/radix_tree.cc:150` gives the page length as below the capacity; a page can be full.
* `cpp/serve/request_state.h:113-116` says that adding and removing draft tokens updates the
  counts of appeared tokens; the code does not touch them.
* `cpp/serve/prefix_cache.cc:231-249` evicts the first entry of an unordered map, so any recycling
  sequence may go, not the one unused for longest.

Some promises hold only under a condition, which is proved to be exact:

* A partial rollback of a sequence keeps path compression unless it leaves a page to merge: an
  empty leaf that pairs with its parent, or the lowest page it keeps with its last child
  (`RadixRollback`; read off the tree before the call).
* Cutting a prompt is harmless exactly if every chunk with data behind it fits (`MropeChunks`).
* Committed tokens can be rolled back exactly if the grammar took them and there are no more than
  ten (`DraftTokens`).
* Grammar matchers come back from a mask update exactly if the grammar takes every draft path and
  none is longer than ten tokens (`MaskRows`).
* An enqueued instruction is executed exactly unless an exit comes while the loop is past taking
  its last batch, `Missed`; a reload or unload can return exactly unless its instruction is left
  behind in this way or will be pushed too late, `Lost` (`ThreadedProgress`).
* Where no thread can go on, all callers have returned exactly if no reload or unload is left to
  execute (`ThreadedEngine`).
* Bytes that parse print back exactly if they are the shortest form and within range (`Utf8`).
* A total length given by the user keeps the estimate within the budget exactly if it is within
  the room left for the cache (`MemoryBudget`).
* An escaped text reads back exactly unless an `\x` escape stands before a hexadecimal digit
  (`Escapes`).
* An image is not resized to nothing exactly if shrinking leaves room for one factor of each side
  (`ImageResize`).

## Model

| member | source | states |
|---|---|---|
| `RadixPages.AddIdKeeps` | cpp/serve/radix_tree.cc:185 | Listing a sequence at a page keeps every tree invariant and binds exactly that sequence to the text the page spells |
| `RadixPages.ListedFirst` | cpp/serve/radix_tree.cc:185 | The new sequence is listed in front of the others |
| `RadixPages.WithoutMeaning` | cpp/serve/radix_tree.cc:193-216 | Unlinking an id from a page's list removes that id and no other, and leaves no repeats |
| `RadixPages.PopIdKeeps` | cpp/serve/radix_tree.cc:193-216 | Unlisting a sequence keeps every invariant and unbinds exactly that sequence |
| `RadixSteps.GraftKeeps` | cpp/serve/radix_tree.cc:297-301 | Hanging a new page below another keeps nesting, sibling links, labels and index, and no sequence changes its tokens |
| `RadixSteps.PruneKeeps` | cpp/serve/radix_tree.cc:307-314 | Unlinking an unused leaf keeps every invariant and all sequences |
| `RadixSteps.DivideKeeps` | cpp/serve/radix_tree.cc:743-761 | Moving the tail of a page and its sequences to a new child keeps every invariant and all sequences |
| `RadixSteps.FuseKeeps` | cpp/serve/radix_tree.cc:717-733 | Absorbing the only child keeps every invariant and all sequences, though they change pages |
| `RadixSearch.MatchersAreUnder` | cpp/serve/radix_tree.cc:514-520 | Where the walk stops, a sequence shares the matched prefix exactly if it ends at or below the page reached |
| `RadixSearch.NothingLonger` | cpp/serve/radix_tree.cc:779-798 | No stored sequence shares more tokens than the walk matched |
| `RadixSearch.SubtreeHoldsSequence` | cpp/serve/radix_tree.cc:246-256 | Below every page hangs a page that holds a sequence, so the answer to a positive match is not empty |
| `RadixSearch.LongestMatch` | cpp/serve/radix_tree.cc:514-520 | The matched length is the maximum common prefix over all stored sequences, and the ids listed are exactly those that attain it |
| `RadixSearch.CollectRest` | cpp/serve/radix_tree.cc:263-267 | Visiting a page, its later siblings and its children lists the ids of the rest of the tree below, each once |
| `RadixCompression.FuseMergeable` | cpp/serve/radix_tree.cc:717-733 | A merge makes no other page mergeable; the merged page only inherits the question from its child |
| `RadixCompression.CompressedMeans` | cpp/serve/radix_tree.cc:325-331 | A tree is compressed exactly if no page below the root without a sequence and with one child has 64 tokens or less together with it; no page has more than 64 |
| `RadixCompression.SplitKeeps` | cpp/serve/radix_tree.cc:743-771 | A split with its two implicit merges keeps every invariant and all sequences |
| `RadixCompression.SplitShape` | cpp/serve/radix_tree.cc:743-771 | Whichever page the split returns ends at the cut, holds no sequence, and has one child that goes on with the next token |
| `RadixCompression.SplitMergeable` | cpp/serve/radix_tree.cc:743-771 | A split leaves no page mergeable that was not, except the page returned, which is about to get a sequence |
| `RadixOperations.ForkInside` | cpp/serve/radix_tree.cc:547-565 | Forking inside a page binds the prefix of the parent and leaves a tree without a mergeable page even if the split page was one |
| `RadixOperations.ExtendInside` | cpp/serve/radix_tree.cc:585-597 | An extension that stops inside a page can go on writing at the cut, and the page it started from still exists |
| `RadixOperations.ExtendDone` | cpp/serve/radix_tree.cc:612-617 | Hanging the extended sequence and re-checking the page it came from completes the extension and path compression |
| `RadixOperations.DropStep` | cpp/serve/radix_tree.cc:676-681 | Dropping an empty leaf moves the question whether a page is empty or mergeable to its parent and changes no sequence |
| `RadixOperations.RemoveDone` | cpp/serve/radix_tree.cc:682-685 | The last merge of a removal restores path compression |
| `RadixOperations.DetachKeeps` | cpp/serve/radix_tree.cc:674-675 | After a sequence is detached only its own page may be empty or mergeable |
| `RadixRollback.CutLeafCompressedIff` | cpp/serve/radix_tree.cc:650-657 | Cutting an unused leaf without merging leaves the tree compressed exactly if the rest does not fit into a parent that has no sequence and no other child |
| `RadixRollback.CutAboveCompressedIff` | cpp/serve/radix_tree.cc:658-664 | A cut above a page the rollback keeps leaves the tree compressed exactly if that page, or the part behind the cut if it absorbs the page, is not left with no sequence and one child that fits |
| `RadixRollback.ClimbEnd` | cpp/serve/radix_tree.cc:639-649 | When the climb reaches the page with the cut, whether a pair will be left is what the tree before the call said, and at most the lowest page kept could be merged |
| `RadixRollback.ClimbCanLeavePair` | cpp/serve/radix_tree.cc:639-664 | There is a sound compressed tree with pages of 64, 10 and 5 tokens where a rollback over a page it keeps leaves that page to be merged |
| `RadixRollback.RollbackCanLeavePair` | cpp/serve/radix_tree.cc:650-657 | There is a sound compressed tree with pages of 40 and 30 tokens where rolling back 10 tokens leaves two pages that would fit into one |
| `RadixTree.PagedRadixTree.constructor` | cpp/serve/radix_tree.cc:471-479 | A new tree is valid, compressed and empty |
| `RadixTree.PagedRadixTree.Allocate` | cpp/serve/radix_tree.cc:369-382 | The page is new to the tree and comes from the pool, which grows by 64 pages when none is free; used and free pages stay a partition of the pool |
| `RadixTree.PagedRadixTree.Free` | cpp/serve/radix_tree.cc:389-394 | The page goes back to the pool; used and free pages stay a partition |
| `RadixTree.PagedRadixTree.IsMergeable` | cpp/serve/radix_tree.cc:325-331 | True exactly if the page holds no sequence, has one child and has room for its text |
| `RadixTree.PagedRadixTree.MatchInPage` | cpp/serve/radix_tree.cc:341-349 | The number of tokens the page and the text share, at most the page length |
| `RadixTree.PagedRadixTree.FindChild` | cpp/serve/radix_tree.cc:287-294 | The one child that starts with the token, or none |
| `RadixTree.PagedRadixTree.MatchSequence` | cpp/serve/radix_tree.cc:779-798 | The walk stops at the first mismatch of the text with the tree |
| `RadixTree.PagedRadixTree.MergePage` | cpp/serve/radix_tree.cc:717-733 | The in-place merge with its two loops does exactly the absorbing step on all fields |
| `RadixTree.PagedRadixTree.SplitPage` | cpp/serve/radix_tree.cc:743-771 | The in-place split does exactly the dividing step and the two merges, and returns the page that ends at the cut |
| `RadixTree.PagedRadixTree.RemoveChild` | cpp/serve/radix_tree.cc:274-281 | The child is unlinked from the sibling chain at its place, the rest of the chain stays |
| `RadixTree.PagedRadixTree.HasSequence` | cpp/serve/radix_tree.cc:487 | True exactly for stored sequences |
| `RadixTree.PagedRadixTree.GetSequence` | cpp/serve/radix_tree.cc:495-507 | The tokens of the sequence, in order, for stored sequences; failure otherwise |
| `RadixTree.PagedRadixTree.GetSequenceLength` | cpp/serve/radix_tree.cc:528-535 | The number of tokens of the sequence |
| `RadixTree.PagedRadixTree.AddSequence` | cpp/serve/radix_tree.cc:572-577 | Binds a new id to the empty text, refuses a known id, changes no other sequence, keeps compression |
| `RadixTree.PagedRadixTree.ForkSequence` | cpp/serve/radix_tree.cc:547-565 | Binds a new id to the prefix of the parent at the offset; refused for a known id, an unknown parent, or an offset outside 1 to the length; keeps compression |
| `RadixTree.PagedRadixTree.ExtendSequence` | cpp/serve/radix_tree.cc:585-617 | Appends the tokens to exactly this sequence, over any number of new pages, and keeps compression |
| `RadixTree.PagedRadixTree.RollBackSequence` | cpp/serve/radix_tree.cc:625-665 | Drops exactly the last tokens of this sequence; compression is kept exactly unless the tree before the call shows that a pair is left, whether the rollback ends in the last page or climbs |
| `RadixTree.PagedRadixTree.RemoveSequence` | cpp/serve/radix_tree.cc:672-686 | Unbinds exactly this sequence and keeps compression |
| `RadixTree.PagedRadixTree.Iterate` | cpp/serve/radix_tree.cc:263-267 | The traversal ends and lists the ids of the page, its later siblings and everything below, each once |
| `RadixTree.PagedRadixTree.FindAllChildSequence` | cpp/serve/radix_tree.cc:246-256 | Lists the ids at and below a page, each once |
| `RadixTree.PagedRadixTree.MatchPrefix` | cpp/serve/radix_tree.cc:514-520 | Written out: no stored sequence shares more than the matched tokens with the text, and if there are any the ids are exactly the sequences that share them, each once and at least one |
| `RadixTree.PagedRadixTree.FreeCapacity` | cpp/serve/radix_tree.cc:692 | 64 tokens for each free page, and the free pages are the pool less the pages in use |
| `PrefixCacheSpec.StepInv` | cpp/serve/prefix_cache.cc:51-282 | Every operation keeps: tree ids, state ids and window ids agree, the two time-stamp maps are mutually inverse with exactly the recycling ids, the bound on recycling sequences holds, pending ids are active |
| `PrefixCacheSpec.RunInv` | cpp/serve/prefix_cache.cc:51-282 | The invariant holds in every state of every run |
| `PrefixCacheSpec.RunConserves` | cpp/serve/prefix_cache.cc:197-249 | Over every run the ids that were there plus those added equal, with multiplicity, the ids that are there plus those reported to the remove callback |
| `PrefixCacheSpec.LazyRefinesEager` | cpp/serve/prefix_cache.cc:156-187 | Seen through its log, every step of the lazy cache is a step of a cache that extends at once, including evictions that do not commit |
| `PrefixCacheSpec.RunRefinesEager` | cpp/serve/prefix_cache.cc:156-187 | Every run of the lazy cache is a run of the eager one |
| `PrefixCacheSpec.CommittedWithout` | cpp/serve/prefix_cache.cc:231-249 | Removing a sequence without a pending extension commutes with committing the log |
| `PrefixCacheSpec.LongestUnique` | cpp/serve/prefix_cache.cc:59-60 | There is only one longest match |
| `PrefixCacheSpec.InsertPromise` | cpp/serve/prefix_cache.cc:51-148 | The offset is zero or the longest match over all but the last token; the sequence to continue with holds exactly that prefix; a reuse pops the old length less the offset; a fork has no window and, if forks must be at the tail, takes the whole parent |
| `PrefixCacheMeaning.InsertExactly` | cpp/serve/prefix_cache.cc:60-147 | Given the longest match: a stored sequence is reused exactly if some recycling one with the same window is worth it, else one is forked exactly if one without a window can be, and the prefilled offset is then the whole match, else zero; of the candidates for reuse a shortest is taken |
| `PrefixCacheMeaning.InsertUnmatched` | cpp/serve/prefix_cache.cc:60-71 | If nothing stored starts like the text an empty sequence is added |
| `PrefixCacheMeaning.InsertLeaves` | cpp/serve/prefix_cache.cc:60-147 | The whole state after an insertion: the new or reused sequence is active with its window and the prefilled tokens, everything else is as it was |
| `PrefixCacheMeaning.CommittedMeans` | cpp/serve/prefix_cache.cc:156-175 | After a commit every sequence ends with what was appended to it, in order |
| `PrefixCacheMeaning.ExtendWaits` | cpp/serve/prefix_cache.cc:156-175 | An extension changes no tokens before the commit and exactly its own sequence then |
| `PrefixCacheMeaning.RecycleKeeps` | cpp/serve/prefix_cache.cc:197-229 | Active sequences and no others can be recycled: lazily, with room for some, the sequence stays with tokens and window, otherwise it is removed and reported |
| `PrefixCacheMeaning.RecycleEvicts` | cpp/serve/prefix_cache.cc:203-213 | Recycling into a full cache removes and reports exactly one sequence that was recycling before, and none otherwise |
| `PrefixCacheMeaning.RollBackDrops` | cpp/serve/prefix_cache.cc:183-187 | A rollback drops exactly the last tokens of an active sequence that has so many, and changes nothing else |
| `PrefixCacheMeaning.FreeRemoves` | cpp/serve/prefix_cache.cc:231-249 | Memory is freed exactly if some sequence is recycling, by removing and reporting one of these |
| `PrefixCache.RadixPrefixCache.InsertSequence` | cpp/serve/prefix_cache.cc:51-148 | One step of the machine: reuse, fork or add as the matches allow, or refusal with nothing changed |
| `PrefixCache.RadixPrefixCache.FindExact` | cpp/serve/prefix_cache.cc:75-86 | Finds a recycling match with the same window and exactly the matched length, if there is one |
| `PrefixCache.RadixPrefixCache.FindShortest` | cpp/serve/prefix_cache.cc:88-103 | Finds a shortest recycling match without window, if there is one |
| `PrefixCache.RadixPrefixCache.FindFork` | cpp/serve/prefix_cache.cc:115-135 | Finds a match that may be forked, if there is one |
| `PrefixCache.RadixPrefixCache.ExtendSequence` | cpp/serve/prefix_cache.cc:156-158 | Only appends to the log |
| `PrefixCache.RadixPrefixCache.CommitSequenceExtention` | cpp/serve/prefix_cache.cc:160-173 | Makes all pending extensions in order |
| `PrefixCache.RadixPrefixCache.RollBackSequence` | cpp/serve/prefix_cache.cc:183-190 | Commits, then drops the last tokens of an active sequence |
| `PrefixCache.RadixPrefixCache.RecycleSequence` | cpp/serve/prefix_cache.cc:197-224 | Stamps the sequence as recycling, evicting some recycling sequence if full, or removes it at once |
| `PrefixCache.RadixPrefixCache.TryFreeMemory` | cpp/serve/prefix_cache.cc:231-249 | Evicts some recycling sequence if there is one, without committing |
| `PrefixCache.RadixPrefixCache.ReuseRecyclingSequence` | cpp/serve/prefix_cache.cc:275-282 | Makes a recycling sequence active and drops both its stamps |
| `PrefixCache.RadixPrefixCache.constructor` | cpp/serve/prefix_cache.cc:29-40 | The cache starts empty with the given bound |
| `ThreadedEngine.StepInv` | cpp/serve/threaded_engine.cc:109-188 | Every step of any thread keeps mutual exclusion, the order of instructions, the pending count, the owed wakeups and the reload handshake |
| `ThreadedEngine.RunInv` | cpp/serve/threaded_engine.cc:109-188 | The invariant holds in every reachable state, for any number of threads |
| `ThreadedEngine.ExecutedInOrder` | cpp/serve/threaded_engine.cc:135-188 | Executed, taken and queued instructions together are always exactly those enqueued, in that order, and the pending count is the queue length whenever the mutex is free |
| `ThreadedEngine.NoLostWakeup` | cpp/serve/threaded_engine.cc:109-152 | The loop never sleeps on an engine with something left to do; when it sleeps although an instruction is counted or an exit was asked for, it is already signalled or some thread signals it after finitely many of its own steps |
| `ThreadedEngine.OwedIsPaid` | cpp/serve/threaded_engine.cc:109-133 | A thread that owes a wakeup delivers it within the steps left to its notify |
| `ThreadedEngine.ReplyMeansDone` | cpp/serve/threaded_engine.cc:51-94 | When Reload or Unload returns, its own instruction and all earlier ones have been executed |
| `ThreadedEngine.NoDeadlock` | cpp/serve/threaded_engine.cc:51-188 | Before an exit nothing is stuck but an idle engine: if no thread can go on, the loop sleeps, the engine has nothing left to do, all instructions are executed and no caller waits |
| `ThreadedEngine.StuckIff` | cpp/serve/threaded_engine.cc:51-188 | In a state where no thread can go on, with or without an exit, all callers have returned exactly if no reload or unload is left to execute |
| `ThreadedEngine.StuckState` | cpp/serve/threaded_engine.cc:51-188 | There the mutex is free, the loop sleeps or has ended, and a caller that has not returned is thread 0, waiting for its own unexecuted instruction |
| `ThreadedEngine.StuckAfterExit` | cpp/serve/threaded_engine.cc:135-188 | After an exit the loop has ended where no thread can go on; all other threads have returned, and thread 0 has exactly if no reload or unload was left behind |
| `ThreadedEngine.StrandedReply` | cpp/serve/threaded_engine.cc:51-94 | A run in which a reload called after an exit is never executed and its caller waits for ever |
| `ThreadedProgress.EnqueuedIsExecuted` | cpp/serve/threaded_engine.cc:135-188 | Over every run: four steps of the loop for each instruction up to this one and fourteen more are enough to execute it, exactly unless an exit came too early for it; before an exit it always is, and after one it shows at once whether it will be |
| `ThreadedProgress.StepAdvances` | cpp/serve/threaded_engine.cc:135-188 | Every step of the loop brings a pending instruction closer, and no step of another thread sets it back |
| `ThreadedProgress.LoopUnblocked` | cpp/serve/threaded_engine.cc:109-152 | While an instruction is queued the loop can go on, or can after at most four steps of one thread that nothing blocks |
| `ThreadedProgress.EngineStepsAgain` | cpp/serve/threaded_engine.cc:142-187 | While the engine has something left to do and there is no exit, it is stepped again within ten steps of the loop and four for each instruction executed on the way |
| `ThreadedProgress.BusyUnblocked` | cpp/serve/threaded_engine.cc:142-152 | Then the loop can go on, or can after at most four steps of the thread that holds the mutex |
| `ThreadedProgress.BusyChanges` | cpp/serve/threaded_engine.cc:153-187 | What the engine has left to do changes only when an instruction is executed, for a reload's unload, or in its own step |
| `ThreadedProgress.FlagsGoUp` | cpp/serve/threaded_engine.cc:167-171 | A reload unloads and says so before it loads; the flags go up with the unload and the reload |
| `ThreadedProgress.SignalIff` | cpp/serve/threaded_engine.cc:109-133 | A sleeping loop is signalled exactly by the notification of an exit or of a call that read the waiting flag while it was up |
| `ThreadedProgress.CallReturnsServed` | cpp/serve/threaded_engine.cc:51-94 | Over every run: a reload or unload comes back only when an instruction of its kind, enqueued after the call began, has been executed |
| `ThreadedProgress.OtherCallReturns` | cpp/serve/threaded_engine.cc:96-133 | Every other call comes back by itself within six steps once the mutex is free, with its instruction enqueued and counted |
| `ThreadedProgress.MissedIff` | cpp/serve/threaded_engine.cc:135-188 | An enqueued instruction is left behind by the exit, as the state shows, exactly if no continuation executes it |
| `ThreadedProgress.NeverExecuted` | cpp/serve/threaded_engine.cc:135-188 | An instruction left behind is never executed in any run |
| `ThreadedProgress.LostForever` | cpp/serve/threaded_engine.cc:51-94 | A reload or unload that is lost, as the state shows, returns in no run |
| `ThreadedProgress.ReturnsIff` | cpp/serve/threaded_engine.cc:51-94 | A reload or unload of thread 0 can still return, without a wakeup for no reason, exactly if it is not lost |
| `ThreadedProgress.LostWhenDone` | cpp/serve/threaded_engine.cc:135-188 | Once the loop has ended, a pending call is lost exactly if its flag is not set |
| `MultiGpuLoader.LoadScript` | cpp/multi_gpu/multi_gpu_loader.cc:178-236 | The loops of a worker issue exactly its part of the rendezvous of the job, in order |
| `MultiGpuLoader.StageLoop` | cpp/multi_gpu/multi_gpu_loader.cc:189-203 | Worker 0 collects for group 0 and sends to the first worker of every other group |
| `MultiGpuLoader.ParamScript` | cpp/multi_gpu/multi_gpu_loader.cc:212-234 | Another worker's calls for one parameter are its part of that parameter's rendezvous |
| `MultiGpuRun.MoveInv` | cpp/multi_gpu/multi_gpu_loader.cc:178-236 | Every meeting keeps: remaining scripts match what is ahead, the takers of a rendezvous agree on whether it has happened, tensors in hand and pieces held are those due |
| `MultiGpuRun.RunInv` | cpp/multi_gpu/multi_gpu_loader.cc:178-236 | The invariant holds in every reachable state |
| `MultiGpuRun.MeetingsMatch` | cpp/multi_gpu/multi_gpu_loader.cc:101-141 | In every meeting all workers mean the same parameter |
| `MultiGpuRun.RightTensor` | cpp/multi_gpu/multi_gpu_loader.cc:212-228 | What the first worker of a group puts into a collective is the tensor of the parameter collected |
| `MultiGpuRun.NoDeadlock` | cpp/multi_gpu/multi_gpu_loader.cc:178-236 | While any worker has calls left, some meeting can happen |
| `MultiGpuRun.RunBounded` | cpp/multi_gpu/multi_gpu_loader.cc:178-236 | No run is longer than all scripts together |
| `MultiGpuRun.LoadedExactly` | cpp/multi_gpu/multi_gpu_loader.cc:110-141 | A finished worker holds exactly the parameters of the files whose stages contain its group: its own shard of one with preprocessing, any other one whole |
| `MultiGpuRun.GroupShares` | cpp/multi_gpu/multi_gpu_loader.cc:110-141 | Two finished workers of a group hold the same parameters: different shards of one with preprocessing, the same of any other |
| `MultiGpuRun.Reorder` | cpp/multi_gpu/multi_gpu_loader.cc:240-246 | The result has one entry per parameter in metadata order: the own shard, the whole parameter, or none where the group does not need it |
| `MropePositions.InferredExactly` | cpp/serve/model.cc:1587-1597 | The derived merge factor is m exactly if m by m grid cells make one embedding |
| `MropePositions.CellsAreEmbeddings` | cpp/serve/model.cc:1636-1642 | Once the earlier checks pass, the length check cannot fail |
| `MropePositions.HighestOfData` | cpp/serve/model.cc:1626-1662 | The largest position of one piece of data in closed form |
| `MropePositions.SettledIffFits` | cpp/serve/model.cc:1626-1666 | A prompt ends with its base right behind its largest position exactly if no image has more frames than the base moves from it on |
| `MropePositions.FlatFits` | cpp/serve/model.cc:1654 | It does if no image has more frames than its larger merged side |
| `MropeMeaning.AcceptedIff` | cpp/serve/model.cc:1587-1642 | An image with a full grid is taken exactly if some factor divides both sides and makes the grid as many cells as embeddings |
| `MropeMeaning.TextAt` | cpp/serve/model.cc:1655-1661 | A text, or an image without a full grid, gives its tokens consecutive positions, the same on every axis |
| `MropeMeaning.CellAt` | cpp/serve/model.cc:1643-1653 | The token for a cell of the merged grid has the frame, the row and the column of the cell on the three axes |
| `MropeMeaning.NextStarts` | cpp/serve/model.cc:1654-1662 | The next piece starts behind a text, and behind the larger merged side of an image |
| `MropeMeaning.FedMeansLargest` | cpp/serve/model.cc:1666 | Consumed length and delta together are right behind the largest position on any axis, which some token has |
| `MropeChunks.ChunkedIsOneShotIff` | cpp/serve/model.cc:1599-1670 | For any number of chunks: fed one by one they get the positions of a single call exactly if every chunk with data behind it fits, and then the same delta and length |
| `MropeChunks.CutIsHarmlessIff` | cpp/serve/model.cc:1611-1666 | Cutting once before a non-empty rest keeps all positions exactly if the part before the cut fits |
| `MropeChunks.TallImageMoves` | cpp/serve/model.cc:1643-1666 | An image of two frames and one cell, cut before a token: the token gets another position |
| `MropeChunks.CutsAgreeIff` | cpp/serve/model.cc:1599-1670 | Two ways to cut one prompt, between pieces or inside token data: if the cuts of one fit, the other gives the same positions exactly if its cuts fit, and then the same memory |
| `MropeChunks.DeltaNeverPositive` | cpp/serve/model.cc:1666 | The delta is never positive, whatever the images |
| `MropeBatches.ServedOne` | cpp/serve/model.cc:472-591 | On each of the three paths a sequence of a batch gets the positions and the memory of a single call on its own data |
| `MropeBatches.ServedOther` | cpp/serve/model.cc:1709-1725 | A batch changes nothing for the other sequences |
| `MropeBatches.RunIsOneShotIff` | cpp/serve/model.cc:472-591 | Over every run of batches a sequence gets the positions of one call on all its data exactly if its chunks with data behind them fit, and then the same delta |
| `MropeBatches.RunsAgreeIff` | cpp/serve/model.cc:472-591 | Of two runs that cut and batch one prompt differently, the first with fitting cuts, the second gives the same positions exactly if its cuts fit, and then the same delta and length |
| `MropeBatches.RunDeltas` | cpp/serve/model.cc:472-591 | No run makes a delta positive |
| `MropeModel.PutGrid` | cpp/serve/model.cc:1643-1653 | The three loops write one column per cell, frame by frame, row by row, and track the largest position |
| `MropeModel.PutSequence` | cpp/serve/model.cc:1611-1666 | The positions of all data of a sequence, or refusal exactly if an image fails a check or the lengths differ |
| `MropeModel.StaysInsideIff` | cpp/serve/model.cc:1632-1665 | The writes for a sequence stay inside its part of the tensor exactly if the pieces before the first bad one are no longer than declared |
| `MropeModel.Model.BuildTensors` | cpp/serve/model.cc:1599-1670 | The tensor holds the positions of all sequences in order and zeros behind them, with the right deltas |
| `MropeModel.Model.BuildContinuation` | cpp/serve/model.cc:1672-1707 | The tensor holds the consumed index shifted by the delta, and the deltas stay |
| `MropeModel.Model.StoreMropeDeltas` | cpp/serve/model.cc:1709-1718 | Stores every delta and notes a length for new sequences |
| `MropeModel.Model.AdvancePrefilledLengths` | cpp/serve/model.cc:1720-1725 | Adds every length |
| `MropeModel.Model.ContainsImageGrid` | cpp/serve/model.cc:1574-1585 | True exactly if some piece is an image with a full grid |
| `MropeModel.Model.HasMropeDelta` | cpp/serve/model.cc:1727-1737 | True exactly if some sequence of the batch has a delta |
| `MropeModel.Model.BatchPrefillWithMrope` | cpp/serve/model.cc:472-591 | Refused batches change nothing; otherwise the store moves on, the tensor shows the positions axis by axis with zeros behind, every consumed length grows by its own length, and the deltas handed out are those in the store |
| `MropeModel.DeltasServed` | cpp/serve/model.cc:1697 | On both tensor paths the deltas handed out are those stored after the batch |
| `MropeModel.EntryPlaced` | cpp/serve/model.cc:1599-1670 | The tokens of every sequence stand one after the other at its place in the batch |
| `MropeModel.RefusedIff` | cpp/serve/model.cc:472-500 | A batch with one entry per sequence is refused exactly if it is empty, or has an image and some entry that does not match |
| `MropeModel.PaddedIs` | cpp/serve/model.cc:496-500 | The padded length is the next multiple of the factor |
| `MropeReference.PositionIds` | run_im.py:291-321 | The three loops of the helper fill its array with prefix, image and rest, and the delta comes from its maximum; an empty array is an error |
| `MropeReference.ModelAgrees` | run_im.py:291-321 | For every even grid the model on an empty memory and the helper give the same positions on all axes and the same delta |
| `MropeReference.FirstPrefillAgrees` | cpp/serve/model.cc:472-591 | So does the model's first prefill of that prompt as a batch |
| `DraftTokens.Request.CommitToken` | cpp/serve/request_state.cc:56-68 | The token is committed and counted; a token the grammar refuses is reported but stays |
| `DraftTokens.Request.RollbackTokens` | cpp/serve/request_state.cc:70-83 | Drops exactly the last tokens, their counts and their grammar state; too many is refused with nothing changed, and a matcher that cannot give back so many stops it with one more token gone from the request |
| `DraftTokens.Request.AddDraftToken` | cpp/serve/request_state.cc:85-96 | The draft stays a tree whose parents come earlier and whose first-child links are right |
| `DraftTokens.Request.RemoveAllDraftTokens` | cpp/serve/request_state.cc:98-113 | The draft is empty and every slot comes back once, in order of first use |
| `DraftTokens.DeduplicatedFacts` | cpp/serve/request_state.cc:100-108 | The slots returned are the same set without repeats |
| `DraftTokens.DeduplicatedOrder` | cpp/serve/request_state.cc:100-108 | They come in the order in which they first occur |
| `DraftTokens.CommitThenRollback` | cpp/serve/request_state.cc:20-83 | Committing n tokens and rolling n back succeeds exactly if the grammar takes them all and, with a grammar, there are no more than ten; it then restores tokens, counts, draft and the tokens of the matcher, which can give back less than before, but not the count for the next decode |
| `DraftTokens.PushAllFacts` | cpp/serve/request_state.cc:31-33 | A matcher can give back the tokens it took, but no more than ten in all |
| `DraftTokens.AddKeepsTree` | cpp/serve/request_state.cc:85-96 | Adding below an earlier token keeps the tree |
| `DraftTokens.PathsAfterAdd` | cpp/serve/request_state.cc:85-96 | A new draft token changes no earlier path |
| `DraftTokens.CountsRestored` | cpp/serve/logit_processor.cc:422-436 | Adding a path to the counts and taking it off again gives back the same map |
| `DraftTokens.CountsWithPath` | cpp/serve/logit_processor.cc:422-425 | Counts plus a path are the counts of the committed tokens followed by the path |
| `TokenLayout.WalkDraft` | cpp/serve/logit_processor.cc:413-421 | The parent walk ends and yields the path to the root |
| `PenaltyRows.RowCounts` | cpp/serve/logit_processor.cc:411-431 | A row lists the counts of the committed tokens together with the draft path |
| `PenaltyRows.RowsFit` | cpp/serve/logit_processor.cc:384-394 | All rows together need at most the number of rows times the vocabulary |
| `LogitProcessor.Processor.PutRow` | cpp/serve/logit_processor.cc:422-436 | One row lists every counted token once with its count, and the request's counts are restored |
| `LogitProcessor.Processor.UpdateWithPenalty` | cpp/serve/logit_processor.cc:377-444 | Fails exactly if a check does for a request with some penalty; otherwise the arrays show, in ascending order of position, one row for every token of every such request and nothing else, with its three penalties and its counts; the counts of the requests are restored either way |
| `PenaltyMeaning.CountsAdd` | cpp/serve/logit_processor.cc:422-425 | A token counts as often as before plus as often as it occurs on the path |
| `PenaltyMeaning.RowsAreRight` | cpp/serve/logit_processor.cc:396-441 | The rows are ascending, one for each token of each request whose penalties are not 0, 0 and 1, and no others |
| `PenaltyMeaning.EntriesAreRight` | cpp/serve/logit_processor.cc:426-431 | Every entry is a token of its row with its count, and every counted token of a row has exactly one |
| `TokenLayout.BatchShape` | cpp/serve/logit_processor.cc:402-404 | Where the tokens of a request start and how many there are |
| `MaskRows.RestoredIff` | cpp/serve/logit_processor.cc:506-531 | Advancing a matcher by a path and rolling back as many tokens brings it back exactly if the grammar takes every token of the path and the path is no longer than ten |
| `MaskRows.AskMask` | cpp/serve/logit_processor.cc:515-531 | The mask is asked for behind the tokens taken; the matcher then gives up as many tokens as the path has, or the call fails exactly if it cannot |
| `MaskRows.MarkedFacts` | cpp/serve/logit_processor.cc:536-542 | The compacted list is ascending and holds exactly the flagged positions |
| `MaskRows.Compact` | cpp/serve/logit_processor.cc:536-542 | The in-place compaction puts exactly the flagged positions in front and leaves the rest of the array |
| `MaskRows.UpdateWithMask` | cpp/serve/logit_processor.cc:479-547 | For a batch that passes the checks: success with all matchers back at their tokens exactly if every draft path is no longer than ten and its grammar takes it token by token from the root; then the masked positions are exactly those of the tokens with a grammar, ascending, each with the mask behind tokens and path |
| `MaskRows.MasksLie` | cpp/serve/logit_processor.cc:494-531 | The mask of every token lies at its position |
| `DraftSlots.Manager.constructor` | cpp/serve/draft_token_workspace_manager.cc:16-29 | All slots are free |
| `DraftSlots.Manager.AllocSlots` | cpp/serve/draft_token_workspace_manager.cc:31-38 | Hands out the last free slots with one reference each; refused exactly if there are too few |
| `DraftSlots.Manager.AllocCounted` | cpp/serve/draft_token_workspace_manager.cc:40-52 | Hands out slots with the given references; a count that is not positive stops it half-way |
| `DraftSlots.Manager.FreeSlots` | cpp/serve/draft_token_workspace_manager.cc:54-61 | Drops one reference per entry and fails at the first slot without one |
| `DraftSlots.AllocKeeps` | cpp/serve/draft_token_workspace_manager.cc:31-52 | Allocation gives free slots only, each once, and loses none |
| `DraftSlots.AllocOrder` | cpp/serve/draft_token_workspace_manager.cc:31-38 | Slots are handed out from the end of the free list |
| `DraftSlots.ReleaseOrder` | cpp/serve/draft_token_workspace_manager.cc:54-61 | Slots held once come back to the end of the free list in the order given |
| `DraftSlots.BrokenLoses` | cpp/serve/draft_token_workspace_manager.cc:47-51 | An allocation stopped by a count that is not positive always loses a slot |
| `DraftSlots.ReleasableIff` | cpp/serve/draft_token_workspace_manager.cc:54-61 | A list can be freed exactly if it names no slot more often than it is counted |
| `DraftSlots.FreedExactly` | cpp/serve/draft_token_workspace_manager.cc:54-61 | Exactly the slots named as often as they were counted become free |
| `DraftSlots.RunConserves` | cpp/serve/draft_token_workspace_manager.cc:31-61 | Over every run a slot's count is what was given less what was dropped, and it is free exactly when that is zero |
| `DraftSlots.NeverTwice` | cpp/serve/draft_token_workspace_manager.cc:31-61 | No allocation hands out a slot somebody still holds |
| `Utf8.ParseNext` | cpp/support/encoding.cc:108-131 | The loop over continuation bytes computes the next code point of the given policy |
| `Utf8.ParseAll` | cpp/support/encoding.cc:133-144 | All code points up to the terminator or a single error; ends on all bytes |
| `Utf8.NextMoves` | cpp/support/encoding.cc:108-131 | Parsing never passes the terminator; it always moves on in return-byte mode, and stays exactly on an error in the other |
| `Utf8.NextOfEncoded` | cpp/support/encoding.cc:14-37 | A printed code point parses back and parsing stops right behind it, whatever follows, under both policies |
| `Utf8.RoundTrip` | cpp/support/encoding.cc:133-144 | Decoding the concatenated encodings gives the list up to its first 0, so the whole list exactly if it has no 0 |
| `Utf8.NextIsSpread` | cpp/support/encoding.cc:108-131 | The bytes consumed are exactly those of the code point at that length |
| `Utf8.PrintsBackIff` | cpp/support/encoding.cc:14-37 | A parsed sequence prints back to its bytes exactly if they do not begin with C0 or C1, with E0 before a byte below A0, with F0 before one below 90, or beyond F4 8F |
| `Utf8.NextByPolicy` | cpp/support/encoding.cc:108-131 | Well-formed bytes give the same code point under both policies; otherwise one reports the error where it is and the other gives the byte |
| `Utf8.AllByPolicy` | cpp/support/encoding.cc:133-144 | The policy that reports errors gives the single error exactly if the bytes break somewhere, and else what the other gives |
| `Utf8.TextPrintsBack` | cpp/support/encoding.cc:133-144 | Printing what was parsed from shortest forms in range gives back the bytes before the terminator |
| `Utf8.EncodedExamples` | cpp/support/encoding.cc:14-37 | The bytes of one code point of each length, as in section 7 of RFC 3629 |
| `Escapes.ParseNextOrEscaped` | cpp/support/encoding.cc:158-208 | The reader with its digit loops computes the next code point or escape |
| `Escapes.ReadsBackIff` | cpp/support/encoding.cc:39-66 | A printed code point reads back exactly unless it was printed with `\x` and another hexadecimal digit follows |
| `Escapes.FixedOfHex` | cpp/support/encoding.cc:59-65 | Reading as many hexadecimal digits as were printed gives the number back |
| `Escapes.LetterTable` | cpp/support/encoding.cc:42-45 | Which code points have a letter and which one, the same in printing and reading |
| `Escapes.PrintedExamples` | cpp/support/encoding.cc:47-66 | Code points printed as themselves, with a letter, and with two and four digits |
| `Escapes.LongExample` | cpp/support/encoding.cc:59-65 | One printed with eight digits |
| `Escapes.DigitTable` | cpp/support/encoding.cc:146-156 | The value of hexadecimal digits of either case, and what is none |
| `Escapes.ExtraReadsBack` | cpp/support/encoding.cc:47-49 | An extra escape goes before all others in printing and in reading |
| `Escapes.InvalidIff` | cpp/support/encoding.cc:168-206 | Reading at a backslash fails, without moving, exactly if no letter and no complete `\x`, `\u` or `\U` follows |
| `Escapes.PlainReads` | cpp/support/encoding.cc:164-166 | Elsewhere it reads what parsing gives and reports bytes that are not well formed |
| `Escapes.ReadsAllBackIff` | cpp/support/encoding.cc:158-208 | Reading a whole printed list gives the list back exactly if no code point printed with `\x` stands before a hexadecimal digit |
| `Escapes.PrintAllEscaped` | cpp/support/encoding.cc:70-77 | Any bytes print to printable text, code point by code point, and reading the text gives the code points of the bytes exactly under that condition |
| `ImageResize.RoundsToNearestEven` | cpp/json_ffi/conv_template.cc:19-29 | The result is k times the factor exactly if that multiple is nearest, ties going to the even one |
| `ImageResize.RangeIff` | cpp/json_ffi/conv_template.cc:410-417 | The rounded area decides: above the maximum shrinks, below the minimum grows, else the rounded sides stay |
| `ImageResize.ShrunkIsLargest` | cpp/json_ffi/conv_template.cc:412-415 | A shrunk side is the largest multiple of the factor within the side divided by the root |
| `ImageResize.GrownIsLeast` | cpp/json_ffi/conv_template.cc:416-421 | A grown side is the smallest multiple not below the side times the root |
| `ImageResize.ResizedInRange` | cpp/json_ffi/conv_template.cc:406-421 | Both sides are multiples of the factor; the area is at most the maximum after shrinking, at least the minimum after growing, and within both otherwise |
| `ImageResize.ShrunkPositiveIff` | cpp/json_ffi/conv_template.cc:412-415 | A shrunk side is positive exactly if one factor of it still fits into the pixels left to it |
| `ImageResize.MergeIsConfigured` | cpp/json_ffi/conv_template.cc:398-425 | An image is sized exactly if its sides are positive and at most 200 to 1, and its grid is that of its own height and width; if one factor of each side fits into the pixel range the model accepts it and derives the configured merge factor, otherwise it is empty |
| `ImageResize.BothPositiveIff` | cpp/json_ffi/conv_template.cc:411-421 | Whatever the branch, both sides are positive exactly if shrinking leaves room for one factor of each |
| `ImageResize.SquareVanishes` | cpp/json_ffi/conv_template.cc:411-415 | An image of 100 by 100 pixels and a maximum of 400 is shrunk to nothing |
| `ImageResize.MergeOfGrid` | cpp/serve/model.cc:1587-1597 | A grid of multiples of the merge factor with the derived embedding size passes all checks with that factor |
| `MemoryBudget.GetModelConfigLimits` | cpp/serve/config.cc:570-642 | Every limit is the least over the models; refused exactly if one of them is unusable |
| `MemoryBudget.RuntimeWithinCompiled` | cpp/serve/config.cc:587-626 | Over any number of models runtime limits never exceed the compiled ones |
| `MemoryBudget.SumBytes` | cpp/serve/config.cc:688-717 | The byte totals over all models |
| `MemoryBudget.EstimateMemoryUsage` | cpp/serve/config.cc:653-813 | The estimate and the configuration for one mode |
| `MemoryBudget.RoomIsLargest` | cpp/serve/config.cc:718-757 | The room is the largest token count that fits the budget |
| `MemoryBudget.WithinBudget` | cpp/serve/config.cc:758-784 | In every mode an inferred total length keeps the estimate within the budget |
| `MemoryBudget.NoRoomIff` | cpp/serve/config.cc:718-745 | There is no estimate exactly if not even one token fits |
| `MemoryBudget.TotalIsLargest` | cpp/serve/config.cc:758-777 | An inferred total length is the largest within the budget, the cap of Metal, and what the mode, the single length and the batch allow |
| `MemoryBudget.ChoicesMean` | cpp/serve/config.cc:664-687 | What the user set counts, a single length up to the compiled one; batch, single length and chunk are else the largest the model and the mode allow |
| `MemoryBudget.EstimateAdds` | cpp/serve/config.cc:752-756 | What total, cache and temporary bytes are made of |
| `MemoryBudget.WithinEffective` | cpp/serve/config.cc:583-592 | A runtime setting counts up to the compiled one, and -1 sets no limit |
| `MemoryBudget.SmallModelBytes` | cpp/serve/config.cc:688-717 | The bytes of two small models in numbers |
| `MemoryBudget.UserTotalFitsIff` | cpp/serve/config.cc:758-784 | In every mode, on Metal or not, a total length from the user keeps the estimate within the budget exactly if it is within the room, not capped |
| `MemoryBudget.ServerTakesAll` | cpp/serve/config.cc:771-777 | Without another limit one more token would not fit |
| `MemoryBudget.PartsAndChunk` | cpp/serve/config.cc:785-813 | The parts of the estimate add up, and an inferred chunk in local or interactive mode is within the total length |

## Left out

- Radix pages are pool indices and each page field is a map from page to value, so aliasing of page objects in memory, the raw memory layout and `kDataOffset` are not captured. The start offset of the circular buffer is always 0 in the code and is not modelled. Sequence-id nodes are lists; their own pool is not modelled.
- Sequence ids are integers and not cut to 32 bits (`cpp/serve/radix_tree.cc:463`), tokens likewise; ids in the prefix cache are not negative, because -1 stands for none.
- `Reset` of the pools, the tree and the cache (`cpp/serve/radix_tree.cc:77-85,405-415,694-701`): the pools only reserve the free list and then write through indices, so page conservation does not extend over it.
- RadixTree.PagedRadixTree.RemoveSequence: requires a stored sequence, because the source dereferences a null page for an unknown one.
- PrefixCacheSpec.InsertPromise: the flag against forks inside a sequence does not restrict reuse with rollback, as in the source. The test against nine tenths is exact, not in floating point.
- PrefixCacheSpec.LazyRefinesEager: assumes, as the source does, that a sequence is extended only while active and that the tokens handed over are not changed before the commit.
- `NoPrefixCache` (`cpp/serve/prefix_cache.cc:356-440`) and tracing.
- ThreadedEngine.NoLostWakeup: the stream-back loop is not modelled; its exit flag is set under another mutex (`cpp/serve/threaded_engine.cc:190-231`), so its wakeup on exit is not a property of the code.
- ThreadedProgress.EnqueuedIsExecuted: counts the steps of the loop; that the scheduler lets the loop and the other threads go on is not modelled.
- ThreadedEngine.ReplyMeansDone: for one controlling thread; several concurrent Reload or Unload callers share a condition variable that wakes one waiter. What the engine does with an instruction and checks that fail inside the loop are not modelled. Memory order is sequential.
- MultiGpuRun.NoDeadlock: sends and collectives are rendezvous, all workers have the same metadata, and stages are distinct and in range. Tensor contents, preprocessing, files and the presharded loader are not modelled.
- MropeModel.Model.BatchPrefillWithMrope: a `qwen3_5` model; embeddings, key-value cache and kernels are not modelled. On the plain path the cache is assumed to use the consumed index as position.
- MropeModel.PutSequence: refuses a piece that leaves its part of the tensor before it is written; the code writes first and compares lengths after the last piece. When all writes stay inside is the lemma `StaysInsideIff`.
- MropeBatches.RunIsOneShotIff: prefill only. Decode steps, forks and pops of a sequence (`cpp/serve/model.cc:1257-1308`) are not modelled: a fork copies the delta and a pop keeps it, so positions after cutting inside an image are not promised. Batches name each sequence once.
- MropeReference.PositionIds: the grid entries are natural numbers.
- MropePositions.InferredExactly: grid products do not overflow.
- DraftTokens.Request.RollbackTokens: grammar matchers are xgrammar's, which is not part of this model. A matcher is taken to remember the last ten tokens it took and to forget those it gives back. The field for the next decode is not restored, as in the source.
- MaskRows.UpdateWithMask: how many tokens a matcher can still give back afterwards is stated for one path (`RestoredIff`), not for a batch. A mask is represented by the tokens its matcher had taken; the bit mask itself, device copies and kernels are not modelled. The grammar is an arbitrary predicate on token lists.
- LogitProcessor.Processor.UpdateWithPenalty: penalties are reals; logit bias, softmax and sampling are left out.
- DraftSlots.Manager.AllocCounted: slots lost when a count is not positive stay lost, as in the source; callers pass positive counts.
- Utf8.ParseNext: bits are written as quotients and remainders. Overlong forms, surrogates and code points up to 0x1FFFFF are accepted, as in the source.
- Escapes.ParseNextOrEscaped: numbers do not wrap at 32 bits. The overload for a single raw byte calls itself (`cpp/support/encoding.cc:68`) and is not modelled. Extra escapes are not part of the round trips.
- ImageResize.ResizedInRange: exact reals; the square root of the branch taken is a parameter. The rest of prompt building and the fixed-size branch for other models are left out.
- MemoryBudget.EstimateMemoryUsage: exact reals and unbounded integers; JSON lookup, device memory detection, messages and the recurrent-state variant are left out.
- Generation-config checks, metrics, the mock echo engine, data splitting (`cpp/serve/data.cc:26-63`) and streamers would only add easy members.
