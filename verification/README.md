# libjit, modelled and proved in Dafny

libjit compiles functions while a program runs. This project models the parts of it whose correctness
rests on an argument rather than on a table, and proves those arguments.

- **The code cache.** `RedBlack`, `LookupTrees` and `LookupQueries` hold the one-pass top-down red-black
  tree of code regions and everything that looks things up in it. `DebugMap`, `DebugStream` and
  `DebugQueries` hold the compressed map between bytecode offsets and native code and the lookups in it.
  `CodeCache` is the page allocator whose pages fill from both ends, with its start/emit/end protocol and
  sticky overflow. `CompileLoop` is the restart loop that compiles one method, and `CompileRuns` is about
  any sequence of compilations and of requests for redirectors and closures.
- **The block optimiser.** `Instructions` gives blocks a meaning over arbitrary operations.
  `ForwardPropagation`, `Liveness` and `BackwardPropagation` are the three passes, `BlockOptimiser` is the
  pipeline, and `Branches` is branch threading and removal over a whole function.
- **Liveness across blocks.** `LocalLiveness`, `DepthFirst` and `GlobalLiveness`.
- **Protocols and encoders.** `OnDemand` (compiling at the first call, by any number of threads),
  `Unwinding` (exceptions by setjmp and longjmp), `Metadata` (pool items and their destructors),
  `MetadataRuns` (all metadata of a function, over its whole life), `ArmImmediates` (immediates in ARM
  code) and `ParamSlots` (x86-64 parameters).
- `Wrappers`, `Arithmetic` and `Sequences` hold what several of them share.

Code that changes things in place is modelled by classes and methods over the same fields, arrays and
links as in the C source, and each method is proved against functions on values. The theorems are about
those functions. Addresses are integers, and memory is a map from addresses to bytes.

## What does not hold

Where the code misses what it is for, the model keeps the code, a lemma gives the failing case, and
another one says when the property does hold.

- *Backward propagation miscompiles.* The test for a NOP looks at the copy instead of the instruction
  scanned (jit/jit-live.c:456), and the test of the second operand compares the first one
  (jit/jit-live.c:499). A rewriting is faithful in all runs if and only if neither slip strikes it, or what
  it changes copies a value to itself (`BackwardPropagation.FaithfulIff`). The pass as a whole is sound when no
  rewriting that it does is struck, and that is no more than that each of them is faithful by itself
  (`BlockOptimiser.OptimizedSound`, `BlockOptimiser.ConditionExact`).
  `BlockOptimiser.NopSlip` and `BlockOptimiser.ReadSlip` are whole blocks that the pipeline breaks. The same
  slip in forward propagation (jit/jit-live.c:310) does no harm, as `ForwardPropagation.Sound` shows.
- *Branch removal can run dead code.* jit/jit-block.c:541 marks the next block as entered even when it is a
  non-empty block that was never entered. `Branches.RemovedSame` and `Branches.RevivedDiffers` split the
  cases, but for a block so revived that starts with a jump or a branch, or with work that occurs elsewhere too:
  whether that can be seen depends on where control goes from there, and neither lemma covers it.
  `Branches.SkippedCodeRuns` is a function that the pass breaks.
- *Numbers in the debug map* read back if and only if they are in [-2^28, 2^28), although the encoder
  takes more (`DebugMap.RoundTrip`). The last block of a debug map is lost without a word if and only if it
  does not fit (`CodeCache.Cache.EndMethod`), and the map then tells only the pairs flushed before;
  `CompileLoop.LastBlockLost` is a method whose map tells nothing.
- *Two regions with the same start* make the insertion stop early, and the root stays red if and only if it
  had two red children (`LookupTrees.LookupTree.AddToLookupTree`); `LookupTrees.SpoiledByDuplicate` builds
  such a tree. A method that ends in an empty region prepares such a pair (`CodeCache.Cache.EndMethod`).
- *After a failed compilation* no method is compiled, however small, because the cache has no free region
  left. That lasts until a request for a redirector or a closure gets a page (`CompileLoop.Compile`,
  `CompileRuns.RunJobs`).
- *Values read only as second operands* get no entry in the global liveness analysis, because
  jit/jit-cfg.c:540-541 looks at the first operand twice (`LocalLiveness.SecondOperandOnly`). Such a value is
  in no use set (`LocalLiveness.MissedUse`); use and live_in are right for all values if and only if each
  value that some block reads first has an entry (`LocalLiveness.UseExact`, `LocalLiveness.LiveInExact`).
- *A function can be compiled twice.* Any function can be given a new builder (jit/jit-function.c:178-236), and
  jit/jit-function.c:992 then compiles it again and replaces its entry point, whether it was made recompilable or
  not. `OnDemand.BuiltTwice` is a run in which the on-demand compiler does so. Whatever rule the threads follow when
  they build, all runs compile the function at most once if and only if none builds it when it is compiled
  (`OnDemand.OnceIff`). `OnDemand.Safety` holds of all runs.
- *An exception out of the user's on-demand compiler* leaves the builder lock held for ever
  (`OnDemand.LockReleased`, `OnDemand.StuckForever`, `OnDemand.CallbackThrows`).
- *ARM arithmetic with a complex immediate* reads a lowered stack pointer, or the immediate in place of the work
  register; a new stack pointer ends four above the result, and the register that was saved comes back from
  elsewhere. `ArmImmediates.AluRuns` says what every register and memory become. The result is right in all states if
  and only if none of that happens, or the operation ignores those bits of its source, or for the stack pointer in
  both places the two errors cancel out (`ArmImmediates.RightIff`); the other registers are kept if and only if the
  destination is not the stack pointer, but for one case where what is loaded is what was saved
  (`ArmImmediates.KeepsIff`).
- *x86-64 structures of two SSE eightbytes* get one register where the System V AMD64 ABI, section 3.2.3,
  asks for two (`ParamSlots.TwoDoubles`). A parameter gets the registers that its eightbytes call for, or is
  on the stack, if and only if it is not such a structure with a register left, nor one of a few with an
  eightbyte of padding (`ParamSlots.AllOrNone`).
- *x86-64 stack slots* are padded by the misalignment instead of by what is missing. Up to an alignment of 16
  both agree; the exact condition is `ParamSlots.AlignedIff`, a failing case is `ParamSlots.MisalignedAt32`.

## Model

| member | source | states |
|---|---|---|
| RedBlack.DepthBound | jit/jit-cache.c:408-559 | A tree without a red node below a red node and with equal black heights is at most 2*log2(n+1) deep |
| LookupTrees.LookupTree.CacheRotate | jit/jit-cache.c:437-473 | The rotation, chosen by comparing the key again, does exactly three link writes |
| LookupTrees.RelinkedAt | jit/jit-cache.c:437-473 | These turn the sub-tree into the rotated one, in the same place below the same path |
| RedBlack.LiftedInOrder | jit/jit-cache.c:437-494 | One rotation or two leave the in-order sequence of regions alone |
| LookupTrees.LookupTree.Split | jit/jit-cache.c:478-494 | A repair on the way down puts the recoloured node, or the tree lifted by one or two rotations, in its place, with the stale ancestor pointers there are |
| LookupTrees.LookupTree.StandRepaired | jit/jit-cache.c:478-494 | After a repair the tree as a whole is a red-black tree with the same regions, and the search stands at the right place in it |
| RedBlack.LiftedColoured | jit/jit-cache.c:478-494 | The repair gives back a tree without a red node below a red one, with the black heights as they were |
| LookupTrees.SplitRed | jit/jit-cache.c:478-494 | After a repair the key goes on below a black node, over a red one, and the next node on its way needs no repair: this is why the stale ancestor pointers do no harm |
| LookupTrees.LookupTree.AddToLookupTree | jit/jit-cache.c:500-559 | For a new start address the region is inserted at its place in the order and every invariant is kept; for a taken one the regions are unchanged and the root is black again iff it did not have two red children; with nothing to split on the way, the tree grows a leaf where the search ends and is repaired there |
| LookupTrees.SpoiledByDuplicate | jit/jit-cache.c:500-559 | Four insertions, in the order 2, 1, 3 and 2 again, leave a tree of three regions whose root is red |
| LookupQueries.SpacedInserted | jit/jit-cache.c:842-857 | Inserting a region that overlaps no other keeps the regions disjoint and in address order |
| LookupQueries.ScanFinds | jit/jit-cache.c:1014-1040 | In disjoint regions the plain scan finds the one region that contains an address, and null only if there is none |
| LookupQueries.FindRegion | jit/jit-cache.c:1014-1040 | The descent finds what the plain scan finds, in at most 2*log2(n+1) steps |
| LookupQueries.GetMethod | jit/jit-cache.c:1014-1040 | The method and the cookie are those of the region that a scan of all regions finds; null iff there is none |
| LookupQueries.Next | jit/jit-cache.c:1136-1188 | With the explicit stack of ancestors, one step of the traversal goes to the next region in address order, or fails because the stack cannot grow |
| LookupQueries.GetEndMethod | jit/jit-cache.c:1042-1202 | The end of the last region in the maximal run of regions of the method that starts at the region found; null only if no region contains the address, or if a stack no deeper than the tree may need cannot be had |
| LookupQueries.StackBound | jit/jit-cache.c:1042-1075 | The stack of ancestors is never deeper than 2*log2(n+1) |
| LookupQueries.AlwaysRoom | jit/jit-cache.c:1042-1102 | Up to 361 regions the 16 places on the C stack are enough, so memory cannot make it fail |
| LookupQueries.CountMethods | jit/jit-cache.c:1207-1234 | The count is the length of the list of methods in address order with adjacent duplicates and nulls removed |
| LookupQueries.FillMethodList | jit/jit-cache.c:1236-1262 | The slice written is exactly that list, within the bounds of the array, and the rest of the array is untouched |
| LookupQueries.GetMethodList | jit/jit-cache.c:1264-1299 | The array counted first and filled second is exactly full: the list and a final null |
| LookupQueries.OwnersComplete | jit/jit-cache.c:1207-1262 | The list names every method that has a region and nothing else |
| DebugMap.RoundTrip | jit/jit-cache.c:121-296 | An encoded number occupies exactly the bytes its first byte announces, and decodes to itself iff it is in [-2^28, 2^28) |
| DebugMap.Overlong | jit/jit-cache.c:266-289 | No number beyond the range survives the five byte form |
| DebugMap.Shortest | jit/jit-cache.c:121-185 | No fewer bytes decode to a number that reads back |
| DebugStream.CompressInt | jit/jit-cache.c:121-185 | The bytes stored are the encoding that the reader is proved against, and nothing else in the buffer changes |
| DebugStream.UncompressInt | jit/jit-cache.c:201-296 | Decodes the number at the position and moves by exactly its width if that many bytes are left; otherwise an error |
| DebugMap.ReadFullBlocks | jit/jit-cache.c:564-619 | Blocks that end in the flush mark read back as the pairs of each block, one block after the other |
| DebugMap.ReadLastBlock | jit/jit-cache.c:828-836 | A last block reads back as its pairs up to the end mark, whatever follows the mark |
| DebugStream.DebugWriter.Write | jit/jit-cache.c:601-619 | A pair goes to the 64 byte buffer without overflowing it; it is reported full, with the flush mark written, exactly when another pair might not fit |
| DebugStream.DebugIter.GetNext | jit/jit-cache.c:1334-1360 | Gives the first of the remaining pairs and moves past it, across blocks, never reading beyond a block; fails iff no pair remains |
| DebugStream.GetNative | jit/jit-cache.c:1362-1388 | The exact or inexact search through the decoded pairs, with offsets compared as `unsigned long` |
| DebugStream.GetBytecode | jit/jit-cache.c:1390-1416 | The same by native offset |
| DebugStream.NativeForMeans | jit/jit-cache.c:1362-1388 | The inexact answer belongs to the last pair before the first one with a larger offset |
| DebugStream.BytecodeForMeans | jit/jit-cache.c:1390-1416 | The same by native offset |
| DebugStream.NativeForExact | jit/jit-cache.c:1362-1388 | The exact answer belongs to the first pair with the offset; JIT_CACHE_NO_OFFSET iff there is none |
| DebugStream.BytecodeForExact | jit/jit-cache.c:1390-1416 | The same by native offset |
| DebugQueries.GetNativeAt | jit/jit-cache.c:1301-1388 | For any address, the search through the pairs that the debug map of the region containing it tells, with offsets compared as `unsigned long`; no pairs if there is no such region |
| DebugQueries.GetBytecodeAt | jit/jit-cache.c:1301-1416 | The same by native offset |
| CodeCache.Cache.constructor | jit/jit-cache.c:621-694 | A new cache is empty and valid; its limit is as many pages as fit, but at least one, if there is any limit |
| CodeCache.Create | jit/jit-cache.c:621-703 | The cache has one page, all of it free, of the size asked for, or 64K, in whole pages of the system, and what is left of the limit; it is null iff the page cannot be had |
| CodeCache.Cache.AllocCachePage | jit/jit-cache.c:301-379 | A page is had iff the system has memory, the factor is allowed and the limit leaves room; it is disjoint from all pages; pages left plus the factors of pages held is constant; otherwise there is no free region |
| CodeCache.Cache.AllocNoMethod | jit/jit-cache.c:891-920 | The block is the highest aligned one in the free region, or else in a new page, which is tried iff the size alone does not fit, and joins the blocks in use; it is had iff there is such a place; no page leaves no free region |
| CodeCache.Cache.StartMethod | jit/jit-cache.c:729-798 | Too big iff there is no free region; OK iff the aligned start and the information block fit; an OK start is aligned, with nothing output and one region |
| CodeCache.Cache.Emit | jit/jit-cache.h:207-277 | The bytes go to the position if they fit, and otherwise the position becomes the limit; while it is below the limit the code area is the concatenation of all output |
| CodeCache.Cache.Alloc | jit/jit-cache.c:863-889 | An aligned block below all others and above the code, or nothing and overflow |
| CodeCache.RoomIff | jit/jit-cache.c:863-889 | There is room for a block iff there is any aligned place between the position and the limit, and the block gets the last such place |
| CodeCache.Cache.Align | jit/jit-cache.c:922-958 | Nops up to the boundary if it is nearer than the allowed distance and not beyond the limit |
| CodeCache.Cache.MarkBytecode | jit/jit-cache.c:564-619 | The pair marked is the last of the debug data, in the buffer or in a flushed block, unless overflow is flagged |
| CodeCache.Cache.NewRegion | jit/jit-cache.c:966-1004 | The regions of the method tile its code without a gap; an empty region gets the new cookie instead of a successor |
| CodeCache.Cache.SetCookie | jit/jit-cache.c:1006-1012 | Only the cookie of the newest region changes |
| CodeCache.Cache.Commit | jit/jit-cache.c:842-857 | The backward links of the regions are turned round one by one while the regions go to the tree, which gains exactly them |
| CodeCache.Cache.DebugReads | jit/jit-cache.c:828-836 | What the reader gets from a finished method's blocks is the list of pairs marked |
| CodeCache.Cache.FreeLastPage | jit/jit-cache.c:806-826 | The last page is given back iff nothing was ever committed to it, and then the limit gets its factor back |
| CodeCache.Cache.EndMethod | jit/jit-cache.c:800-861 | Restart iff the position has reached the limit, with all committed regions as they were; otherwise every byte output is in place, the regions tile the code and are in the tree next to the old ones, disjoint from them and from the free region, the auxiliary blocks are aligned, apart from one another and above the code, and the debug map reads back as the marks made, but for the last block if that does not fit |
| CompileLoop.Run | jit/jit-function.c:808-870 | Generating block after block, and stopping after one that filled the page, comes to what all blocks do on paper if they fit, and fills the page iff they do not; no memory outside the free region is touched |
| CompileLoop.StaysFull | jit/jit-cache.h:207-277 | Overflow is sticky: once the position is the limit, no output, alignment, allocation or mark changes that |
| CompileLoop.WholeStaysFull | jit/jit-function.c:835-870 | So nothing generated after the page is full matters |
| CompileLoop.LastBlockLost | jit/jit-cache.c:828-836 | A method with one mark that fits the page, while the block with its debug map does not, so that its map tells nothing |
| CompileLoop.Attempt | jit/jit-function.c:808-894 | One round of the loop ends with the finished method iff it fits on the page |
| CompileLoop.FirstStart | jit/jit-function.c:794-812 | The method is started in the free region there is, and on a page of the default size only if the first finds no room |
| CompileLoop.Compile | jit/jit-function.c:794-915 | The loop terminates. The method is tried in the free region there is, and compiled there, with no page changing hands, if it fits; otherwise on pages of doubled factors, each because it did not fit before; it is compiled iff it fits the region tried last, and given up only without a free region or when the next page is not to be had or too small to start on. The pages and the free region afterwards are exact; all code and all auxiliary blocks in use before are untouched; after a failure the cache has no free region |
| CompileLoop.LooksUp | jit/jit-cache.c:966-1037 | Looking up any address in a compiled method gives the method and the cookie that was in force there |
| CompileLoop.StillLooksUp | jit/jit-cache.c:1014-1040 | A region found before a compilation is still found after it |
| CompileRuns.ServedStill | jit/jit-cache.c:1014-1040 | As long as regions, blocks and memory in use stay, a method is served: its code is in memory and any address in it gives its owner, cookie and debug map |
| CompileRuns.RunJob | jit/jit-cache.c:891-920 | One compilation, or one request for a block: what was in use before is in use and unchanged after it |
| CompileRuns.RunJobs | jit/jit-function.c:736-920 | After any interleaving of compilations and requests for blocks every method that was compiled is served, its debug map tells its marks, or those flushed if the last block was lost, and every block handed out is in use and unchanged. For every job the outcome, the pages and the free region after it are exact, given those before it: a method goes where it fits first, a block is the highest aligned one in the free region or else in a new page. There is no free region from a failure until a request gets a page |
| CompileRuns.NoOverlap | jit/jit-cache.c:800-920 | In a valid cache the blocks in use, the committed regions and the free region are pairwise disjoint |
| CompileRuns.GetNative | jit/jit-cache.c:1362-1388 | For an address in a method that is served, the answer is that of the method's own marks, as far as they were kept, compared as `unsigned long` |
| CompileRuns.GetBytecode | jit/jit-cache.c:1390-1416 | The same by native offset |
| ForwardPropagation.Propagate | jit/jit-live.c:253-378 | The loops in place do what the pass does on values |
| ForwardPropagation.ScanSound | jit/jit-live.c:304-374 | Reading the original instead of its copy, up to the first write to either, changes no run |
| ForwardPropagation.Sound | jit/jit-live.c:253-378 | From every state the block leaves every value and all effects as before, the slip in the NOP test included |
| ForwardPropagation.CopiesReach | jit/jit-live.c:253-378 | After the pass no copy is of a value to itself, and nothing reads a private temporary copy up to the next write to it or to its original |
| Liveness.ResetLivenessFlags | jit/jit-live.c:512-563 | Every value mentioned gets the marks it has at the end of a block, and no other value changes |
| Liveness.ComputeLiveness | jit/jit-live.c:32-172 | The backward scan over marks on the values, in place, does what the pass over sets of values does |
| Liveness.FlagsExact | jit/jit-live.c:32-172 | NEXT_USE iff an instruction left behind reads the value before one writes it; LIVE iff that, or the value outlives the block and is not written again; no instruction is left whose result is not needed |
| Liveness.OneScan | jit/jit-live.c:32-172 | One scan removes all transitively dead instructions: a second one changes nothing |
| Liveness.CleanedSound | jit/jit-live.c:32-172 | Removing dead instructions changes no value that outlives the block, and no effect |
| BackwardPropagation.Propagate | jit/jit-live.c:400-508 | The loops in place do what the pass does on values, slips included |
| BackwardPropagation.TargetPassed | jit/jit-live.c:450-504 | What the backward scan knows of the instructions it went past: they write neither value and read neither, but for the copied one as a second operand |
| BackwardPropagation.TargetIff | jit/jit-live.c:450-504 | The scan finds an instruction iff it writes the copied value and the scan goes past all between: they write neither value, do not read the copy, and read the copied value at most as a second operand; a NOP counts as what it was |
| BackwardPropagation.CleanFaithful | jit/jit-live.c:400-508 | Where no slip strikes, every instruction of the stretch reads what it read before, and only the copied value ends up different |
| BackwardPropagation.SlipUnfaithful | jit/jit-live.c:456-499 | Where one strikes, some run reads another value or leaves one different |
| BackwardPropagation.FaithfulIff | jit/jit-live.c:400-508 | A rewriting leaves all reads and all other values as they were, in all runs and whatever the operations compute, iff no slip strikes it or the instruction changed copies a value to itself |
| BackwardPropagation.StillDead | jit/jit-live.c:435-487 | A rewriting keeps the liveness flags of the instructions before it right, so the next copy may be trusted |
| BackwardPropagation.Sound | jit/jit-live.c:400-508 | If no slip strikes a copy that the pass moves, it changes no value that outlives the block and no effect; copies that it leaves alone do not matter |
| BackwardPropagation.CleanExactly | jit/jit-live.c:400-508 | In a block in which no value that is copied to itself is copied again, no slip strikes iff every rewriting of the pass, in the block as the pass finds it, is faithful in all runs |
| BackwardPropagation.CleanedPending | jit/jit-live.c:584-592 | The flags that the liveness pass leaves are what backward propagation relies on |
| BackwardPropagation.MovableIff | jit/jit-live.c:432-447 | A copy may move iff both values are private, and the original is a constant or nothing after the copy needs it |
| BackwardPropagation.ChangeReported | jit/jit-live.c:400-508 | The pass reports a change iff it made one |
| BlockOptimiser.Optimize | jit/jit-live.c:579-598 | The pipeline in place: forward propagation, dead code removal, backward propagation and removal again |
| BlockOptimiser.OptimizedScanned | jit/jit-live.c:579-598 | Another liveness scan of the optimised block changes nothing: no dead instruction is left and all flags are right |
| BlockOptimiser.BothCopiesGo | jit/jit-live.c:230-251 | A block from which the pipeline removes a copy forwards and another one backwards |
| BlockOptimiser.PreparedSound | jit/jit-live.c:579-588 | Up to backward propagation the pipeline is sound for all blocks |
| BlockOptimiser.OptimizedSound | jit/jit-live.c:579-598 | The whole pipeline leaves the final value of every non-temporary and the sequence of effects unchanged from every state, if no slip strikes a copy that backward propagation moves |
| BlockOptimiser.ConditionExact | jit/jit-live.c:579-598 | For every block that condition holds iff every rewriting that backward propagation does is faithful in all runs of the block as the pass finds it |
| BlockOptimiser.PlainClean | jit/jit-live.c:400-508 | No slip strikes a block without NOPs in which no value is read as a second operand and later copied for the last time |
| BlockOptimiser.NopSlip | jit/jit-live.c:453-459 | A block from which the pipeline drops a copy of a computed value |
| BlockOptimiser.ReadSlip | jit/jit-live.c:497-503 | A block in which an instruction comes to use an old value |
| Branches.KeepsLabels | jit/jit-block.c:482-543 | What the pass does to one block leaves all labels in order |
| Branches.FollowLinks | jit/jit-block.c:500-529 | The loop that threads a branch, cut off after 32 links or at the own label |
| Branches.PeepholeBranch | jit/jit-block.c:482-543 | The code in place does what the pass does to one block |
| Branches.ThreadEnds | jit/jit-block.c:500-529 | A threaded branch leads to no block that only jumps, unless it is cut off at its own label or after exactly 32 links |
| Branches.ScanIff | jit/jit-block.c:438-480 | The scan says that the block branches to next iff the label is on a later block and all blocks before that one do nothing, or jump to where control comes next anyway |
| Branches.RemovedIff | jit/jit-block.c:531-542 | The threaded branch is removed iff that is so |
| Branches.ThreadRuns | jit/jit-block.c:500-529 | From the old target control comes to the new one without an event |
| Branches.ThreadedSame | jit/jit-block.c:482-529 | A threaded branch cannot be noticed in any run of the function, cyclic chains included |
| Branches.ScanJoins | jit/jit-block.c:438-480 | When the scan says that the block branches to next, falling through and jumping silently meet, even if blocks on the way jump past the label |
| Branches.RemovedSame | jit/jit-block.c:531-542 | Removing such a branch cannot be noticed, unless the next block is non-empty dead code |
| Branches.RevivedDiffers | jit/jit-block.c:541 | If it is, and starts with work or a return of its own, that is seen after the removal and was not before |
| Branches.PeepholeAll | jit/jit-live.c:565-577 | The pass over all blocks in place |
| Branches.PassSame | jit/jit-live.c:565-577 | Emptying dead blocks, threading and removing, block after block, leaves all runs of the function as they were, if no removal revives dead code |
| Branches.NothingToRevive | jit/jit-block.c:531-542 | None does in a function whose dead blocks are empty |
| Branches.NoDeadCode | jit/jit-live.c:569-573 | After the pass, blocks that are never entered are empty |
| Branches.SkippedCodeRuns | jit/jit-block.c:541 | A function of three blocks that the pass breaks |
| LocalLiveness.ComputeLocalLiveSets | jit/jit-cfg.c:562-612 | A value with an entry is used iff it is read before it is written in the block, and defined iff it is written |
| LocalLiveness.SecondOperandOnly | jit/jit-cfg.c:523-560 | A value has an entry iff some instruction has it as destination or first operand |
| LocalLiveness.MissedUse | jit/jit-cfg.c:540-541 | A block whose one instruction reads a value as second operand, which is not in its use set |
| LocalLiveness.UseExact | jit/jit-cfg.c:562-612 | The use set of a block holds exactly the values read before they are written, iff each of these has an entry |
| LocalLiveness.LiveInExact | jit/jit-cfg.c:613-676 | live_in holds exactly the values that some way through the graph uses before it writes them, iff each value that a block in the order reads first has an entry |
| DepthFirst.ComputeDepthFirstOrder | jit/jit-cfg.c:336-407 | The walk terminates within a stack of one place more, and an order of as many places, as there are nodes besides entry and exit; the order has each node once that can be reached from the entry without passing the exit, except for the two; it is a post order: the successors of a node come before it, but for those that lead back to it |
| DepthFirst.EveryWay | jit/jit-cfg.c:336-407 | With this order liveness is about every way through the graph, if none leads back to the entry |
| GlobalLiveness.LiveInSolution | jit/jit-cfg.c:613-676 | Every solution of the equations contains all that is live |
| GlobalLiveness.OneRound | jit/jit-cfg.c:627-672 | A round only adds what is live, and reports no change iff the equations hold |
| GlobalLiveness.ComputeGlobalLiveSets | jit/jit-cfg.c:613-676 | The iteration terminates with the least solution: a value is in live_in of a node iff some way from there reaches a use with no definition before |
| OnDemand.StepInv | jit/jit-function.c:982-1011 | Every step of every thread keeps the invariant, the steps of the compiler and of the fast path included, and so does the part about compiling once, unless the step builds a compiled function |
| OnDemand.Safety | jit/jit-function.c:1400-1454 | In every interleaving, whoever builds what: once compiled the function stays compiled, its entry point is the code of a successful compilation, and so is what every thread that applies it has used |
| OnDemand.CallOutcome | jit/jit-function.c:1400-1454 | In every run a call ends in an exception iff its driver has failed, and with that result: no on-demand compiler, a result of its own, or a function that was not built or could not be compiled; otherwise the function was applied |
| OnDemand.DriverCompiles | jit/jit-function.c:1423-1434 | A run in which the on-demand compiler only builds, the driver compiles, and a second call takes no lock |
| OnDemand.CallFails | jit/jit-function.c:1450-1453 | For every result but OK a run in which a call ends with it |
| OnDemand.CompilationFails | jit/jit-function.c:1431-1434 | A run in which what was built cannot be compiled |
| OnDemand.ClientCompiles | jit/jit-function.c:982-1011 | A run in which a client builds and compiles the function |
| OnDemand.NoMoreCallbacks | jit/jit-function.c:1409-1415 | Once the function is compiled, the on-demand compiler is not called any more |
| OnDemand.FailureFrees | jit/jit-function.c:1441 | A call that failed leaves no builder behind |
| OnDemand.OnceOnly | jit/jit-function.c:972-1011 | In a run in which no step builds a compiled function, it is compiled successfully at most once, and every thread that applies it uses the entry point of that compilation |
| OnDemand.OnceIff | jit/jit-function.c:178-1011 | For every rule about who may build when: in all runs the function is compiled at most once, iff in no run a compiled function is built |
| OnDemand.BuiltTwice | jit/jit-function.c:178-1011 | A run of sixteen states in which the on-demand compiler builds and compiles the function twice |
| OnDemand.LockReleased | jit/jit-function.c:1400-1454 | A thread that has ended holds the lock iff the user's compiler threw an exception |
| OnDemand.Progress | jit/jit-function.c:1400-1454 | Otherwise some thread can always go on until all have ended |
| OnDemand.StuckForever | jit/jit-function.c:1418-1420 | After such an exception no step changes the shared state again |
| OnDemand.CallbackThrows | jit/jit-function.c:1418-1420 | A run of five states in which a thread ends with the lock held |
| Unwinding.RunUnwinds | jit/jit-except.c:127-139 | For every tree of calls, each throw reaches the innermost pending setjmp with both heads as they were there, and the last exception is the one that structured exceptions would leave: the jumps implement them |
| Unwinding.AppliedUnwinds | jit/jit-function.c:1518-1575 | Applying a function leaves both heads as they were, for every tree of calls, and returns 0 iff an exception escaped, which is then the last exception; otherwise that is 0 or one that was thrown and caught inside |
| Unwinding.Control.ApplyVararg | jit/jit-function.c:1518-1575 | The code in place does that |
| Unwinding.Control.CallWithTry | jit/jit-insn.c:7313-7341 | The code in front of a function with a try block, and the pop before it returns, as on values |
| Unwinding.TryUnwinds | jit/jit-except.c:524-550 | A try block catches what its body raises when a catch block covers it, and rethrows to the setjmp below otherwise, with the heads restored |
| Metadata.Pool.Alloc | jit/jit-pool.c:56-83 | A slot that is not in use, filled with zeros; had iff one is free or the system has memory, and a new block is taken only if none is free |
| Metadata.Pool.Dealloc | jit/jit-pool.c:85-89 | The slot goes to the free list, and every slot ever carved stays either in use or free |
| Metadata.CarvedOnce | jit/jit-pool.c:35-54 | The teardown visits every slot ever carved, and none twice |
| Metadata.Pool.PoolFree | jit/jit-pool.c:35-54 | The teardown calls what the slots owe, restores the initial state of the pool and keeps the account of destructors |
| Metadata.Pool.MetaGet | jit/jit-meta.c:121-134 | The data of the first item of the type, or null |
| Metadata.Pool.MetaSet | jit/jit-meta.c:63-113 | Replaces the value of the type and calls its destructor, unless the value is the same; or puts a new item in front, iff there is a slot or memory for it; keeps the account |
| Metadata.Pool.MetaFree | jit/jit-meta.c:141-181 | Removes the item of the type, wherever it is in the list, and calls its destructor once |
| Metadata.Pool.MetaDestroy | jit/jit-meta.c:186-205 | Calls every destructor once, in list order, and gives all items back |
| Metadata.OwedPermuted | jit/jit-pool.c:35-54 | What is owed does not depend on the order of the visits |
| MetadataRuns.Metas.SetMeta | jit/jit-meta.c:63-113 | On any of the lists of a function: the map that the list stands for gets the new value, and a destructor is attached iff the value is new; it succeeds iff the type is there, or a slot or memory can be had |
| MetadataRuns.Metas.FreeMeta | jit/jit-meta.c:141-181 | The type leaves the map; all other lists stay |
| MetadataRuns.Metas.DestroyMeta | jit/jit-meta.c:186-205 | The map is empty; all other lists stay |
| MetadataRuns.Metas.GetMeta | jit/jit-meta.c:121-134 | What the map says, or null |
| MetadataRuns.Metas.FreeBuilder | jit/jit-function.c:239-264 | Lists of blocks are destroyed and what is left goes with the pool; the maps of the function's own lists stay as they are |
| MetadataRuns.Metas.DestroyFunction | jit/jit-function.c:266-293 | Nothing is in use any more |
| MetadataRuns.Lifetime | jit/jit-function.c:239-293 | Operations fail only for want of memory. For every sequence of set, free and destroy on any lists and of ends of the builder, as after each compilation, followed by the destruction of the function, the destructors called are exactly those attached, each as often as it was, with the data it was attached to |
| ArmImmediates.MovRuns | jit/jit-gen-arm.c:33-107 | Executing the words leaves exactly the value in the register, for every 32 bit value and condition, and nothing else changed |
| ArmImmediates.MovLength | jit/jit-gen-arm.c:33-125 | One word iff the immediate is not complex, and otherwise one for each byte that is not zero |
| ArmImmediates.AluRuns | jit/jit-gen-arm.c:127-168 | What the code for an operation leaves in every register and in memory, for all operands, immediates and states: the result in the destination and the rest unchanged, but for the stack pointer and the work register as operands of a complex immediate |
| ArmImmediates.RightIff | jit/jit-gen-arm.c:142-167 | The destination gets the result of the operation in all states, iff the immediate is a rotated byte, or no altered register is read or written, or the operation ignores the altered bits, or the two changes of the stack pointer cancel out |
| ArmImmediates.KeepsIff | jit/jit-gen-arm.c:142-167 | All other registers keep their values in all states, the work register too if it is to be saved, iff the immediate is a rotated byte, or nothing is saved, or the destination is not the stack pointer, or it is the stack pointer and with all bits of itself |
| ArmImmediates.Imm8Decodes | jit/jit-gen-arm.h:276-284 | The word for an operation with a rotated byte decodes to that operation, as in sections A3.4 and A5.1.3 of the ARM Architecture Reference Manual; words of other instruction classes, or that set flags, decode to none |
| ArmImmediates.RegDecodes | jit/jit-gen-arm.h:252-259 | The word for an operation on registers decodes to it |
| ArmImmediates.InstBuf.MovRegImm | jit/jit-gen-arm.c:33-107 | The buffer gets those words, as many as there is room for |
| ArmImmediates.InstBuf.AluRegImm | jit/jit-gen-arm.c:127-168 | The same for the operation |
| ArmImmediates.IsComplexImm | jit/jit-gen-arm.c:109-125 | The loop says whether neither the value nor its complement is a byte in some position |
| ParamSlots.RegistersOnce | jit/jit-apply-x86-64.c:473-728 | For every list of parameters each register is given out at most once, and the registers of each kind in their order and without gaps |
| ParamSlots.AllOrNone | jit/jit-apply-x86-64.c:473-652 | A parameter gets, for each eightbyte of its class, the next register of its kind, in the order of the eightbytes, if as many are left, and else a slot on the stack, iff it is not one of the structures for which the code departs from the ABI |
| ParamSlots.TwoDoubles | jit/jit-apply-x86-64.c:473-652 | A structure of two doubles gets one vector register and not two |
| ParamSlots.SlotsApart | jit/jit-apply-x86-64.c:251-282 | Stack slots are disjoint and within the stack size, for all alignments |
| ParamSlots.AlignedIff | jit/jit-apply-x86-64.c:251-282 | A slot is aligned iff twice the misalignment is a multiple of the alignment |
| ParamSlots.SlotsAligned | jit/jit-apply-x86-64.c:251-282 | With alignments up to 16 every slot of every list is the next aligned one after what came before, as large as its parameter in whole slots, with the padding told |
| ParamSlots.MisalignedAt32 | jit/jit-apply-x86-64.c:251-282 | Two structures, the second with an alignment of 32 and a slot that is not aligned |
| ParamSlots.ParamPassing.ClassifyAll | jit/jit-apply-x86-64.c:655-728 | The code in place assigns a list of parameters as on values |
| ParamSlots.ParamPassing.ClassifyStruct | jit/jit-apply-x86-64.c:473-652 | The code in place for a structure |

## Left out

- Machine memory, system allocation, cache flushing, clocks, setjmp itself: pages are disjoint address ranges at places chosen at will, whether the system has memory is a parameter, and a jump is a transfer of control to a numbered call.
- `_jit_cache_align` where `jit_should_pad` is defined; the model is of the other build.
- `_jit_cache_get_size`, `_jit_cache_get_start_method` and the destruction of the cache: easy after what is there.
- Widths of C integers: addresses, sizes and counts are unbounded, except for the 32 bit words of ARM code and of the encoded numbers.
- Code patched after it was output (prologs, forward branches) counts as output in its final form.
- CompileLoop.Compile: generators are functions from the start address and the end of the free region to lists of cache operations; what they compute inside, and an out-of-memory exit in the middle of one, is not modelled.
- CompileRuns.RunJobs: asks that the last region of a method has some code, because an empty one makes the next region start at the same address (see above); what a client writes into a block that it was handed is not modelled, nor the freeing of such blocks.
- Addressable and volatile values, calls with hidden effects, trapping operations and incoming or outgoing pseudo-instructions in the optimiser: an operation computes its destination from its operands and the effects so far, or has an effect.
- ForwardPropagation.Sound: copies are taken to copy the value unchanged. The pass treats byte and short store copies as copies too (jit/jit-live.c:219-220), which is right because `jit_insn_store` converts the value to the type of the destination first (jit/jit-insn.c:1435).
- Operands with an OTHER flag (labels, functions, signatures) are part of the operation.
- Branches: bodies of blocks are lists of work, jumps, conditional branches and returns, and conditions are decided by an oracle that sees all work done so far; switch-like instructions and exception handlers that enter blocks by address are not modelled.
- Representation of bit sets (jit/jit-bitset.c): they are finite sets, and a set that is not allocated is empty.
- DepthFirst.ComputeDepthFirstOrder: the bound of a node's successors is tested before the successor is read; jit/jit-cfg.c:380 reads one place too far first.
- Creation of nodes and edges of the flow graph: the graph is given.
- OnDemand.Safety: steps are atomic and memory is sequentially consistent, so a reader that sees `is_compiled` sees the entry point; threads that build and compile by themselves hold the builder lock, and `jit_function_compile_entry` and `jit_function_setup_entry` are not modelled.
- Unwinding: the thread control block always exists; catch code is chosen by the place of the exception, given with the call.
- ArmImmediates.AluRuns: operands other than the program counter, and the operation codes that compute a result, as codes 8 to 11 without the S bit are other instructions.
- ParamSlots.OnSlot: alignments, rounded up to 8, are powers of two, as jit/jit-apply-x86-64.c:262 expects, so masking is taking the remainder.
- Classification of structures into classes (`_jit_classify_structpart`) and the apply builder: the classes of the parts are given.
- Metadata.Pool.MetaDestroy: `jit_meta_destroy` leaves the caller's list pointer as it is, and items are not used after the pool is torn down.
- ELF files, the debugger, dumping, CPUID, the interpreter, the other code generators and the Dynamic Pascal front end: input and output, tables and wrappers.
