# Five parts of PPCBoot

Models of the parts of PPCBoot whose correctness does not depend on hardware, with proofs of what they promise:

* **The allocator** (`common/dlmalloc.c`). Memory is a sequence of 32-bit words indexed by address. Beside it there are two ghost
  maps: the chunks that tile the arena, and the free ones with their bin and rank. The heap invariant `TopServing.Consistent` says
  that chunks tile the arena up to `top`; that sizes, P bits and footers tell the truth; that no two free chunks touch and none
  touches `top` (`Chunks.Headers`); that each free chunk is on exactly one circular, well-linked list, in the bin of its size with
  the larger ones first, or is the one last remainder (`Bins.Lists`, `Bins.Binned`); and that `binblocks` has the bit of every
  block in use (`BinBlocks.Marks`). The calls are methods of `Dlmalloc.Heap`, and programs see a map from the pointers they hold to
  the words there (`Heap.Blocks`). Modules, from the bottom: Chunks, Bins, BinBlocks, Search, HeapSteps, HeapTop, HeapFree, Serving,
  Extending, TopServing, Freeing, Recutting, Stretches, Growing, Reallocating, Aligning, Requests, Blocks, Calls, Queues, Dlmalloc.
* **The Reed-Solomon decoder** (`common/docecc.c`). The decoder is proved for every field of characteristic 2 with 1024 elements
  (MM is 10, as in the driver) in which 2 is primitive, and every number of parity symbols; the driver's field, by shifting and
  adding modulo 1 + z^3 + z^10, is shown to be one. Modules: Fields, Sums, PowerSums, Massey, Locators, Products, Values, Forney,
  Overload, Logs, Gf, Order (algebra); Tables, BerlekampMassey, ErrorPatterns, Chien, Syndromes, ErrorValues, Decoder (the code);
  Registers (the register that a pattern of errors leaves); DocEcc and DocFailing (the sector); DocExample (one run in numbers).
* **The environment** (`common/cmd_nvedit.c`). Environment has the bytes and the loops over them, Nvedit the map that they are and
  the class `Env`. `crc32` is a function-valued field of which nothing is known.
* **Kermit and S-records** (`common/cmd_boot.c`). KermitProtocol has the receiver as a state machine, the sender that repeats, and
  the invariant of all their runs; KermitReplies puts together the replies in their buffer; KermitReceiver is the receiver with its
  memory; KermitLine goes from bytes on the line to the file in memory. SRecords and SaveSerial are the writer, with a reader of
  S-records of their own as a reference.
* **The assembler** (`common/bedbug.c`): Instructions, OpcodeTable, Assembler; PpcTable is the table of opcodes itself, and
  AsmExample one instruction in all its bits.

Basics, Bits and ByteSums are shared. A method that stands for C code is tied to a specification function or predicate by its
`ensures`, and lemmas say what that means. Methods take the values of the state they work on and return the new ones where the
state is shared by several components; `Heap`, `Env` and `Receive` hold the state in fields. A parameter with one value, as in
`n == 26` or `four == 4`, and constants such as `SaveSerial.FOUR`, only keep the verifier from unfolding recursive functions at
literal arguments.

## Where the code does not do what it says

* `request2size` wraps for requests above 2^31 - 12 (`Requests.SizeSuffices`): a request between 2^31 - 12 and 2^31 gets a block of
  the wrapped size. In `rEALLOc` the test for room in top wraps for requests from 2^31 - 28 to 2^31 - 12 if the next chunk is top,
  and only then (`Calls.TestedIf`); the code then moves the block and top over the end of memory (`Growing.PastTheEnd`, `Dlmalloc.ReallocPastTheEnd`). In
  `mEMALIGn` the padded sum is too small exactly where it is over 2^31 - 12 but below 2^31, or from 2^32 on (`Calls.Paddable`,
  `Calls.PaddingWraps`); from 2^31 to 2^32 malloc refuses it.
* The `sbrk` of `lib_ppc/board.c` returns null when there is no room, but `MORECORE_FAILURE` is -1. A later extension is
  recognised as failed because null is below the old top. The first one is not: the heap is sound after it if and only if
  `FirstEnd`, the end of the first arena, is within the region (`Extending.FirstExtend`, `TopServing.ExtendTop`). If not even the
  request fits, top is address 0, and pointer 8 may be handed out (`TopServing.WithoutRoom`, `TopServing.PointerEight`).
* The amount by which top is to grow is unsigned, but sbrk takes a signed one. With a `top_pad` near 2^31, which only mallopt sets,
  the increment may be negative; it can then take away pages of top, or all of it (`Extending.TakesTop`). As long as padding and
  region are below 2^31 together, as with the default of 0, it never does (`Extending.NeverTakesTop`).
* malloc is called best fit, but a last remainder is split before chunks in bins other than those of the same size are looked at
  (`Serving.WellChosen`).
* `malloc_trim` takes pads from 2^31 on for negative ones, and may give back more than top has: exactly if `Extending.TrimSafe`
  is false (`Extending.TrimSafeIf`, `Calls.PadTakesTop`). On a heap that was never extended the amount wraps from 2^31 - 16 on
  (`Calls.NothingToTrim`); the test of the break, which is meant for others who call sbrk, makes it return 0 all the same.
* `setenv` that overflows has deleted the old value and returns 1 without a new CRC (`Nvedit.After`).
* `doc_decode_ecc` may return -1 with the sector changed: `DocEcc.DocDecodeEcc` says when, and `DocFailing.DecodeOneError` shows it
  for every single error in the sector whose parity byte does not agree.
* `eras_dec_rs` does not compare the degree of lambda with the length of the register. Where they differ, which needs more errors
  than the code can correct, the errors it lists do not explain what was received (`Decoder.ExplainedIff`), or it even finds none
  (`DocFailing.DecodeUnnoticed`). Its test for a denominator of 0 never fires (`Decoder.NoZeroDenominator`).
* An error before the sequence number of a Kermit packet restores the checkpoint of the packet before; whether this loses data is
  decided by `KermitProtocol.EarlyErrorHarmless`, and `KermitProtocol.EarlyErrorLoses` is a run in which it does.
* The assembler accepts branch targets out of reach or not on a word, and prints another address for them
  (`Assembler.AddressBack`, `Assembler.BranchTooFar`); special register 0 is refused (`Assembler.SpecialBack`).
* The table gives the displacement `O_d` 15 bits, although the instruction has 16 (`PpcTable.OperandOf`).

## Model

| member | source | states |
|---|---|---|
| `Dlmalloc.Heap.constructor` | common/dlmalloc.c:1484-1520 | the static data are a heap that satisfies the invariant and has no blocks |
| `Dlmalloc.Heap.Malloc` | common/dlmalloc.c:2145-2379 | keeps the heap invariant if and only if the arena need not be extended or can be (Calls.Survives; no chunks at all satisfy the invariant otherwise); null if and only if the request is 2^31 or more, or no free chunk, last remainder or extended top can serve it; otherwise a new aligned block of the padded size has been added, every other block has kept its words; the chunk is the best fit, and of several of its size the one at the end of its bin (or the last remainder, or from top); the rest of a chunk that is cut is the last remainder, one that was tried and not used goes to the front of its bin, and every other free chunk keeps its place |
| `Dlmalloc.Heap.Free` | common/dlmalloc.c:2406-2496 | keeps the heap invariant; exactly this block is gone, all others keep their words; the chunk with its free neighbours is in front of all others of its size in its bin, or is the last remainder if one of them was, or has joined top, and then the break has not moved if top is below the trim threshold; null does nothing |
| `Dlmalloc.Heap.Realloc` | common/dlmalloc.c:2538-2733 | for every request, as long as malloc hands out only memory of the heap (Calls.CanMove): keeps the heap invariant if and only if the room test of the code does not wrap (Calls.TestedIf) and the malloc that it may need leaves a heap; then the result holds the first words of the old block, as many as both have room for, on every path, and is null exactly if the request is 2^31 or more or the block can neither be extended in place nor moved, and nothing has changed; the block stays where it is if it can grow forward, otherwise moves to the chunk before it if that leaves room, and otherwise to where malloc puts it; if the test wraps the old pointer is returned, and null if malloc has left no heap |
| `Dlmalloc.Heap.Memalign` | common/dlmalloc.c:2757-2852 | keeps the heap invariant if and only if the malloc that it asks leaves a heap; a block on the boundary asked for, with the room of a malloc of the same size; null exactly if the request or the padded sum is 2^31 or more, or malloc has no room for the padded size, or leaves no heap |
| `Dlmalloc.Heap.MallocTrim` | common/dlmalloc.c:2986-3040 | for every pad: keeps the heap invariant if and only if the amount is less than a page or leaves a minimal chunk (TrimSafe), which is always so below 2^31; then all blocks stay, and at least a page is given back or nothing has changed; for pads below 2^31 top is left between the pad and the pad plus a page |
| `Dlmalloc.Heap.UsableSize` | common/dlmalloc.c:3055-3075 | the size of the block in bytes, all of which the program may write |
| `Dlmalloc.Heap.Store` | common/dlmalloc.c:1192-1234 | a program that writes any word of its block, the one that overlays the next footer included, keeps the heap invariant and changes no other block |
| `Dlmalloc.FreeEverything` | common/dlmalloc.c:2406-2496 | freeing all blocks in any order ends with all bins empty and one chunk, top |
| `Dlmalloc.FirstInFirstOut` | common/dlmalloc.c:1258-1271 | a run that frees any number of blocks of one chunk size, none next to a free chunk, top or another of them, and then asks as often for that size gets them back in the order in which they were freed |
| `Queues.FreeEnqueues` | common/dlmalloc.c:1265-1271 | in every heap: the free chunks of one size in their bin are a queue, and a block that is freed and merges with nothing is its new last |
| `Queues.MallocDequeues` | common/dlmalloc.c:2111-2113 | in every heap: as long as there are free chunks of exactly the size needed, malloc hands out the first of the queue and leaves the others in order |
| `Dlmalloc.ReallocPastTheEnd` | common/dlmalloc.c:2603-2613 | a run in which realloc leaves no heap: one block, hence next to top, and a request of 2^31 - 16 |
| `Calls.OneBlock` | common/dlmalloc.c:1250-1271 | a block that is the only one is next to top, wherever free chunks are |
| `Calls.AllFreed` | common/dlmalloc.c:1250-1271 | without blocks in use there are no free chunks: top is the whole arena, and every bin header points to itself |
| `Calls.BlocksApart` | common/dlmalloc.c:1192-1234 | blocks in use are doubleword aligned, in memory, and disjoint, including the last word that overlays a footer |
| `Calls.InitialGood` | common/dlmalloc.c:1484-1520 | the initial bins satisfy the heap invariant |
| `Calls.NothingToTrim` | common/dlmalloc.c:2993-3005 | on a heap that was never extended the amount that malloc_trim computes is nothing if and only if the pad is below 2^31 - 16; for a larger one it wraps, and only the test of the break prevents that it is given back |
| `Calls.TestedIf` | common/dlmalloc.c:2603-2613 | the room test of realloc is right if and only if the request is at most 2^31 - 28 or above 2^31 - 12, or the next chunk is not top |
| `Calls.SurvivesIf` | common/dlmalloc.c:1987-2012 | as long as padding and region are below 2^31 together, malloc leaves a heap if and only if there is an arena or the region has room for the first one |
| `Calls.CanMoveIf` | common/dlmalloc.c:2690-2710 | with the same bound on padding and region, realloc has its precondition for every block and request |
| `Calls.TrimmableIf` | common/dlmalloc.c:2986-3040 | malloc_trim leaves a heap for every pad below 2^31 |
| `Calls.PadTakesTop` | common/dlmalloc.c:3000 | a pad for which it does not: 2^32 - 8192, with a top chunk of two pages |
| `Calls.PaddingWraps` | common/dlmalloc.c:2785-2788 | for the padded sums that are neither refused nor right, malloc is asked for a minimal chunk, too small for the block |
| `Calls.Malloc` | common/dlmalloc.c:2145-2379 | the same as Heap.Malloc, on values; and where malloc leaves no heap, what it returns: null, or what it takes for top |
| `Calls.Store` | common/dlmalloc.c:1192-1234 | the same as Heap.Store, on values |
| `Requests.SizeIsChunk` | common/dlmalloc.c:1309-1312 | a padded size is a chunk size |
| `Requests.SizeSuffices` | common/dlmalloc.c:1309-1312 | the chunk has room for the request if and only if this is at most 2^31 - 12: above that request2size wraps |
| `Requests.SizeIsLeast` | common/dlmalloc.c:1309-1312 | no smaller chunk would do |
| `Bins.BinIndexMonotone` | common/dlmalloc.c:1527-1535 | larger sizes have no smaller bin index |
| `Bins.BinIndexSmall` | common/dlmalloc.c:1527-1550 | below 512 the bins have one size each |
| `Bins.BinLimits` | common/dlmalloc.c:1527-1535 | a size is in bin i if and only if it is between the smallest sizes of bins i and i + 1: 64 bins of width 8, 32 of width 64, 16 of width 512, and the wider ones above |
| `Bins.UnlinkAll` | common/dlmalloc.c:1808-1816 | taking a chunk off its list keeps every list circular, doubly linked and in order |
| `Bins.InsertAll` | common/dlmalloc.c:1778-1805 | so does putting one between two neighbours, at its rank |
| `Bins.LinkRemainder` | common/dlmalloc.c:1820-1824 | link_last_remainder makes it the only chunk there |
| `Search.SearchSpot` | common/dlmalloc.c:1792-1800 | the search loop of frontlink ends at the first chunk that is not larger |
| `Search.Frontlink` | common/dlmalloc.c:1778-1805 | the chunk is in the bin of its size, in front of all others of this size; the bins stay sorted, the block of the bin is marked |
| `Search.ScanBins` | common/dlmalloc.c:2261-2350 | the scan by blocks finds the same as a search of all bins: of the smallest chunks that are large enough the one at the end of its bin, or there is none; block bits that it clears belong to empty blocks, and its loops end |
| `BinBlocks.SkipClear` | common/dlmalloc.c:2269-2281 | the loop over clear block bits stops at a set bit before the block variable passes the word |
| `BinBlocks.NotInClear` | common/dlmalloc.c:1560-1572 | a clear block bit means four empty bins |
| `Serving.SearchSmall` | common/dlmalloc.c:2169-2197 | the two small bins, from their ends: an exact fit or one that would leave no chunk over, the one that has been free longest, else nothing of these sizes |
| `Serving.SearchLarge` | common/dlmalloc.c:2198-2226 | the own bin of a larger request, from its small end: of the best fits the one that has been free longest |
| `Serving.TryRemainder` | common/dlmalloc.c:2228-2259 | the last remainder is split, used whole, or moved to its bin |
| `Serving.Serve` | common/dlmalloc.c:2160-2351 | the first three steps of malloc: the chunk is a smallest binned one, and of those the last, or the last remainder after the exact bins; nothing is found only if no free chunk is large enough; what becomes of the bins |
| `Extending.Sbrk` | lib_ppc/board.c:115-126 | moves the break within the region or returns null |
| `Extending.Extend` | common/dlmalloc.c:1987-2012 | for every padding, in wrapping arithmetic: top grows or shrinks by the increment that sbrk is given as a long, whole pages, or nothing changes if that is outside the region; the heap keeps its shape unless a negative one takes top away |
| `Extending.PagesFor` | common/dlmalloc.c:1987-1999 | top is to grow by whole pages, the fewest that have room for request, padding and 16 bytes; the first arena begins at the first aligned address and ends with such a page |
| `Extending.NeverTakesTop` | common/dlmalloc.c:1989-1999 | no increment takes top away as long as padding and region are below 2^31 together |
| `Extending.PaddingTakesTop` | common/dlmalloc.c:1989-1999 | a padding and a request with which sbrk is given -4096 and takes a top chunk of a page |
| `Extending.FirstExtend` | common/dlmalloc.c:1987-2043 | for every answer of sbrk: the new top is a chunk of the arena that ends at FirstEnd if and only if FirstEnd is at most the end of the region; then it is the whole aligned arena; if the first call fails, top is address 0, and its header is the correction |
| `Extending.TrimExtraIs` | common/dlmalloc.c:2986-3040 | the amount given back is whole pages and leaves the pad and a minimal chunk |
| `Extending.TrimSafeIf` | common/dlmalloc.c:3000 | the pads for which the amount is right: all below 2^31, and above those for which it is below a page, negative as a long, or leaves a minimal chunk |
| `Extending.Trim` | common/dlmalloc.c:2986-3040 | for every pad: gives pages back from the end of top, unless the break is not there; the shape is kept if and only if the amount is safe |
| `TopServing.ExtendTop` | common/dlmalloc.c:1972-2078 | the heap invariant holds after malloc_extend_top, and no chunk in use changes, if and only if the first extension has room, or a later one does not take top away; otherwise no chunks at all satisfy the invariant |
| `TopServing.WithoutRoom` | common/dlmalloc.c:2353-2379 | otherwise malloc answers with null or cuts a block from what it takes for top, which of them by a remainder in wrapping arithmetic |
| `TopServing.PointerEight` | common/dlmalloc.c:2353-2379 | an example: a region of 256 bytes, in which a first request for a chunk of 512 bytes is answered by pointer 8 |
| `TopServing.AllocateAny` | common/dlmalloc.c:2145-2379 | for every heap and size: if malloc leaves a heap, null if and only if nothing, top extended included, can serve the size, and otherwise one chunk more is in use; if not, the answer of WithoutRoom |
| `Chunks.RewrittenHeaders` | common/dlmalloc.c:1250-1271 | whatever splits or merges a run of chunks, if it writes the right headers and footers then all sizes, P bits and footers tell the truth again, and no two free chunks touch |
| `Chunks.LiveKept` | common/dlmalloc.c:1192-1234 | such a rewriting changes no word of any block in use outside the run, although footers overlay the last words |
| `HeapFree.Release` | common/dlmalloc.c:2462-2495 | free away from top: merges both neighbours, keeps the invariant and every other chunk in use; the merged chunk is in front of its size in its bin, or the last remainder if a neighbour was |
| `HeapFree.Detach` | common/dlmalloc.c:2464-2489 | the neighbours are taken off their lists; if one is the last remainder the merged chunk takes its place |
| `Freeing.DeallocateLast` | common/dlmalloc.c:2443-2460 | a chunk next to top is joined to it, the one before as well; the break is unchanged if the joined top is below the threshold, and otherwise top is trimmed to the padding and at most a page, but not below the padding |
| `Freeing.Deallocate` | common/dlmalloc.c:2406-2496 | exactly this chunk is no longer in use; what becomes of chunks, bins and top |
| `Stretches.Copy` | common/dlmalloc.c:407-423 | copying words upwards in address order is right also when source and target overlap leftwards |
| `Growing.GrowForward` | common/dlmalloc.c:2603-2629 | growing into top or into the free chunk after the block, in place, if and only if there is room, where the room test of the code does not wrap |
| `Growing.RoomNotTested` | common/dlmalloc.c:2605-2613 | where it wraps there is no room, but the code takes it that there is |
| `Growing.PastTheEnd` | common/dlmalloc.c:2607-2613 | and what it does then: the block and top end behind the end of memory, and no chunks satisfy the invariant |
| `Growing.GrowBackward` | common/dlmalloc.c:2637-2688 | growing into the chunk before, alone or with the next one or top, with the words moved down to it |
| `Reallocating.Reallocate` | common/dlmalloc.c:2538-2733 | all paths of realloc on chunks, and which of them is taken |
| `Reallocating.Shrink` | common/dlmalloc.c:2714-2729 | the end of a block that is too long is freed; the block keeps its words |
| `Reallocating.Move` | common/dlmalloc.c:2690-2710 | a new block, possibly the next one, which is then joined without a copy; otherwise the words are copied and the old block freed |
| `Aligning.MaskTakesRemainder` | common/dlmalloc.c:2810 | masking with the negated power of two takes off the remainder |
| `Aligning.SpotIs` | common/dlmalloc.c:2801-2814 | the leader is at least MINSIZE, and at most the alignment plus 8 |
| `Aligning.PaddingSuffices` | common/dlmalloc.c:2785-2786 | the padding is always enough for leader and block |
| `Aligning.CutOut` | common/dlmalloc.c:2799-2847 | leader and tail are given back, and the invariant holds |
| `Aligning.AllocateAligned` | common/dlmalloc.c:2757-2852 | an aligned chunk with less than MINSIZE to spare, or none; if malloc leaves no heap, none |
| `Tables.Modnn` | common/docecc.c:71-79 | terminates with the remainder by NN, for every x at or above 0 |
| `Tables.GenerateGf` | common/docecc.c:132-163 | fills the tables of powers and logarithms, for every generator polynomial of degree 10 modulo which 2 is primitive |
| `Tables.TablesInverse` | common/docecc.c:100-131 | the tables are inverse to each other |
| `Tables.TableProduct` | common/docecc.c:100-131 | adding logarithms multiplies polynomials: the product by shifting and adding |
| `Order.LowIsPrimitive` | common/docecc.c:44-52 | 2 has order 1023 modulo 1 + z^3 + z^10, and the symbols are a field |
| `Logs.OrderIsFull` | common/docecc.c:44-52 | an element whose powers 341, 93 and 33 are not 1 has the full order |
| `Logs.RingIsField` | common/docecc.c:100-131 | symbols with a primitive element are a field |
| `Gf.SymbolsAre` | common/docecc.c:100-131 | symbols with exclusive or and polynomial product are a ring, for every modulus |
| `Massey.TooShort` | common/docecc.c:283-329 | two registers of lengths l and n, one of which fails at step r + 1: l + n is more than r (why el is minimal) |
| `Massey.StepSame` | common/docecc.c:301-304 | the loop invariant, when there is no discrepancy: lambda is a shortest register, b corrects it, its degree is within bounds |
| `Massey.StepCorrected` | common/docecc.c:305-327 | the same when the register is long enough to be corrected |
| `Massey.StepLonger` | common/docecc.c:305-322 | the same when the register gets longer |
| `BerlekampMassey.Discrepancy` | common/docecc.c:293-300 | the discrepancy is the value of the recurrence |
| `BerlekampMassey.Step` | common/docecc.c:283-329 | one step of the loop, on logarithms in place, keeps the invariant; no coefficient is lost by the shift |
| `BerlekampMassey.FindLocator` | common/docecc.c:271-329 | lambda ends as a shortest register that generates all syndromes, for every field of 1024 elements in which 2 is primitive, and every syndrome sequence |
| `PowerSums.Independent` | common/docecc.c:186-426 | sums of powers of distinct elements vanish only if all coefficients do |
| `Products.OnlyLocator` | common/docecc.c:186-426 | a polynomial with these roots, degree and constant term is the product of the 1 - X_l x |
| `Products.ShortestIsLocator` | common/docecc.c:283-329 | a shortest register for the syndromes of at most (NN-KK)/2 errors is that product |
| `ErrorPatterns.PatternLocator` | common/docecc.c:186-426 | for every pattern of errors the register found is its locator |
| `ErrorPatterns.RootsArePositions` | common/docecc.c:344-356 | alpha^i is a root of the locator if and only if NN - i is the place of an error |
| `Chien.ToIndexForm` | common/docecc.c:331-337 | lambda in logarithms, and its degree |
| `Chien.NextValue` | common/docecc.c:345-351 | the registers move on to the next power; q is the value of lambda there |
| `Chien.NoMoreRoots` | common/docecc.c:357-361 | with as many roots as the degree there are no others: the early exit misses none |
| `Chien.FindRoots` | common/docecc.c:338-370 | exactly the roots, with their places; root and loc never overflow |
| `Syndromes.FindSyndromes` | common/docecc.c:212-232 | the syndromes of the register contents, in logarithms |
| `Syndromes.FindOmega` | common/docecc.c:371-387 | the evaluator is the product of syndromes and locator, truncated, and its degree |
| `Forney.ErrorValue` | common/docecc.c:390-422 | at the root of an error the evaluator is its value times the derivative of the locator, which is not 0 |
| `ErrorValues.EvalAt` | common/docecc.c:395-399 | num1 is the value of omega at the root |
| `ErrorValues.OddAt` | common/docecc.c:401-407 | den is the value of the formal derivative at the root |
| `Decoder.FindValues` | common/docecc.c:394-422 | each value is by the quotient, or a denominator is 0, and at which root (never with as many roots as the degree: NoZeroDenominator) |
| `Decoder.ErasDecRs` | common/docecc.c:186-426 | for every field of 1024 elements in which 2 is primitive, all numbers of parity symbols and register contents: if these come from at most (NN-KK)/2 errors at distinct places, the answer is exactly these places and values; for all others the places are distinct, and what is listed explains the syndromes if and only if its number is the length of the register |
| `Decoder.ExplainedIff` | common/docecc.c:331-422 | with as many roots as the degree of lambda, the values by the quotients have the syndromes that were received if and only if the degree is the length el of the register, which the code does not ask |
| `Decoder.NoZeroDenominator` | common/docecc.c:408-415 | the branch for a denominator of 0 is never taken |
| `Overload.TermsExplain` | common/docecc.c:371-422 | the converse of Forney: values that satisfy the formula at all roots of a locator that generates the syndromes have these syndromes, however many they are |
| `Registers.EveryPatternExplained` | common/docecc.c:212-232 | every pattern of errors, of any size, leaves a register, so that what is said about patterns is about register contents that there are |
| `Registers.TakenForNone` | common/docecc.c:331-370 | a register of which only the first syndrome is not 0 (there is one for every code) is taken for one without errors |
| `DocEcc.DocDecodeEcc` | common/docecc.c:441-517 | a positive result means that the sector was changed by exactly the errors of the decoder and that the changes add up to the parity byte; -1 if and only if the decoder says so, a place is in none of the data (510 to 1018), or the changes do not add up; whatever the result, the sector is unchanged if and only if a place is in none of the data or no bit of an error is in the sector, and otherwise changed by all errors |
| `DocEcc.PatchAll` | common/docecc.c:474-511 | the errors before the first place in none of the data are applied, with the parity of their changes, whether the result is a success or not |
| `DocEcc.WhenUnchanged` | common/docecc.c:474-517 | the sector is as before if and only if a place is in none of the data (these come before all others in the sector) or no error has a bit in the sector |
| `DocFailing.DecodeOneError` | common/docecc.c:441-517 | for every single error in the sector: it is corrected, and the result is 1 if the parity byte agrees and otherwise -1, with the sector changed all the same |
| `DocFailing.FailingInput` | common/docecc.c:512-515 | for each of them there are ECC bytes with which -1 is returned and the sector is changed |
| `DocFailing.DecodeUnnoticed` | common/docecc.c:464-470 | ECC bytes with which the result is 0 although they are not those of a sector without errors |
| `DocFailing.UnnoticedInput` | common/docecc.c:464-470 | there are such bytes |
| `DocEcc.PatchSymbol` | common/docecc.c:481-506 | one symbol: its ten bits in at most two bytes of the byte-swapped sector, all others unchanged, and the parity of the changes |
| `DocEcc.WindowBits` | common/docecc.c:481-505 | the bits that a symbol changes are its window |
| `DocEcc.Disjoint` | common/docecc.c:481-505 | windows of different symbols are disjoint |
| `DocEcc.CorrectedBits` | common/docecc.c:474-511 | a bit of the sector is flipped if and only if it is a set bit of an error value in its window |
| `DocEcc.ChangeBits` | common/docecc.c:474-511 | all changes of a byte, bit by bit |
| `DocEcc.TwoErrors` | common/docecc.c:464-470 | up to two errors of the sector are found |
| `DocEcc.PpIsLow` | common/docecc.c:52 | the generator polynomial of the driver is the one shown primitive |
| `DocEcc.RegisterIsNumber` | common/docecc.c:464-467 | the four symbols of 10 bits are the digits of the number that bytes 4, 5, 2, 3 and 0 make, the lowest first |
| `DocExample.DecodeExample` | common/docecc.c:441-517 | one run in numbers: for the bytes 233, 1, 116, 88, 120, 178 the lowest bit of byte 386 is flipped, nothing else, and the result is 1 |
| `Environment.EnvMatch` | common/cmd_nvedit.c:525-535 | matches exactly the entry with this name |
| `Environment.Find` | common/cmd_nvedit.c:159-173 | finds the entry with this name, its value and its end, or there is none |
| `Environment.Delete` | common/cmd_nvedit.c:242-256 | the bytes are those of the other entries, in order, with both NULs |
| `Environment.DoubleEnd` | common/cmd_nvedit.c:280-283 | two NULs in a row are the end and nothing else |
| `Environment.EndOfEntries` | common/cmd_nvedit.c:280-283 | where the next entry goes |
| `Environment.LengthNeeded` | common/cmd_nvedit.c:284-292 | the room that the definition and two NULs take |
| `Environment.Append` | common/cmd_nvedit.c:277-308 | writes "name=" and the arguments joined by spaces after the other entries if and only if there is room, and nothing otherwise |
| `Environment.DefinitionIs` | common/cmd_nvedit.c:297-308 | what is written has this name and this value |
| `Environment.JoinedAt` | common/cmd_nvedit.c:297-304 | position by position: the character 61 before the first argument, 32 before each other one, and the characters of the arguments |
| `Nvedit.AfterIsUpdate` | common/cmd_nvedit.c:147-311 | the result is map update, removal for no arguments, nothing if refused, removal of the old value on overflow; names stay unique |
| `Nvedit.WrittenOnce` | common/cmd_nvedit.c:178-193 | without CONFIG_ENV_OVERWRITE, over any sequence of calls: the value of the name with the bytes of serial# never changes once it is there, nor that of ethaddr unless it has its overwritable default |
| `Nvedit.RefusedIf` | common/cmd_nvedit.c:175-240 | the converse: a call is refused exactly for a defined serial#, a defined ethaddr that is not its default (both without CONFIG_ENV_OVERWRITE), and a defined stdin, stdout, stderr or baudrate whose new value is not accepted, each name by its bytes |
| `Nvedit.FailsIf` | common/cmd_nvedit.c:277-295 | any other call returns 1 if and only if the definition and two NULs do not fit; a refused one returns 1 and changes nothing |
| `Nvedit.SetenvExample` | common/cmd_nvedit.c:297-308 | an empty environment after setenv a b c, in all its bytes |
| `Nvedit.Env.Setenv` | common/cmd_nvedit.c:147-311 | the bytes after the call are the entries that the specification gives; return 0 leaves the CRC matching the data, 1 leaves the old CRC |
| `Nvedit.Env.Clear` | common/cmd_nvedit.c:175-256 | the variable is deleted unless it must not be overwritten or the new value was refused |
| `Nvedit.Env.Refuse` | common/cmd_nvedit.c:178-240 | the reasons to refuse |
| `Nvedit.Env.Getenv` | common/cmd_nvedit.c:458-476 | is map lookup: the string at the place returned is the value |
| `Nvedit.MapAt` | common/cmd_nvedit.c:458-476 | the map has the value of every entry |
| `KermitPackets.EncodeBack` | common/cmd_boot.c:686-694 | control quoting (section 6.4 of the Kermit Protocol Manual, Sixth Edition) is undone for every byte sequence and every legal quote character |
| `KermitPackets.FeedParts` | common/cmd_boot.c:808-823 | however the encoding is cut into packets, in the middle of a quoted pair as well |
| `KermitPackets.EncodedPrintable` | common/cmd_boot.c:989-1040 | quoted data have no control characters, which would end a packet |
| `KermitPackets.CheckIs` | common/cmd_boot.c:1056-1059 | for every sum: the two high bits of its low byte are added to the other six, and 32 makes that a character (section 6.1) |
| `KermitPackets.OneBitShows` | common/cmd_boot.c:1056-1059 | sums that differ by a power of two up to 128, as those of packets with one wrong bit do, have different checks |
| `KermitProtocol.SafeStep` | common/cmd_boot.c:953-1083 | one transmission keeps the invariant: the state is that after the first i messages, or the checkpoint is; with errors before the number where these do no harm |
| `KermitProtocol.AlwaysSafe` | common/cmd_boot.c:953-1083 | the invariant in every run in which packets are repeated or damaged, replies lost, and packets spoiled before their number where this does no harm |
| `KermitProtocol.ReceivedOnce` | common/cmd_boot.c:953-1083 | when the transmission is over the data received are the file: each packet once and in order |
| `KermitProtocol.EarlyErrorHarmless` | common/cmd_boot.c:976-1071 | an error before the number, which restores the older checkpoint, keeps the invariant if and only if the packet before is to be repeated anyway or left no data |
| `KermitProtocol.EarlyErrorLoses` | common/cmd_boot.c:976-1071 | otherwise an acknowledged packet is lost for good: an example |
| `KermitReceiver.Receive.PutData` | common/cmd_boot.c:808-823 | one data character, to memory |
| `KermitReceiver.Receive.Renumber` | common/cmd_boot.c:995-1004 | restore the checkpoint for a repeated number, set it for a new one |
| `KermitReceiver.Receive.HandleSendPacket` | common/cmd_boot.c:831-915 | the parameters of the sender as far as given, and the answer with ours, as it comes out of the buffer |
| `KermitReplies.Chk1` | common/cmd_boot.c:696-712 | the loop of chk1 over the text in the buffer gives the block check of section 6.2 |
| `KermitReplies.BuildReply` | common/cmd_boot.c:714-739 | what is read out of the buffer after an acknowledgement or refusal has been put together in it |
| `KermitReplies.BuildAnswer` | common/cmd_boot.c:846-915 | the same for the answer to the parameters, for every number of parameters given: it fits its 24 bytes |
| `KermitReceiver.Receive.ReadData` | common/cmd_boot.c:1038-1055 | the data characters, to memory or into the buffer for parameters, which never overflows |
| `KermitReceiver.Receive.ReadExtended` | common/cmd_boot.c:1014-1037 | the length and check of a long packet |
| `KermitReceiver.Receive.ReadCheck` | common/cmd_boot.c:1056-1064 | the block check and the end of line |
| `KermitReceiver.Receive.ReceivePacket` | common/cmd_boot.c:976-1082 | one packet from the line is one step of the state machine, with the reply that belongs to it |
| `KermitReceiver.Receive.KRecv` | common/cmd_boot.c:918-1084 | the loop is the run of the state machine over the line; bytes below the load address stay; the size is that of the data |
| `KermitLine.ShortParses` | common/cmd_boot.c:976-1067 | a packet put together as section 6.1 says is read as what was sent |
| `KermitLine.LongParses` | common/cmd_boot.c:1020-1067 | and so is a long packet |
| `KermitLine.CheckChanges` | common/cmd_boot.c:1056-1059 | one wrong bit in any one character of a packet changes its check |
| `KermitLine.OneBitRefused` | common/cmd_boot.c:1038-1071 | a packet with one wrong bit in one character of its data is read as damaged |
| `KermitLine.AnswerReads` | common/cmd_boot.c:714-739 | what a sender reads in the reply, behind the padding: an intact packet with the number of the one answered, of type 89 (Y) if and only if that was good, and otherwise of type 78 (N) |
| `KermitLine.EarlyAnswerReads` | common/cmd_boot.c:727-739 | an error before the number is answered by a packet of type 78 with the number of the packet before |
| `KermitLine.GoesOnFor` | common/cmd_boot.c:953-1083 | a sender that goes on exactly for type 89 does what the runs assume of it |
| `KermitLine.TransferExample` | common/cmd_boot.c:918-1084 | one transfer in all its bytes: a data packet with a quoted character and a break packet; memory holds the two bytes, and two acknowledgements have been sent |
| `KermitLine.ParametersExample` | common/cmd_boot.c:831-915 | a send-initiate packet in all its bytes, what it sets, and the reply |
| `KermitLine.ShortArrives` | common/cmd_boot.c:953-1083 | with other bytes before it, an undamaged packet arrives as it was sent |
| `KermitLine.LongArrives` | common/cmd_boot.c:953-1083 | and so does a long one |
| `KermitLine.QuietLine` | common/cmd_boot.c:918-1084 | over a line without errors every file, in any printable packets of any allowed length, is received: what is assumed of runs and lines can be met |
| `KermitLine.ReplyIsPacket` | common/cmd_boot.c:714-739 | our replies have the form of packets themselves |
| `KermitLine.RunFollows` | common/cmd_boot.c:953-1083 | the receiver on the line goes through the states of the abstract run |
| `KermitLine.LoadSerialBin` | common/cmd_boot.c:661-675 | at the end memory from the load address up to the returned size is the file |
| `SRecords.RecordSums` | common/cmd_boot.c:494-510 | all bytes of a record add up to 0xFF, and the record with its NUL fits its 48 bytes |
| `SRecords.UnHexBack` | common/cmd_boot.c:486-487 | hexadecimal digits are read back |
| `SRecords.RecordLoads` | common/cmd_boot.c:512-514 | a reader of S-records gets the address and the data of a record |
| `SRecords.LoadsBack` | common/cmd_boot.c:465-523 | a reader gets the records of the whole output, 16 bytes each, in order |
| `SRecords.PiecesAt` | common/cmd_boot.c:492-517 | the records tile the range and hold its bytes |
| `SRecords.MemoryBack` | common/cmd_boot.c:465-523 | for every address: the reader has the byte of memory if it is in the range, and nothing otherwise |
| `SaveSerial.AddBytes` | common/cmd_boot.c:498-504 | the bytes of a number are added to the checksum |
| `SaveSerial.Build` | common/cmd_boot.c:494-512 | the formatted line is the record, within its buffer |
| `SaveSerial.Save` | common/cmd_boot.c:465-539 | the output is the whole file, or ends after the record at which the console is interrupted |
| `SaveSerial.SaveExample` | common/cmd_boot.c:465-539 | two bytes at address 1: the whole output, character by character |
| `OpcodeTable.BelowNext` | common/bedbug.c:413-442 | in an ordered table the comparison sign is monotone, although masks differ |
| `OpcodeTable.OneEntry` | common/bedbug.c:413-442 | an instruction has at most one entry |
| `OpcodeTable.FindOpcode` | common/bedbug.c:413-442 | the binary search finds the entry if there is one |
| `OpcodeTable.FindOpcodeByName` | common/bedbug.c:460-475 | the first entry with this name |
| `PpcTable.TableOk` | include/bedbug/tables.h:14-479 | the table has its 206 entries in the order that the search needs, and each is well formed |
| `Instructions.PlacedIsExtracted` | common/bedbug.c:856-920 | a value put into an empty field is read there |
| `Instructions.OthersKept` | common/bedbug.c:797-824 | it changes no other field |
| `Instructions.MaskKept` | common/bedbug.c:797-824 | nor any bit of the opcode |
| `Assembler.ParseOperand` | common/bedbug.c:856-920 | the bits of an operand in their place, or its error |
| `Assembler.Asmppc` | common/bedbug.c:753-842 | the first entry of the name, and the word or first error that its operands make |
| `Assembler.AllBuilt` | common/bedbug.c:792-824 | the word has the opcode under the mask and each operand in its field |
| `Assembler.WordBuilt` | common/bedbug.c:792-842 | it is a 32-bit word |
| `Assembler.WordIsSum` | common/bedbug.c:792-842 | the word is the opcode plus every operand times the power of two of its place: no two parts overlap |
| `AsmExample.AsmMftb` | common/bedbug.c:753-842 | with the table in use, mftb r3, 268 is the word 0x7C6C42E6 |
| `Assembler.FoundAgain` | common/bedbug.c:413-442 | find_opcode finds the entry that the assembler used, and no other |
| `Assembler.GetOperandValue` | common/bedbug.c:375-398 | the field of the operand, if the opcode has it |
| `Assembler.NumberBack` | common/bedbug.c:880-920 | registers and plain numbers that fit are read back |
| `Assembler.SpecialBack` | common/bedbug.c:492-561 | the number of a special register is read back through both swaps of its halves; multiples of 1024 are refused |
| `Assembler.SwapHalves` | common/bedbug.c:637-642 | the swap puts the lower five bits up and the upper five down |
| `Assembler.TimeBaseBack` | common/bedbug.c:615-643 | a time base operand is accepted if and only if it is 268 or 269; its field is 392 or 424, and read back through the swap it is the number again |
| `Assembler.Refused` | common/bedbug.c:880-915 | what is refused: a register above 31, a special register that is a multiple of 1024, a time base register other than these two; nothing else, and each with its own error |
| `Assembler.AddressBack` | common/bedbug.c:263-273 | an address is printed back if and only if its distance is a whole number of words within reach of the field |
| `Assembler.BranchTooFar` | common/bedbug.c:263-273 | a branch just out of reach, at any address and for any width of the field: it is assembled, and the address of the branch itself is printed |

## Left out

- Dlmalloc.Heap.Malloc: where malloc leaves no heap, only that no chunks satisfy the invariant, and the answer; what the code writes outside the sbrk region then is not modelled.
- Dlmalloc.Heap.Realloc: where the malloc that it needs hands out memory that the heap does not have (never with the default padding), what copying and freeing make of it (`Calls.CanMove`).
- Dlmalloc.Heap.Memalign: needs a power of two, and a padded sum that malloc serves or refuses (`Calls.Paddable`; `Calls.PaddingWraps` says how small the chunk is for the others). Where malloc hands out memory that the heap does not have, as pointer 8, what is cut from it depends on where the linker has put the bins (`Calls.CanAlign`).
- Aligning.AllocateAligned: for the same sizes and answers of malloc as Heap.Memalign; in the second half of `mEMALIGn` the mmap case is not compiled.
- Growing.GrowForward: where the room test wraps, see `Growing.PastTheEnd`.
- Growing.GrowBackward: the same; the code does not come here then, because the wrapping test has let it grow forward.
- Reallocating.Reallocate: where the room test wraps, or malloc hands out memory that the heap does not have, see `Calls.Realloc` and `Calls.CanMove`.
- Extending.Extend: a `top_pad` of 2^31 - 16 or more; mallopt, which sets it, is not modelled.
- Dlmalloc.Heap.Store: programs write whole words; that bytes inside a word are kept apart by the processor is not part of the model.
- Stretches.Copy: the order of addresses in the copy is that of the MALLOC_COPY macro for up to nine words, and of an ascending copy loop above; the library's memcpy is not modelled.
- Decoder.ErasDecRs: without erasures, as its only caller uses it; symbols have 10 bits, the value of MM; other widths are not modelled.
- DocEcc.DocDecodeEcc: the tables are always allocated; the code returns -1 at once if they are not.
- KermitReceiver.Receive.KRecv: there is memory for as many bytes as are on the line; the code does not check that. The fields os_data_state and os_data_count, and k_state between packets, are never read for a decision and left out.
- KermitProtocol.ReceivedOnce: errors that the block check does not find, and errors in the number of a packet, are excluded: they are the assumption stated in the code; so are packets spoiled before their number where `KermitProtocol.EarlyErrorHarmless` says that they do harm.
- KermitLine.LoadSerialBin: the environment variable filesize and the cache flush.
- SaveSerial.Save: the 32-bit address does not wrap during the output.
- Assembler.ParseOperand: an operand is the number that its text stands for.
- Assembler.Asmppc: operands are the numbers that their text stands for; the splitting of the line into words, read_number, and the names of special registers are left out, and extra operands do not matter as in the code.
- OpcodeTable.FindOpcode: the table is a parameter that has to be ordered; `PpcTable.TableOk` shows this of the one in use.
- PpcTable.TableOk: of the hints of operands and opcodes those that the modelled code asks for; the handler of one mnemonic (handle_bc, for the disassembler) and the names of operands are left out.
- Two or more sbrk regions: memory from sbrk is contiguous and nobody else calls it, so that the fencepost code and the correction of a foreign break are not modelled.
- calloc, valloc, pvalloc, cfree, mallopt, mallinfo and malloc_stats, and the mmap code, which does not compile in this configuration.
- Environment variables `ethNaddr` are also given to the network code (CONFIG_NET_MULTI); the name of an opcode is compared as it is after downstring.
- The encoder side of the error correcting code, and the DiskOnChip registers.
- getenv_r, printenv, askenv, saveenv; switching consoles and baud rates, of which only the acceptance of a new value is a parameter of `Nvedit.Call`.
- load_serial, srec_decode and the flash; baud rate changes before and after a transfer.
- The text that the disassembler prints, simplified mnemonics, and finding the next address of a step.
