# Anunix kernel: verified models

Dafny models of the hardest parts of the Anunix kernel, with proofs. Each module follows one source file or
one layer; state the kernel updates in place is a class, and its invariant holds over every run of its methods.
A section the kernel runs under a lock is one method, so an interleaving is any order of calls.

- **Memory.** `PageBitmap` (pages), `Heap` (blocks on pages), `PageTables`, `Mmio` and `BootMap` (4-level paging,
  section 4.5 of the Intel SDM, volume 3A). Blocks never overlap and none is lost, the page search is exact, and
  rewriting page tables changes the meaning of the requested addresses only. `Machine` puts them together from the boot
  on: whatever the order of calls, no page table is ever part of the heap.
- **Versioned adapters.** `Anxml` (the generator), `Adapter` (stage, verify, publish, roll back), `ModelUse` (recorded
  uses). Verified means served, cached means recomputed, reused means executed.
- **Effects and authority.** `Fence` and `Capability`. A held fence lets nothing through until it runs again, a closed one
  never does; no effect leaves except to a sink cleared for everything read, and authority only shrinks along a chain.
- **Printers and parsers.** `Json` (grammar and printer), `JsonText` (the language by its texts, which the grammar
  accepts exactly), `JsonParser` (the cursor parser), `RequestBody` (the request builder), `ThemeText` and `Theme`.
  Reading inverts writing.
- **Audio.** `Audio`: the fast mixer refines the general one, and no arithmetic leaves its range.
- **Smaller kernels.** `Identity` (hash chains), `Civil` (calendar), `Huffman` (canonical codes, Annex C and section
  F.2.2.3 of ITU-T T.81). `Words` holds shared arithmetic, `Results` the error codes.

`dafny verify dfyconfig.toml` checks everything.

What the model takes from outside: time, the calling cell and its authority, memory exhaustion, the firmware's page
grants, object-store reads, the revision and promotion gates and the engine registry are parameters of the methods.
SHA-256 is an injective constructor in `Anxml`, `Adapter` and `ModelUse`; in `Identity` it is an arbitrary function and
a collision is one of the outcomes. Ed25519 is an arbitrary predicate.

Where the code does less than its comments or a caller may expect, the model follows the code and says exactly when
the expected property holds:

- `anx_alloc` returns a block that is too small when `size + 8` or the page count wraps (`Heap.LargeFits`,
  `Heap.SmallFits`, `Heap.Allocator.Alloc`).
- Address 0 is both a page and the failure value when the span starts at address 0 (`PageBitmap.PageAllocator.Alloc`
  reports the page taken beside the address).
- A range whose start rounds up past 2^64 selects every span page below its end (`PageBitmap.SelectionExact`,
  `PageBitmap.WrappedStartSelects`).
- Mapping a range that reaches above 2^48 and does not start at 0 rewrites slots of pages outside it (`Mmio.HitsIff`).
- The boot map leaves memory out exactly when the top lies in the last GiB of the 64-bit space, or an end wraps and the
  computed top needs less than 8 TiB (`BootMap.CoverageExact`, `BootMap.WrappedEndMissed`).
- A Huffman table with more reachable values than its array indexes outside it; exactly the tables with a reach of at
  most 256 do not (`Huffman.IndexInRange`, `Huffman.LongTableOverruns`).
- The JSON parser takes more than section 2 of RFC 8259 allows (leading zeros, fractions and exponents without digits,
  raw control characters, any escaped character) and ignores what follows a value; it takes nothing else
  (`JsonText.Sound`, `JsonText.ParsesExactly`).
- The sampler draws from the whole row; its header comment speaks of the top K.
- A capability can be moved from VALIDATED to INSTALLED by `anx_cap_transition` alone; it then has no grant and no engine
  (`Capability.InstalledWithoutGrant`).
- The calendar year is cut to 32 bits: dates are right exactly from day -784353015833 to day 784351576776
  (`Civil.FromUnixExact`).
- A theme is restored from its text exactly when its fields are in range, its colours have 24 bits and its scheme name is
  true (`Theme.RoundTrip`).

## Model

| member | source | states |
|---|---|---|
| `PageBitmap.RunNeedsPages` | kernel/lib/page.c:126-127 | a free run of n pages needs n free pages inside the span, so refusing early on the counters loses nothing |
| `PageBitmap.TakeBalances` | kernel/lib/page.c:111-119 | taking a free run keeps usable minus free equal to the pages handed out |
| `PageBitmap.GiveBackBalances` | kernel/lib/page.c:176-192 | giving back a run keeps that balance exactly when the run was handed out |
| `PageBitmap.SelectionExact` | kernel/lib/page.c:57-73 | a range selects exactly the pages inside it if and only if its start fits or no span page lies below its end |
| `PageBitmap.RoundedStart` | kernel/lib/page.c:62-63 | what the code computes from the rounded start is that selection |
| `PageBitmap.WrappedStartSelects` | kernel/lib/page.c:62-63 | a failing input: an empty range at the last address selects three pages |
| `PageBitmap.PageAllocator.InitSpan` | kernel/lib/page.c:39-54 | the span starts at the first page boundary from start on and holds the whole pages up to end, capped, with no page free, usable or out; a start that does not fit gives a span at 0 |
| `PageBitmap.PageAllocator.Clip` | kernel/lib/page.c:57-73 | the page range found is exactly the span's pages inside the address range if and only if the start can be rounded up within 64 bits or no span page lies below the end |
| `PageBitmap.PageAllocator.AddFree` | kernel/lib/page.c:75-88 | under that condition exactly the pages inside the range become free, each counted once; otherwise all span pages below the end do |
| `PageBitmap.PageAllocator.Reserve` | kernel/lib/page.c:90-103 | under that condition exactly the free pages inside the range leave; held pages are untouched and the balance stays |
| `PageBitmap.PageAllocator.ZeroWordHasNoFreePage` | kernel/lib/page.c:136-163 | the word skips of both searches pass over no free page |
| `PageBitmap.PageAllocator.FreePrefix` | kernel/lib/page.c:149-151 | the length of the free stretch at a page, up to the length asked for |
| `PageBitmap.PageAllocator.Take` | kernel/lib/page.c:111-119 | the run leaves the free set and enters the handed-out set, counters following |
| `PageBitmap.PageAllocator.AllocHigh` | kernel/lib/page.c:136-157 | returns the highest free run of the length, or fails only when none exists |
| `PageBitmap.PageAllocator.AllocLow` | kernel/lib/page.c:158-173 | returns the lowest free run of the length, or fails only when none exists |
| `PageBitmap.PageAllocator.Alloc` | kernel/lib/page.c:121-174 | lowest run below 16 pages, highest from 16 on, failure exactly when the span has no such run; the balance is kept |
| `PageBitmap.PageAllocator.Free` | kernel/lib/page.c:176-192 | exactly the run becomes free; the balance survives exactly when the run had been handed out |
| `Heap.BlocksDisjoint` | kernel/lib/alloc.c:38-139 | in every reachable layout any two blocks, live or on a free list, header included, occupy disjoint bytes |
| `Heap.PayloadIsPrivate` | kernel/lib/alloc.c:67-139 | no header and no free-list link lies inside the payload of a live block |
| `Heap.LargeFits` | kernel/lib/alloc.c:73-82 | a page run holds size plus header exactly when the size does not overflow the code's arithmetic |
| `Heap.SmallFits` | kernel/lib/alloc.c:73-105 | a slab block holds size plus header exactly when adding the header does not wrap |
| `Heap.LargeTight` | kernel/lib/alloc.c:73-82 | a representable large request gets less than twice the bytes it needs |
| `Heap.RefillKeeps` | kernel/lib/alloc.c:49-65 | carving a page loses none of its blocks: each is on the list of the class |
| `Heap.PopKeeps` | kernel/lib/alloc.c:99-105 | taking the head of a list loses no block |
| `Heap.ReturnKeeps` | kernel/lib/alloc.c:134-138 | returning a block to its list loses no block |
| `Heap.LargeRetireKeeps` | kernel/lib/alloc.c:127-132 | dropping a large block loses no slab block |
| `Heap.FreedIsReusedFirst` | kernel/lib/alloc.c:99-138 | a small block just freed is the next its class hands out, and then lists and slabs are as before |
| `Heap.NewSlabSeparated` | kernel/lib/alloc.c:49-65 | a fresh page given to a size class keeps all blocks apart |
| `Heap.NewLargeSeparated` | kernel/lib/alloc.c:80-87 | a fresh page run taken as a large block keeps all blocks apart |
| `Heap.PopSeparated` | kernel/lib/alloc.c:99-105 | moving a block from its free list to the live set keeps all blocks apart |
| `Heap.RetireSeparated` | kernel/lib/alloc.c:117-139 | dropping a live block keeps the others apart |
| `Heap.Allocator.SizeToClass` | kernel/lib/alloc.c:38-47 | the smallest class whose blocks hold the request with its header |
| `Heap.Allocator.OrderFor` | kernel/lib/alloc.c:76-78 | the smallest order whose run holds the pages needed |
| `Heap.Allocator.GetPages` | kernel/lib/alloc.c:80-82 | exactly the run at the address returned is taken; it was free and belongs to no block; null exactly when no run was free, and then nothing is taken, or the run taken starts at address 0 |
| `Heap.Allocator.LargeRun` | kernel/lib/alloc.c:127-131 | the run of a large block, and what the heap keeps when it is given back |
| `Heap.Allocator.Carve` | kernel/lib/alloc.c:55-64 | exactly the blocks of the page, in order, are pushed onto the list of the class; nothing else changes |
| `Heap.Allocator.Refill` | kernel/lib/alloc.c:49-65 | one fresh slab page, all its blocks on the list of the class; no change only when no page was free or page 0 of a span at address 0 was taken |
| `Heap.Allocator.PushBlock` | kernel/lib/alloc.c:134-138 | the block becomes the head of its list; the links of all lists stay intact |
| `Heap.Allocator.PopBlock` | kernel/lib/alloc.c:99-105 | exactly the last node leaves its list and becomes the live block, with a header; nothing else changes |
| `Heap.Allocator.AllocLarge` | kernel/lib/alloc.c:73-88 | a new live block of the smallest fitting order, exactly its pages taken; fails only when no run of that order was free or the run taken starts at address 0 |
| `Heap.Allocator.AllocSmall` | kernel/lib/alloc.c:90-105 | from a non-empty list exactly its last node leaves and no page is taken; from an empty one exactly one page is carved first; fails only when its list is empty and no page was free or the page taken has address 0 |
| `Heap.Allocator.Alloc` | kernel/lib/alloc.c:67-106 | the heap invariant is kept, so no block is ever lost: every block of every slab page is live or on its list; failure only for size 0, exhausted pages or a run at address 0; the new state is exactly the small or the large path's; the block holds size plus header exactly when the size is representable, and then wastes less than half unless it is of the smallest class |
| `Heap.Allocator.FreeLarge` | kernel/lib/alloc.c:127-132 | exactly the block leaves the live set and exactly its pages become free; lists and slabs stay |
| `Heap.Allocator.FreeSmall` | kernel/lib/alloc.c:134-138 | the block goes to the end of the list of its class; the other lists, the slabs and the pages stay |
| `Heap.Allocator.Free` | kernel/lib/alloc.c:117-139 | a small block goes to the end of its own list, all else unchanged; a large one gives back exactly its pages; no block is lost and nothing else becomes free |
| `Heap.Allocator.Store` | kernel/lib/alloc.c:67-139 | a client's store into its own payload keeps the whole heap invariant |
| `PageTables.SplitEntryFields` | kernel/arch/x86_64/mmio.c:79-95 | each piece of a split 1 GiB page keeps present, writable, write-through and cache-disable and points at its own 2 MiB |
| `PageTables.GraftPdpt` | kernel/arch/x86_64/mmio.c:115-121 | hanging an empty table under an absent root entry changes no translation and keeps the tree |
| `PageTables.GraftPd` | kernel/arch/x86_64/mmio.c:124-136 | hanging a page directory that spells out the old entry changes no translation |
| `PageTables.GraftPdTree` | kernel/arch/x86_64/mmio.c:124-136 | that page directory keeps the tables a tree |
| `PageTables.SetLeaf` | kernel/arch/x86_64/mmio.c:137-140 | one page-directory write changes the 2 MiB page of that entry and no other |
| `PageTables.FilledTree` | kernel/arch/x86_64/mmio.c:56-95 | filling a page that is no table changes no translation |
| `Mmio.HitsExactly` | kernel/arch/x86_64/mmio.c:102-143 | below 2^48 the table slots touched by a range are those of its own 2 MiB pages |
| `Mmio.HitsIff` | kernel/arch/x86_64/mmio.c:102-143 | the slots a range hits are exactly those of its own pages if and only if it ends below 2^48 or starts at 0 |
| `Mmio.LastRoundStays` | kernel/arch/x86_64/mmio.c:110-141 | of a range that goes round the slots more than once exactly the last round's pages are mapped to themselves |
| `Mmio.EndlessExactly` | kernel/arch/x86_64/mmio.c:106-110 | the loop's test holds for every 64-bit counter exactly when the range ends in the last 2 MiB |
| `Mmio.GrownMore` | kernel/arch/x86_64/mmio.c:102-143 | over several steps every page taken became a table and every new table was a free page |
| `Mmio.CacheBitsOf` | kernel/arch/x86_64/mmio.c:174-188 | the uncached attribute sets bits 3 and 4 of the entry, the write-combining one only bit 3 |
| `Mmio.PteReports` | kernel/arch/x86_64/mmio.c:152-172 | the reported entry is zero exactly when the address is unmapped, else it gives the address's physical page, at either depth, and its attributes |
| `Mmio.AddressSpace.AllocTable` | kernel/arch/x86_64/mmio.c:56-64 | a zeroed page that is no table, was free and is so no longer, or 0 only when no page is left or the one taken has address 0 |
| `Mmio.AddressSpace.Split1Gib` | kernel/arch/x86_64/mmio.c:79-95 | a new page holding the 512 pieces; no translation changes |
| `Mmio.AddressSpace.EnsurePdpt` | kernel/arch/x86_64/mmio.c:115-122 | the 512 GiB table exists afterwards, no translation changed and no page was taken that is not a table |
| `Mmio.AddressSpace.EnsurePd` | kernel/arch/x86_64/mmio.c:124-137 | the page directory exists afterwards, split off if need be, no translation changed and no page was taken that is not a table |
| `Mmio.AddressSpace.MapPage` | kernel/arch/x86_64/mmio.c:110-141 | one page becomes an identity page with the attribute; all others keep their translation, on failure all do |
| `Mmio.AddressSpace.MapCacheAttr` | kernel/arch/x86_64/mmio.c:102-143 | every page whose slot the range does not hit keeps its translation, on failure too; after success exactly the pages of the last round are identity pages with the requested cache bits, which is every page of a range below 2^48; new tables were free pages and every page taken is a table |
| `Mmio.AddressSpace.Map` | kernel/arch/x86_64/mmio.c:174-188 | same guarantee; below 2^48 every page of the range is mapped to itself, writable, with bits 3 and 4 set; no change and 0 for an empty or wrapping range, 0 else only when pages are exhausted |
| `Mmio.AddressSpace.MapWriteCombining` | kernel/arch/x86_64/mmio.c:276-286 | same guarantee, with bit 3 set and bit 4 clear; no change at all when the attribute slot is not set up |
| `BootMap.CoverageExact` | kernel/boot/efi/efi_stub.c:90-119 | all memory and the screen, by their true ends, are held up to 8 TiB if and only if rounding the top does not wrap and no end wraps or the top alone needs all 8 TiB |
| `BootMap.TopGibs` | kernel/boot/efi/efi_stub.c:113-119 | the gigabyte count is the least that reaches the top, when it reaches the clamp, and how many tables hold it |
| `BootMap.WrappedEndMissed` | kernel/boot/efi/efi_stub.c:95-102 | a failing input: a descriptor that ends beyond 2^64 is not covered |
| `BootMap.GibEntryFields` | kernel/boot/efi/efi_stub.c:131-137 | the entry of a gigabyte is a present large page at its own address |
| `BootMap.BuiltTree` | kernel/boot/efi/efi_stub.c:127-139 | the built tables satisfy the tree invariant the remapper needs and keeps |
| `BootMap.BuiltMeaning` | kernel/boot/efi/efi_stub.c:127-139 | the mapped gigabytes are mapped to themselves and nothing else is mapped |
| `BootMap.BuiltStep` | kernel/boot/efi/efi_stub.c:131-137 | one turn of the loop maps one more gigabyte |
| `BootMap.Top` | kernel/boot/efi/efi_stub.c:90-111 | the highest of 4 GiB, all descriptor ends and the framebuffer end, each cut to 64 bits |
| `BootMap.BuildIdentityMap` | kernel/boot/efi/efi_stub.c:82-141 | tree, identity meaning and the exact coverage condition of the finished map; failure exactly when the firmware refuses pages |
| `Machine.GrownApart` | kernel/lib/alloc.c:49-106 | a heap that grew by free pages holds no page table |
| `Machine.NewTableApart` | kernel/arch/x86_64/mmio.c:56-64 | a table made from a free page is no heap page |
| `Machine.BlockIsNoTable` | kernel/lib/alloc.c:38-139 | no byte of a block, live or free, lies in a page table |
| `Machine.SpanTop` | kernel/arch/x86_64/arch_init.c:133-146 | the span ends exactly at the highest end of conventional memory above the kernel, cut at 4 GiB |
| `Machine.SpanIsUnique` | kernel/arch/x86_64/arch_init.c:133-166 | the memory map alone decides whether there is enough memory |
| `Machine.HeapFromMap` | kernel/arch/x86_64/arch_init.c:118-166 | the span ends where conventional memory does; the free pages are exactly its whole pages of conventional memory outside the user window, none of them a page table; fails exactly when these hold less than 64 MiB |
| `Machine.StartKernel` | kernel/arch/x86_64/arch_init.c:118-174 | over tables outside conventional memory the stack starts exactly when there is enough memory, with an empty heap over exactly those pages |
| `Machine.Boot` | kernel/arch/x86_64/arch_init.c:118-174 | from the firmware's hand-over to a valid stack: identity map, empty heap over exactly the usable pages, tables apart from the heap; it fails exactly when the firmware refuses the tables or memory is short |
| `Machine.Kernel.Alloc` | kernel/lib/alloc.c:67-106 | an allocation keeps heap and tables apart and changes no translation; a failed one changes no block |
| `Machine.Kernel.Free` | kernel/lib/alloc.c:117-139 | a release gives back no page table and changes no translation; the block goes back to its list or its pages become free |
| `Machine.Kernel.Store` | kernel/lib/alloc.c:67-139 | a store through a block reaches no page table |
| `Machine.Kernel.Map` | kernel/arch/x86_64/mmio.c:174-188 | a mapping takes no page of the heap and changes no block |
| `Anxml.ImageCheck` | kernel/core/anxml/adapter.c:21-35 | accepts exactly the valid images |
| `Anxml.CountAppend` | kernel/core/anxml/anxml.c:73-119 | one character more adds exactly the bigram it completes |
| `Anxml.CountIsPlaces` | kernel/core/anxml/anxml.c:110-119 | the count of a bigram is the number of places where it stands |
| `Anxml.CorpusCountIsPlaces` | kernel/core/anxml/anxml.c:73-85 | the same over the lines of the corpus, each read after a space |
| `Anxml.BoostIsTheDelta` | kernel/core/anxml/anxml.c:202-205 | of an image with distinct pairs, the boost of a pair is that of its one delta, or 0 without one |
| `Anxml.WeightMeaning` | kernel/core/anxml/anxml.c:199-205 | an entry is 4 per place in the corpus and 8 per place in the prompt, plus exactly the delta's boost |
| `Anxml.RngIsReversible` | kernel/core/anxml/anxml.c:87-97 | the generator can be run backwards and never reaches 0 |
| `Anxml.GreedyIsFirstLargest` | kernel/core/anxml/anxml.c:133-140 | the greedy choice is the first character of largest weight |
| `Anxml.DrawLands` | kernel/core/anxml/anxml.c:141-146 | a draw below the total falls in the interval of the character returned |
| `Anxml.SampleMeaning` | kernel/core/anxml/anxml.c:122-147 | greedy: the first of the largest, a space when all are 0; seeded: the character whose interval holds the next number modulo the total |
| `Anxml.OutputShape` | kernel/core/anxml/anxml.c:207-238 | every output: only printable characters, tabs and newlines; newlines only before anything printed, or last; it ends with its budget, its buffer or a newline; greedy outputs are chained row by row |
| `Anxml.DeltaDecides` | kernel/core/anxml/anxml.c:202-238 | with seed 0 a delta whose boosted weight tops the row of the prompt's last character decides the first character |
| `Anxml.EmitPrefix` | kernel/core/anxml/anxml.c:217-235 | stopping earlier emits a prefix |
| `Anxml.LowerLimitIsPrefix` | kernel/core/anxml/anxml.c:153-241 | lowering the token limit yields a prefix of the longer output |
| `Anxml.NoCounterWraps` | kernel/core/anxml/anxml.c:73-147 | for every admissible call, with or without an image, row totals fit 32 bits |
| `Anxml.AdmitIdempotent` | kernel/core/exec/runtime.c:482-504 | applying the cell's token limit twice is applying it once |
| `Anxml.Admit` | kernel/core/exec/runtime.c:482-504 | admitted exactly outside a refusal and for a positive request; the limit is the smaller of request and ceiling |
| `Anxml.Generator.SeedText` | kernel/core/anxml/anxml.c:110-119 | the table gains exactly the bigram counts of the text |
| `Anxml.Generator.SeedCorpus` | kernel/core/anxml/anxml.c:73-85 | the table gains exactly the bigram counts of the corpus |
| `Anxml.Generator.SeedImage` | kernel/core/anxml/anxml.c:202-205 | the table gains exactly the image's boosts: each pair that of its one delta, and no other pair anything |
| `Anxml.Generator.Reset` | kernel/core/anxml/anxml.c:195-205 | nothing of earlier calls is left; with distinct deltas each entry exceeds what prompt and corpus give by exactly the boost of the delta for its pair, or by nothing |
| `Anxml.Generator.SampleNext` | kernel/core/anxml/anxml.c:122-147 | samples over the whole row as the specification does, advancing the generator state |
| `Anxml.Generator.Sampled` | kernel/core/anxml/anxml.c:207-238 | the sampling loop fills the buffer with the specified output |
| `Anxml.Generator.Generate` | kernel/core/anxml/anxml.c:153-241 | the response is a function of request, image, expected digest and envelope alone; it is given exactly when prompt, envelope, image, digest and budget allow; it stays within every token limit, has the shape of an output, and with seed 0 starts with the character of a delta that tops its row |
| `Adapter.FreshNumber` | kernel/core/anxml/adapter.c:70-93 | the next number of the one sequence has never named a version |
| `Adapter.AddVersion` | kernel/core/anxml/adapter.c:155-204 | recording a version under a fresh number keeps the history sound |
| `Adapter.Vouch` | kernel/core/anxml/adapter.c:125-154 | recording a candidate's passed trials keeps the history sound |
| `Adapter.VerifiedMeansServed` | kernel/core/anxml/adapter.c:125-174 | a published version answers every request of the verification that let it through with the expected bytes, or a prefix for a caller held to fewer tokens |
| `Adapter.CacheHitIsRecomputation` | kernel/core/anxml/adapter.c:220-256 | a matching issued key means that recomputing gives the response it was issued with |
| `Adapter.ServedOutput` | kernel/core/anxml/adapter.c:220-240 | serving a valid image succeeds exactly when the caller is admitted, with the specified output |
| `Adapter.KeyIssued` | kernel/core/anxml/adapter.c:229-240 | issuing a key for a served response keeps the history sound |
| `Adapter.Store.Find` | kernel/core/anxml/adapter.c:36-41 | the first slot with the identity, or none |
| `Adapter.Store.Create` | kernel/core/anxml/adapter.c:70-93 | a new adapter in the first free slot, whose first version is numbered like its identity, or the named refusal |
| `Adapter.Store.Stage` | kernel/core/anxml/adapter.c:105-124 | a candidate whose base is the current generation, under a fresh token, or the named refusal |
| `Adapter.Store.Try` | kernel/core/anxml/adapter.c:139-149 | all trials pass on the candidate image, or the first failure is reported |
| `Adapter.Store.Verify` | kernel/core/anxml/adapter.c:125-154 | success vouches for the candidate; any failure leaves it unverified |
| `Adapter.Store.Publish` | kernel/core/anxml/adapter.c:155-174 | only a verified candidate on the current base is served, with the trials it passed as proof; the old image becomes the prior |
| `Adapter.Store.Abort` | kernel/core/anxml/adapter.c:175-187 | only the candidate is dropped |
| `Adapter.Store.Rollback` | kernel/core/anxml/adapter.c:188-204 | the prior image is served again under a fresh number, once per publish |
| `Adapter.Store.Destroy` | kernel/core/anxml/adapter.c:205-219 | the slot is emptied; the history of versions stays |
| `Adapter.Store.Generate` | kernel/core/anxml/adapter.c:220-240 | the exact conditions of success, the served response, the key issued, and the expected bytes for every trial of the version |
| `Adapter.Store.CacheCheck` | kernel/core/anxml/adapter.c:241-256 | a yes for an issued key means that asking again gives the cached response |
| `ModelUse.Materialize` | kernel/core/anxml/model_use.c:103-117 | succeeds exactly when both sources are unchanged in the store, and then gives the recorded image and request |
| `ModelUse.IntactMeaning` | kernel/core/anxml/model_use.c:61-91 | both reads succeed exactly when the store still holds both sources to the byte, version and sensitivity |
| `ModelUse.OwnerMeaning` | kernel/core/anxml/model_use.c:37-51 | the owner passes exactly when not terminal or replaced, under its recorded parent and identity, and allowed the tokens |
| `ModelUse.RunMeaning` | kernel/core/anxml/model_use.c:173-186 | the generator agrees exactly when a view shows the recorded image to its owner and the caller's limit covers the tokens |
| `ModelUse.OutputNotEmpty` | kernel/core/anxml/model_use.c:239-246 | a generated output is never empty |
| `ModelUse.CompletedResponseOk` | kernel/core/anxml/model_use.c:239-246 | the integrity check of a stored response never fails |
| `ModelUse.ReuseEqualsExecution` | kernel/core/anxml/model_use.c:232-275 | an identical completed use holds what executing this one would give |
| `ModelUse.VerifiedRun` | kernel/core/anxml/model_use.c:160-201 | a successful run of a recorded use gives the generator's output for its record |
| `ModelUse.Uses.Access` | kernel/core/anxml/model_use.c:31-36 | allowed exactly for the owner or the controller of an existing use |
| `ModelUse.Uses.Begin` | kernel/core/anxml/model_use.c:163-172 | only a ready use at the given epoch, of an owner in order, becomes busy |
| `ModelUse.Uses.Run` | kernel/core/anxml/model_use.c:173-188 | succeeds exactly when the sources are unchanged before and after, a view is the owner's and shows the recorded image, the limit covers the tokens and the owner is in order; then gives the expected output; no record changes |
| `ModelUse.Uses.Finish` | kernel/core/anxml/model_use.c:189-201 | a busy use ends completed with the generator's output exactly when the run succeeds, never for a terminal or replaced owner; else ready exactly as before with nothing exposed |
| `ModelUse.Uses.Prepare` | kernel/core/anxml/model_use.c:118-147 | the exact conditions; records the sources as they are in the store, under a fresh number, ready, under the owner's identity |
| `ModelUse.Uses.Reuse` | kernel/core/anxml/model_use.c:247-275 | the exact conditions; never across owners or identities nor for a terminal or replaced owner; completes a ready use with the output its own execution would give |
| `ModelUse.Uses.ReuseCheck` | kernel/core/anxml/model_use.c:247-263 | the conditions of reuse, both ways; an integrity error cannot come from the stored response |
| `ModelUse.Uses.Read` | kernel/core/anxml/model_use.c:276-294 | the exact conditions; what is read is the generator's output for the recorded request |
| `ModelUse.Uses.Destroy` | kernel/core/anxml/model_use.c:211-225 | a busy use is never freed |
| `Fence.MoveUsesRevision` | kernel/core/cap/effect_fence.c:40-56 | an accepted change finds its revision unused and uses it up, at the saturated value too |
| `Fence.MoveMeaning` | kernel/core/cap/effect_fence.c:40-56 | which moves are accepted, and that an accepted one leaves the fence in the state asked for, one revision on, a new epoch exactly when it closes |
| `Fence.CheckMeaning` | kernel/core/cap/effect_fence.c:29-38 | a fence past its deadline is timed out for good, any other is left alone; what each state reports |
| `Fence.SinkMeaning` | kernel/core/cap/effect_fence.c:305-328 | a sink passes exactly when it is cleared for every read made so far; without a sink only public reads pass |
| `Fence.HoldHolds` | kernel/core/cap/effect_fence.c:129-364 | in every run, from an accepted hold until an accepted move back to running nothing is admitted through the fence |
| `Fence.ClosedIsClosed` | kernel/core/cap/effect_fence.c:40-56 | in every run, after a fence closes nothing passes it and it never moves again |
| `Fence.LogAppend` | kernel/core/cap/effect_fence.c:29-56 | each logged step was legal in the state the log gives |
| `Fence.CheckedOk` | kernel/core/cap/effect_fence.c:29-38 | expiry closes a fence at most once and keeps the fence invariant |
| `Fence.ClosedForGood` | kernel/core/cap/effect_fence.c:40-56 | a closed fence accepts no change |
| `Fence.EvolvesTransitive` | kernel/core/cap/effect_fence.c:29-56 | lawful change composes over steps |
| `Fence.LifeEvolves` | kernel/core/cap/effect_fence.c:29-56 | over any stretch of a run a fence changes lawfully |
| `Fence.ClosesOnce` | kernel/core/cap/effect_fence.c:40-56 | in a whole run a fence closes at most once, never reopens, and its epoch moves only then |
| `Fence.TrailGrows` | kernel/core/cap/effect_fence.c:269-303 | reads after a dispatch do not change what it was allowed on |
| `Fence.HighestAppend` | kernel/core/cap/effect_fence.c:269-303 | the watermark is the maximum of all reads so far |
| `Fence.DispatchedSafely` | kernel/core/cap/effect_fence.c:330-364 | every fenced effect past PREPARED was let through by a running, unexpired fence at its prepared epoch, to a sink cleared for all reads so far |
| `Fence.Fences.Create` | kernel/core/cap/effect_fence.c:58-81 | adds one fresh fence, or refuses exactly inside a cell or when full |
| `Fence.Fences.StateCheck` | kernel/core/cap/effect_fence.c:29-38 | times out a fence past its deadline and leaves any other alone, then passes exactly a running one; every move is logged |
| `Fence.Fences.ChangeState` | kernel/core/cap/effect_fence.c:40-56 | an accepted move leaves the fence in the state asked for, one revision on, and is logged; accepted exactly where legal |
| `Fence.Fences.Transition` | kernel/core/cap/effect_fence.c:129-149 | accepted exactly for the controller at the current revision before the deadline and where legal; then the fence is in the state asked for and the revision is used up |
| `Fence.Fences.SetLease` | kernel/core/cap/effect_fence.c:151-173 | accepted only at the current revision, which it uses up |
| `Fence.Fences.CreateChild` | kernel/core/cap/effect_fence.c:175-201 | children never exceed a set limit and only a successful creation is counted |
| `Fence.Fences.RequestState` | kernel/core/cap/effect_fence.c:203-235 | a bound cell holds or cancels its own fence and no other: an accepted hold leaves it held, an accepted cancel leaves it closed; the exact outcome after expiry is applied |
| `Fence.Fences.ObserveRead` | kernel/core/cap/effect_fence.c:269-303 | every read of a bound cell is remembered and the watermark is the maximum of all reads; no other fence changes |
| `Fence.Fences.CheckSink` | kernel/core/cap/effect_fence.c:305-328 | passes exactly when the sink is cleared for every read under the cell's fence |
| `Fence.Fences.FenceCheck` | kernel/core/cap/effect_fence.c:247-267 | the cell's fence and epoch in one locked step, admitted exactly while it runs before its deadline, and logged |
| `Fence.Fences.Record` | kernel/core/cap/effect.c:109-121 | the effect carries the fence and epoch found earlier, whatever happened in between |
| `Fence.Fences.Gate` | kernel/core/cap/effect_fence.c:330-364 | a fence admits an effect exactly at its prepared epoch, running before its deadline, with the sink cleared for all reads; the admission is logged |
| `Fence.Fences.Inherit` | kernel/core/exec/runtime.c:776-784 | a derived cell is bound to its parent's fence |
| `Fence.Fences.Prepare` | kernel/core/cap/effect.c:86-122 | the three steps in a row: succeeds exactly with authority, memory, a cleared sink and a running, unexpired fence; the effect carries the fence's epoch of that moment |
| `Fence.Fences.DispatchEffect` | kernel/core/cap/effect_fence.c:330-364 | PREPARED to DISPATCHING exactly with authority, the cell's own fence, its prepared epoch, a running, unexpired fence and a cleared sink; the evidence is kept |
| `Fence.Fences.Settle` | kernel/core/cap/effect.c:136-149 | commit, restore and unknown are reached only from DISPATCHING, once |
| `Fence.Fences.Bind` | kernel/core/cap/effect_fence.c:99-127 | succeeds exactly for a fresh unbound cell and a known fence, once |
| `Capability.PastForGood` | kernel/core/cap/capability.c:83-117 | once installed, no later state is a draft or a candidate |
| `Capability.ReachedFrom` | kernel/core/cap/capability.c:83-117 | the table read the other way: where each status can be reached from |
| `Capability.ValidatedFirst` | kernel/core/cap/capability.c:83-208 | in every run from a draft, a validated status comes before any installed, suspended or superseded one |
| `Capability.NoWayBack` | kernel/core/cap/capability.c:83-208 | in every run what was superseded is never installed again and retirement is final |
| `Capability.ChecksMeaning` | kernel/core/cap/capability.c:52-247 | the three checks together ask exactly: a name, rights within the known ones, the ceiling and those of a caller that may install, and at most 8 distinct engines, all registered and usable |
| `Capability.InstallCheck` | kernel/core/cap/capability.c:249-268 | the checks pass exactly then, and a calling cell that passes may install and holds every right granted |
| `Capability.WithinTransitive` | kernel/core/cap/capability.c:52-81 | authority inclusion composes along a chain |
| `Capability.WithinRootCeiling` | kernel/core/cap/capability.c:249-348 | whatever the chain of supersessions, a granted authority lies within the ceiling of the chain's root |
| `Capability.NewGrantOk` | kernel/core/cap/capability.c:249-288 | a grant within its ceiling or its incumbent's grant is sound |
| `Capability.InstallGrants` | kernel/core/cap/capability.c:249-288 | an installation keeps every grant inside the one it came from |
| `Capability.UpdateKeeps` | kernel/core/cap/capability.c:185-208 | changes that leave the grant state alone keep all grants sound |
| `Capability.InstalledWithoutGrant` | kernel/core/cap/capability.c:185-208 | the lifecycle call alone installs a capability with no grant, authority 0 and no engine, and keeps all grants sound |
| `Capability.Store.Create` | kernel/core/cap/capability.c:124-168 | a new draft without ceiling, grant or engine, exactly when memory is left |
| `Capability.Store.SetCeiling` | kernel/core/cap/capability.c:40-50 | a ceiling is set only before installation; a root's ceiling is frozen afterwards |
| `Capability.Store.Transition` | kernel/core/cap/capability.c:185-208 | accepted exactly along the lifecycle table and the revision gate; grants and ceilings do not move |
| `Capability.Store.DoInstall` | kernel/core/cap/capability.c:249-288 | the exact conditions, in bits and sets; grants no right outside the ceiling given or outside those of the calling cell, which may install; or changes nothing |
| `Capability.Store.Install` | kernel/core/cap/capability.c:290-310 | the exact conditions; a root is granted its declared authority, within its own ceiling and the rights of the calling cell |
| `Capability.Store.InstallGated` | kernel/core/cap/capability.c:312-348 | the exact conditions; a successor is granted its declared authority, within what its incumbent was granted and the rights of the calling cell |
| `Capability.Store.Uninstall` | kernel/core/cap/capability.c:350-374 | the engine goes; grant and status stay |
| `Json.CharsOfEscape` | kernel/lib/json.c:72-136 | reading an escaped text up to its quote gives the text back |
| `Json.NumberOfPrinted` | kernel/lib/json.c:140-187 | reading a printed integer gives it back and stops behind it |
| `Json.AccumulatorFits` | kernel/lib/json.c:157-161 | where the number fits in 63 bits every value of the 64-bit accumulator does |
| `Json.ItemsPrinted` | kernel/lib/json.c:193-265 | reading printed array items gives the items back |
| `Json.MembersPrinted` | kernel/lib/json.c:271-359 | reading printed members gives the members back, in order |
| `Json.ParsePrinted` | kernel/lib/json.c:363-412 | parsing a printed value with 63-bit numbers gives the value back, wherever in a text it stands |
| `Json.RoundTrip` | kernel/lib/json.c:416-433 | parsing a printed document gives the document back |
| `JsonText.SkipsBlank` | kernel/lib/json.c:26-36 | what is skipped is blanks, tabs and line ends only |
| `JsonText.CharsSound` | kernel/lib/json.c:72-136 | an accepted string is a sequence of plain and escaped characters with that meaning |
| `JsonText.DecimalIsValue` | kernel/lib/json.c:157-161 | digits read left to right give the value by their weights |
| `JsonText.NumberSound` | kernel/lib/json.c:140-187 | an accepted number is a sign, digits, and a fraction and exponent that do not count |
| `JsonText.Sound` | kernel/lib/json.c:363-412 | what the parser consumes is a text of the language, with the value as its meaning |
| `JsonText.Complete` | kernel/lib/json.c:363-412 | every text of the language, with white space between tokens, escapes, fractions and exponents, parses to its meaning |
| `JsonText.ParsesExactly` | kernel/lib/json.c:416-433 | a whole text parses to a value if and only if it is a document of that value |
| `JsonText.MeaningIsUnique` | kernel/lib/json.c:416-433 | no text is a document of two values |
| `JsonText.NumberSpellings` | kernel/lib/json.c:140-187 | 1.5 and 1e3 both read as 1 |
| `JsonText.EscapeSpellings` | kernel/lib/json.c:107-131 | the escapes of backspace and form feed |
| `JsonParser.Parser.SkipWs` | kernel/lib/json.c:26-36 | moves over white space and no further |
| `JsonParser.Parser.Match` | kernel/lib/json.c:46-54 | takes the expected character exactly when it comes next |
| `JsonParser.Parser.MatchWord` | kernel/lib/json.c:56-65 | takes the literal exactly when it stands at the cursor |
| `JsonParser.Parser.CountChars` | kernel/lib/json.c:86-99 | finds the closing quote and the length of the unescaped text |
| `JsonParser.Parser.CopyChars` | kernel/lib/json.c:107-131 | copies the unescaped text |
| `JsonParser.Parser.Str` | kernel/lib/json.c:72-136 | two passes over the input compute the one-pass grammar of strings |
| `JsonParser.Parser.Num` | kernel/lib/json.c:140-187 | computes the grammar of numbers, errors included |
| `JsonParser.Parser.Arr` | kernel/lib/json.c:193-265 | the item loop computes the grammar of arrays |
| `JsonParser.Parser.Obj` | kernel/lib/json.c:271-359 | the member loop computes the grammar of objects |
| `JsonParser.Parser.Val` | kernel/lib/json.c:363-412 | the cursor parser computes the grammar of values on every input and terminates |
| `RequestBody.BodyIsPrinted` | kernel/core/agent/model_client.c:114-140 | the builder's text is the printed request document |
| `RequestBody.BodyParsesBack` | kernel/core/agent/model_client.c:114-140 | the kernel's parser reads exactly the model, token limit, system text and message back |
| `RequestBody.StrAppend` | kernel/core/agent/model_client.c:85-91 | appends the text, cut where one byte is left |
| `RequestBody.EscapeAppend` | kernel/core/agent/model_client.c:51-83 | appends the escaped text, cut before a character that might not fit |
| `RequestBody.CollectDigits` | kernel/core/agent/model_client.c:96-107 | the digits of the number, last one first |
| `RequestBody.IntAppend` | kernel/core/agent/model_client.c:93-112 | appends the decimal form of the number |
| `RequestBody.BuildRequestBody` | kernel/core/agent/model_client.c:114-140 | succeeds exactly when the whole body fits with a byte to spare, and then holds exactly the body |
| `Audio.Saturate` | kernel/core/audio/audio.c:60-65 | a 16-bit sample is left alone and everything else lands on the nearer end of the range |
| `Audio.Decode` | kernel/core/audio/audio.c:73-104 | every width reads its top 16 bits, little-endian and signed; 8 bits are shifted up, other widths read 0 |
| `Audio.DropLow` | kernel/core/audio/audio.c:85-104 | a signed shift right drops the low bytes and keeps the sign |
| `Audio.FrameInside` | kernel/core/audio/audio.c:177-207 | a frame index below the total reads inside the clip |
| `Audio.ReadFrame` | kernel/core/audio/audio.c:177-207 | the left and right samples of the frame, the same one twice for mono |
| `Audio.Blend` | kernel/core/audio/audio.c:289-297 | interpolation is the point on the line between its two samples, rounded down |
| `Audio.Scale` | kernel/core/audio/audio.c:299-302 | unity leaves a sample alone; any other volume is its Q15 product rounded to the nearest, in 16 bits |
| `Audio.GeneralFrameMeaning` | kernel/core/audio/audio.c:261-306 | a cursor position contributes the point on the line between its two frames, the last frame held, at the stream's volume |
| `Audio.GeneralClosed` | kernel/core/audio/audio.c:261-311 | without a loop frame k is read at cursor start plus k steps, and the run ends at the first cursor past the source |
| `Audio.LoopRestarts` | kernel/core/audio/audio.c:261-311 | a looping run never ends and goes on from the start of the source |
| `Audio.General` | kernel/core/audio/audio.c:261-311 | as many frames as asked for unless the source ends, all within 16 bits |
| `Audio.FastFrameIsGeneral` | kernel/core/audio/audio.c:215-249 | at whole positions both mixers read the same frame |
| `Audio.FastIsGeneral` | kernel/core/audio/audio.c:215-319 | the fast path gives the frames, cursor and end of the general path |
| `Audio.GeneralSplits` | kernel/core/audio/audio.c:261-311 | mixing n+m frames is mixing n and then m |
| `Audio.MixGeneral` | kernel/core/audio/audio.c:261-311 | adds exactly the specified frames to the accumulator |
| `Audio.MixFast` | kernel/core/audio/audio.c:215-249 | adds exactly the fast path's frames to the accumulator |
| `Audio.MixOne` | kernel/core/audio/audio.c:314-319 | whichever path is chosen, the general mixer's frames from the whole cursor are added; the cursor stays whole on the fast path |
| `Audio.MixBound` | kernel/core/audio/audio.c:533-545 | the sum of up to 16 streams stays inside 32 bits |
| `Audio.AddVoice` | kernel/core/audio/audio.c:533-539 | one stream more in the sum, its cursor and end reported |
| `Audio.ClampAll` | kernel/core/audio/audio.c:541-545 | every sample is clamped |
| `Audio.PullChunk` | kernel/core/audio/audio.c:498-562 | every output sample is the clamped exact sum of all streams; the longest run is reported and exactly the streams that did not end go on, at sound cursors |
| `Audio.MovedOk` | kernel/core/audio/audio.c:541-558 | a stream keeps its cursor invariant over a chunk: a 64-bit word, whole on the fast path |
| `Audio.MixSplits` | kernel/core/audio/audio.c:565-587 | the sum over a long stretch is that of its first chunk, then that of the streams still live |
| `Audio.LongestSplits` | kernel/core/audio/audio.c:565-587 | the longest run goes on exactly while a stream is live |
| `Audio.LongestMeaning` | kernel/core/audio/audio.c:541-562 | the length reported is that of the longest run |
| `Audio.LiveMeaning` | kernel/core/audio/audio.c:541-562 | the streams that go on are exactly those that did not end, in order, at their new cursors |
| `Audio.LiveSplits` | kernel/core/audio/audio.c:565-587 | the streams live after a long stretch are those live after its chunks |
| `Audio.MixPull` | kernel/core/audio/audio.c:565-587 | pulling in chunks gives the frames of one long mix, as many as the longest stream has, and leaves the streams where one long mix would |
| `Audio.StepOf` | kernel/core/audio/audio.c:144-151 | the step is the rate over 48000 in 32.32, rounded down |
| `Audio.FramesToPlay` | kernel/core/audio/cell.c:60-73 | the least number of output frames that covers the clip at its rate |
| `Audio.CursorInside` | kernel/core/audio/audio.c:144-151 | the rounded-down step keeps every planned frame inside the source |
| `Audio.PlaysInFull` | kernel/core/audio/cell.c:60-75 | a clip yields every planned frame, or any clamped number of them, frame k at cursor k times the step, without ending, looping or wrapping |
| `ThemeText.FindsItself` | kernel/core/theme.c:509-598 | no two keys are equal: each is found at its own place |
| `ThemeText.ParseNumber` | kernel/core/theme.c:492-507 | accepts exactly the decimal texts whose value is at most the maximum |
| `ThemeText.NumberPrinted` | kernel/core/theme.c:690-691 | a printed number is read back |
| `ThemeText.ParseColor` | kernel/core/theme.c:464-490 | accepts exactly six hexadecimal digits behind an optional prefix |
| `ThemeText.ColorPrinted` | kernel/core/theme.c:694-700 | a printed 24-bit colour is read back |
| `ThemeText.ColorBound` | kernel/core/theme.c:464-490 | every accepted colour has 24 bits |
| `ThemeText.FamilyRoundTrip` | kernel/lib/font.c:22-44 | every font family is found by its name |
| `ThemeText.SchemePaletteOk` | kernel/core/theme.c:35-163 | every built-in palette is complete and has 24-bit colours |
| `Theme.DefaultsStorable` | kernel/core/theme.c:295-378 | both presets can be written and read back |
| `Theme.FieldRoundTrip` | kernel/core/theme.c:563-583 | a field value in table range is read back from its text |
| `Theme.SchemeMeaning` | kernel/core/theme.c:177-196 | which scheme names there are, the old one included, the font and controls that come with each, and what a scheme leaves alone |
| `Theme.PairLeavesRest` | kernel/core/theme.c:509-598 | every other pair changes its own setting only; square corners also set the radius to 0, a changed colour also makes the scheme custom |
| `Theme.FieldTable` | kernel/core/theme.c:437-460 | the limits of every field, by its key, and which fields are switches |
| `Theme.PresetFields` | kernel/core/theme.c:295-378 | the field values of both presets |
| `Theme.PairKeepsStorable` | kernel/core/theme.c:509-598 | every accepted pair keeps a theme storable; a mode makes any theme storable |
| `Theme.TextKeepsStorable` | kernel/core/theme.c:600-637 | every accepted text keeps a theme storable |
| `Theme.LineApplies` | kernel/core/theme.c:607-632 | a written line is read as its pair, whatever follows |
| `Theme.TakesField` | kernel/core/theme.c:678-693 | reading one field line takes over that field |
| `Theme.TakesColor` | kernel/core/theme.c:694-700 | reading one colour line takes over that colour without losing a true scheme name |
| `Theme.TakesRest` | kernel/core/theme.c:678-702 | reading all remaining lines leaves exactly the written theme |
| `Theme.RoundTrip` | kernel/core/theme.c:600-703 | a theme's text, applied over any earlier theme, restores it exactly if and only if it is storable |
| `Theme.Apply` | kernel/core/theme.c:509-598 | the table searches and parsing loops apply exactly the specified pair |
| `Theme.TakePair` | kernel/core/theme.c:616-621 | takes the whole pair, failing exactly when it does not fit the buffer |
| `Theme.Store.ApplyConfig` | kernel/core/theme.c:600-637 | rejected text leaves the theme untouched; accepted text applies all pairs in order and keeps it storable |
| `Theme.Store.Serialize` | kernel/core/theme.c:657-703 | the text is complete, and produced exactly when it is shorter than the buffer |
| `Identity.LittleInjective` | kernel/core/identity.c:48-52 | a word is determined by its bytes |
| `Identity.LowByteFirst` | kernel/core/identity.c:48-52 | the lowest byte comes first |
| `Identity.WireParts` | kernel/core/identity.c:54-68 | the tag and the place of every field in the signed bytes |
| `Identity.WireInjective` | kernel/core/identity.c:54-68 | two acceptable commitments never share their bytes |
| `Identity.PutWord` | kernel/core/identity.c:48-52 | writes exactly the word's bytes at the offset |
| `Identity.Encode` | kernel/core/identity.c:54-68 | refuses exactly the unacceptable commitments before writing, else writes the wire form |
| `Identity.ChainExtends` | kernel/core/identity.c:156-193 | an accepted successor extends a chain |
| `Identity.NextLink` | kernel/core/identity.c:173-183 | a successor passes the checks if and only if it is the next link of the chain |
| `Identity.RootLink` | kernel/core/identity.c:119-124 | a root passes the checks if and only if it is the first link of a chain and the caller is no cell |
| `Identity.EntriesCount` | kernel/core/identity.c:132-135 | there are as many entries as identities |
| `Identity.HeadFixesHistory` | kernel/core/identity.c:70-77 | equal head digests mean equal histories, unless the wire bytes of the heads or of two records at one place are a hash collision |
| `Identity.AddRoot` | kernel/core/identity.c:113-154 | a new root keeps every entry showing the head of its own chain |
| `Identity.AddNext` | kernel/core/identity.c:156-193 | an accepted successor keeps every entry showing the head of its own chain |
| `Identity.Registry.BeginWrite` | kernel/core/identity.c:17-29 | at most one caller is ever inside |
| `Identity.Registry.EndWrite` | kernel/core/identity.c:31-37 | the owner leaves and nobody is inside |
| `Identity.Registry.FindEntry` | kernel/core/identity.c:39-46 | the first entry of the identity, or none |
| `Identity.Registry.CreateReserved` | kernel/core/identity.c:128-153 | the exact outcome, and one new history of one record on success |
| `Identity.Registry.Create` | kernel/core/identity.c:113-154 | accepted if and only if the caller is no cell, the registry is free and not full, the identity new, memory and store succeed and the root is the first link of a chain; the outcome in the order of the checks; histories only grow |
| `Identity.Registry.TransitionReserved` | kernel/core/identity.c:168-192 | accepted if and only if the record is stored and is the next link of the identity's chain; one record more, naming its predecessor's object, on success |
| `Identity.Registry.Transition` | kernel/core/identity.c:156-193 | accepted if and only if the registry is free and the record is stored and is the next link of the identity's chain; on success the history gains exactly this record |
| `Identity.Registry.Get` | kernel/core/identity.c:195-207 | the head of the identity's chain with its digest, present exactly when a history exists |
| `Civil.YearStartClosed` | kernel/lib/civil.c:29-37 | counting year by year has the closed form the algorithm uses |
| `Civil.DayNumberOrder` | kernel/lib/civil.c:29-37 | day numbers follow calendar order |
| `Civil.DayNumberInjective` | kernel/lib/civil.c:29-37 | a day number names one date |
| `Civil.SplitDay` | kernel/lib/civil.c:16-23 | day and second of the day for negative times too |
| `Civil.YearOfEraExact` | kernel/lib/civil.c:31-33 | the year formula is exact on all 146097 days of an era |
| `Civil.MonthOfYear` | kernel/lib/civil.c:34-36 | the month formula is exact on all days of a year |
| `Civil.DateExact` | kernel/lib/civil.c:29-37 | for every day the date is a valid Gregorian date whose day number is that day |
| `Civil.YearFits` | kernel/lib/civil.c:37-37 | the first and last day whose year fits 32 bits |
| `Civil.FromUnixExact` | kernel/lib/civil.c:13-38 | the date is right exactly on those days, and there the 64-bit sum does not overflow; time of day and weekday are right wherever it does not |
| `Civil.RoundTrip` | kernel/lib/civil.c:13-38 | a date and time is read back from its own timestamp |
| `Huffman.ShorterMiss` | kernel/lib/jpeg.c:175-183 | the prefixes of a code are above every shorter code |
| `Huffman.SearchExact` | kernel/lib/jpeg.c:170-185 | the search that compares only upper limits finds a value if and only if the bits start with its canonical code |
| `Huffman.PrefixFree` | kernel/lib/jpeg.c:152-168 | no code is a prefix of another |
| `Huffman.IndexInRange` | kernel/lib/jpeg.c:179-181 | no bit string indexes outside the 256 values if and only if the table's reach, computed from the counts, is at most 256 |
| `Huffman.ReachExact` | kernel/lib/jpeg.c:170-185 | the values that can come back are exactly those below the reach |
| `Huffman.FitsReachesAll` | kernel/lib/jpeg.c:152-168 | the reach is the number of values counted if and only if the codes fit their lengths |
| `Huffman.LongTableOverruns` | kernel/lib/jpeg.c:170-185 | a failing input: 255 nine-bit and 255 ten-bit codes index value 300 |
| `Huffman.CodesFitInt` | kernel/lib/jpeg.c:152-168 | the running code stays inside 32 bits |
| `Huffman.CodeDecodes` | kernel/lib/jpeg.c:170-185 | the code of a value decodes to it, whatever follows |
| `Huffman.OverfullLosesAValue` | kernel/lib/jpeg.c:152-168 | every value of a table can be decoded from some bits if and only if no length has more codes than fit |
| `Huffman.RoundTrip` | kernel/lib/jpeg.c:170-185 | decoding a coded run of values gives the values back |
| `Huffman.Tables.Build` | kernel/lib/jpeg.c:152-168 | the running counters build the canonical table |
| `Huffman.Reader.Decode` | kernel/lib/jpeg.c:170-185 | within the array's reach returns the value found and consumes exactly its code, or consumes nothing |

## Left out

- Heap.Allocator.Alloc: requests of more than 2^31 pages after truncation are excluded, because the source's 32-bit shift is undefined there.
- PageBitmap.PageAllocator.Alloc: orders of 64 and more are excluded, because the source's shift is undefined there.
- Mmio.AddressSpace.MapCacheAttr: excludes ranges that end in the last 2 MiB of the 64-bit space, where the source's loop never ends (Mmio.EndlessExactly); physical addresses of 2^52 and more, which the entries cannot hold, are left out of the identity result.
- Mmio.AddressSpace.Map: excludes the same endless ranges.
- Mmio.AddressSpace.MapWriteCombining: excludes the same endless ranges when the attribute slot is set up.
- Mmio.AddressSpace.Split1Gib: only present, writable, write-through and cache-disable are carried over, as in the source; user and no-execute bits are not modelled.
- Audio.General: a looping empty clip is excluded, because it would read past its data; the kernel itself never sets the loop flag. A clip is validated with a 64-bit product that is taken not to wrap.
- Audio.PullChunk: changes to the stream table by other callers between snapshot and write-back are not modelled.
- RequestBody.BuildRequestBody: buffers of fewer than two bytes are excluded, because the source's unsigned `cap - 2` wraps there; the only caller passes 4096.
- Json.ParsePrinted: numbers are bounded to 63 bits and a sign; texts with larger numbers parse to unbounded values here, where the source's accumulator overflows. Allocation always succeeds; recursion depth is not bounded by a stack.
- JsonText.ParsesExactly: numbers of more than 63 bits mean unbounded values here too.
- Civil.FromUnixExact: the result where the 64-bit sum of timestamp and offset overflows is undefined in C and not modelled; no such input has a right date.
- Huffman.Reader.Decode: refilling, byte stuffing and markers are not modelled, so the bits must last for the search; tables beyond the reach of the 256 values, which read outside the array in C, are excluded by Huffman.IndexInRange's condition.
- ModelUse.Uses.Run: reading a source object is one step; changes to the object while it is read are not modelled.
- Identity.Registry.Get: a nil identity is reported as absent; null pointers are not modelled anywhere.
- Machine.HeapFromMap: the fallback to the linker's heap region and the rejection of a malformed map are not modelled; the memory map is taken to be well formed.
- Pools and arenas of the allocator, page statistics: they would add easy members.
- TLB flushes, PAT and CR registers, spin locks: hardware effects with no effect on the modelled state.
- Cell binding and admission of identities, fence and adapter read-outs: field copies and mask tests.
- Response parsing and the HTTP part of the model client, the audio sinks and clip validation: input and output.
- Direct palette writes of the theme tools, fonts and drawing: user interface.
- JPEG markers, transforms and colour conversion: approximate arithmetic and input plumbing.
- SHA-256 and Ed25519 themselves.
- The other kernel services, drivers, shell tools and the user-space programs.
