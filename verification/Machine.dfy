/**
 * The memory stack as one machine: the boot map of `BootMap`, the page heap that
 * kernel/arch/x86_64/arch_init.c builds from the firmware's memory map, and the heap of `Heap`
 * beside the page tables of `Mmio`, all over one page allocator.  Whatever the order of calls,
 * no page table is ever part of the heap.
 */
module Machine {
  import opened Words
  import opened PageBitmap
  import opened Heap
  import opened PageTables
  import opened Mmio
  import opened BootMap

  const HEAP_LIMIT: nat := 0x1_0000_0000
  const USER_MIN: nat := 0x200_0000
  const USER_MAX: nat := 0x800_0000
  const HEAP_MIN_USABLE: nat := 0x400_0000

  /** A descriptor of the memory map: only conventional memory may be used. */
  datatype Region = Region(memory: Descriptor, conventional: bool)

  /** No page table belongs to the heap. */
  ghost predicate Apart(l: Layout, roles: map<nat, Role>) {
    forall t | t in roles :: Fresh(l, t / 4096)
  }

  /** What the firmware promises of conventional memory: whole pages inside 64 bits, none of them a table. */
  ghost predicate Usable(r: Region, tables: set<nat>) {
    r.conventional ==>
      && r.memory.start % 4096 == 0 && TrueEnd(r.memory) < TWO64 - 4096
      && forall t | t in tables :: !(r.memory.start <= t < TrueEnd(r.memory))
  }

  ghost predicate NoneFree(base: nat, free: set<nat>, tables: set<nat>) {
    forall t, p: nat | t in tables && p in free :: t != base + p * 4096
  }

  lemma PageOfTable(base: nat, t: nat, p: nat)
    requires base % 4096 == 0 && t % 4096 == 0
    ensures t == base + p * 4096 <==> t / 4096 == base / 4096 + p
  {
  }

  /** The heap grew by pages that were free, and tables are never free. */
  lemma GrownApart(before: Layout, after: Layout, roles: map<nat, Role>, base: nat, free: set<nat>)
    requires Apart(before, roles) && base % 4096 == 0 && forall t | t in roles :: Aligned(t)
    requires forall t, p: nat | t in roles && p in free :: t != base + p * 4096
    requires forall p: nat | !Fresh(after, p) && Fresh(before, p) :: Held(base, free, p)
    ensures Apart(after, roles)
  {
    hide Fresh;
    forall t | t in roles ensures Fresh(after, t / 4096) {
      var p := t / 4096;
      assert Fresh(before, p);
      if Held(base, free, p) {
        PageOfTable(base, t, p - base / 4096);
      }
    }
  }

  /** The tables grew by pages that were free, and pages of the heap are never free. */
  lemma NewTableApart(l: Layout, base: nat, free: set<nat>, out: set<nat>, t: nat)
    requires Backed(l, base, out) && out !! free && base % 4096 == 0 && Names(base, free, t)
    ensures Fresh(l, t / 4096)
  {
    var p := (t - base) / 4096;
    assert t == base + p * 4096;
    PageOfTable(base, t, p);
    assert !Held(base, out, t / 4096);
  }

  lemma BackedByMore(l: Layout, base: nat, out: set<nat>, more: set<nat>)
    requires Backed(l, base, out) && out <= more
    ensures Backed(l, base, more)
  {
    forall p | Held(base, out, p) ensures Held(base, more, p) {
    }
  }

  /** No byte of a block, live or free, lies in a table page. */
  lemma BlockIsNoTable(l: Layout, roles: map<nat, Role>, a: nat, c: nat, t: nat)
    requires Separated(l) && Apart(l, roles) && IsBlock(l, a, c) && t in roles && Aligned(t)
    ensures a + Extent(c) <= t || t + 4096 <= a
  {
    assert Fresh(l, t / 4096);
    if c <= MAX_CLASS {
      assert Small(l.live, a) || OnList(l.lists, a, c);
      assert Slot(l.slabs, a, c);
      SlotFits(l.slabs, a, c);
    } else {
      assert Large(l.live, a);
      assert !Spans(l.live, a, t / 4096);
    }
  }

  class Kernel {
    const pages: PageAllocator
    const heap: Allocator
    const space: AddressSpace

    ghost predicate Valid()
      reads this, heap, space, pages, pages.bitmap
    {
      && heap.pages == pages && space.pages == pages
      && heap.Valid() && space.Valid() && Apart(heap.l, space.roles)
    }

    constructor (pages: PageAllocator, root: nat, mem: Memory, ghost roles: map<nat, Role>)
      requires pages.Valid() && pages.Conserved()
      requires pages.heapBase + pages.totalPages * 4096 <= 0x10_0000_0000_0000
      requires Tree(mem, root, roles) && NoneFree(pages.heapBase, pages.free, roles.Keys)
      ensures Valid() && this.pages == pages && space.root == root && space.mem == mem && space.roles == roles
      ensures fresh(heap) && fresh(space) && heap.l.live == map[]
    {
      this.pages := pages;
      heap := new Allocator(pages);
      space := new AddressSpace(pages, root, mem, roles);
    }

    /** An allocation: the tables and every translation stay as they are. */
    method Alloc(size: nat) returns (ptr: nat, ghost b: Block)
      requires Valid() && size < TWO64
      requires WithHeader(size) > 4096 ==> PagesNeeded(size) <= 0x8000_0000
      modifies heap, pages, pages.bitmap
      ensures Valid() && space.mem == old(space.mem) && space.roles == old(space.roles)
      ensures ptr == 0 ==> heap.l == old(heap.l)
      ensures ptr != 0 ==> ptr > 8 && ptr - 8 !in old(heap.l.live) && heap.l.live == old(heap.l.live)[ptr - 8 := b]
    {
      hide Fresh, Separated, Recorded, Backed, Tree, Balanced, NothingLost, Freed, Unheld, Served, TookRun;
      ptr, b := heap.Alloc(size);
      SpaceAligned(space);
      GrownApart(old(heap.l), heap.l, space.roles, pages.heapBase, old(pages.free));
    }

    /** A release: pages go back, but never a table's. */
    method Free(ptr: nat)
      requires Valid() && (ptr != 0 ==> ptr >= 8 && ptr - 8 in heap.l.live)
      modifies heap, pages, pages.bitmap
      ensures Valid() && space.mem == old(space.mem) && space.roles == old(space.roles)
      ensures heap.l.live == if ptr == 0 then old(heap.l.live) else old(heap.l.live) - {ptr - 8}
      ensures if ptr == 0 then heap.l == old(heap.l)
              else Freed(old(heap.l), heap.l, ptr - 8, old(heap.PageLedger()), heap.PageLedger(), pages.heapBase)
    {
      hide Fresh, Separated, Recorded, Backed, Tree, Balanced, NothingLost, Freed, Unheld, Served, TookRun;
      heap.Free(ptr);
      SpaceAligned(space);
      forall t, p: nat | t in space.roles && p in pages.free ensures t != pages.heapBase + p * 4096 {
        PageOfTable(pages.heapBase, t, p);
      }
    }

    /** A client's store through its block reaches no table. */
    method Store(base: nat, offset: nat, value: nat)
      requires Valid() && base in heap.l.live && 8 <= offset < Extent(heap.l.live[base].cls) && offset % 8 == 0
      modifies heap`mem
      ensures Valid() && heap.l == old(heap.l)
      ensures forall t | t in space.roles :: base + offset < t || t + 4096 <= base + offset
    {
      hide Fresh, Separated, Recorded, Backed, Tree, Balanced, Extent;
      SpaceAligned(space);
      forall t | t in space.roles ensures base + offset < t || t + 4096 <= base + offset {
        BlockIsNoTable(heap.l, space.roles, base, heap.l.live[base].cls, t);
      }
      heap.Store(base, offset, value);
    }

    /** A mapping: new tables come from free pages, so the heap keeps every block. */
    method Map(phys: nat, size: nat) returns (r: nat)
      requires Valid() && phys < TWO64 && size < TWO64 && !Endless(phys, size)
      modifies space`mem, space`roles, pages, pages.bitmap
      ensures Valid() && heap.l == old(heap.l) && heap.mem == old(heap.mem)
      ensures size > 0 ==> forall n | !Hits(n, phys / MIB2, (phys + size - 1) / MIB2 + 1) ::
          Translate(space.mem, space.root, n) == Translate(old(space.mem), space.root, n)
      ensures r != 0 && size > 0 && phys + size <= TWO52 ==> space.Served(phys, size, 0x18)
    {
      hide Fresh, Separated, Recorded, Backed, Tree, Translate, Hits, Identity;
      r := space.Map(phys, size);
      BackedByMore(heap.l, pages.heapBase, old(pages.out), pages.out);
      forall t | t in space.roles ensures Fresh(heap.l, t / 4096) {
        if t !in old(space.roles) {
          NewTableApart(heap.l, pages.heapBase, old(pages.free), old(pages.out), t);
        }
      }
    }
  }

  lemma SpaceAligned(space: AddressSpace)
    requires space.Valid()
    ensures forall t | t in space.roles :: Aligned(t)
    ensures space.pages.heapBase % 4096 == 0
  {
  }

  // ----- starting up -----

  /** Where a region ends for the heap: at most at 4 GiB. */
  function CutEnd(r: Region): nat {
    if TrueEnd(r.memory) > HEAP_LIMIT then HEAP_LIMIT else TrueEnd(r.memory)
  }

  /** A region that reaches above the kernel. */
  predicate Above(r: Region, base: nat) { r.conventional && TrueEnd(r.memory) > base }

  /** The top of the span: the highest end of conventional memory above `base`; 0 if there is none. */
  method SpanTop(regions: seq<Region>, base: nat, ghost tables: set<nat>) returns (top: nat)
    requires forall i | 0 <= i < |regions| :: Usable(regions[i], tables)
    ensures top <= HEAP_LIMIT && top % 4096 == 0
    ensures forall i | 0 <= i < |regions| && Above(regions[i], base) :: CutEnd(regions[i]) <= top
    ensures top == 0 || exists i | 0 <= i < |regions| :: Above(regions[i], base) && CutEnd(regions[i]) == top
  {
    top := 0;
    for i := 0 to |regions|
      invariant top <= HEAP_LIMIT && top % 4096 == 0
      invariant forall j | 0 <= j < i && Above(regions[j], base) :: CutEnd(regions[j]) <= top
      invariant top == 0 || exists j | 0 <= j < i :: Above(regions[j], base) && CutEnd(regions[j]) == top
    {
      assert Usable(regions[i], tables);
      if Above(regions[i], base) && CutEnd(regions[i]) > top {
        top := CutEnd(regions[i]);
      }
    }
  }

  /** The span of `total` pages from `base` ends where conventional memory below 4 GiB does. */
  ghost predicate IsSpan(regions: seq<Region>, base: Address, total: nat) {
    && total > 0
    && (forall i | 0 <= i < |regions| && Above(regions[i], base) :: CutEnd(regions[i]) <= base + total * 4096)
    && exists i | 0 <= i < |regions| :: Above(regions[i], base) && CutEnd(regions[i]) == base + total * 4096
  }

  /** The whole pages of conventional memory in the span, outside the window of user programs. */
  ghost predicate HeapPages(free: set<nat>, regions: seq<Region>, base: Address, total: nat) {
    forall p: nat :: p in free <==>
      && p < total && InConventional(regions, |regions|, base, p)
      && !Inside(base, p, USER_MIN, USER_MAX)
  }

  ghost predicate EnoughMemory(regions: seq<Region>, base: Address) {
    exists total: nat, free: set<nat> ::
      IsSpan(regions, base, total) && HeapPages(free, regions, base, total) && |free| * 4096 >= HEAP_MIN_USABLE
  }

  lemma SpanIsUnique(regions: seq<Region>, base: Address, total: nat, free: set<nat>)
    requires IsSpan(regions, base, total) && HeapPages(free, regions, base, total)
    ensures EnoughMemory(regions, base) <==> |free| * 4096 >= HEAP_MIN_USABLE
  {
    hide InConventional;
    if EnoughMemory(regions, base) {
      var total', free': set<nat> :| IsSpan(regions, base, total') && HeapPages(free', regions, base, total')
                                     && |free'| * 4096 >= HEAP_MIN_USABLE;
      assert total' == total;
      assert free' == free;
    }
  }

  /**
   * `heap_from_memmap` on a trustworthy map: the free pages are exactly the whole pages of
   * conventional memory in the span that are not in the window of user programs, so no table
   * is among them.  It fails exactly when these are too few.
   */
  method HeapFromMap(pages: PageAllocator, regions: seq<Region>, base: nat, ghost tables: set<nat>) returns (ok: bool)
    requires pages.Valid() && base % 4096 == 0 && base < HEAP_LIMIT
    requires forall i | 0 <= i < |regions| :: Usable(regions[i], tables)
    modifies pages, pages.bitmap
    ensures pages.Valid()
    ensures ok <==> EnoughMemory(regions, base)
    ensures ok ==>
        && pages.Conserved() && pages.out == {} && pages.heapBase == base
        && base + pages.totalPages * 4096 <= HEAP_LIMIT && pages.usablePages * 4096 >= HEAP_MIN_USABLE
        && IsSpan(regions, base, pages.totalPages) && HeapPages(pages.free, regions, base, pages.totalPages)
        && NoneFree(base, pages.free, tables)
  {
    hide PageAllocator.BitsValid, Balanced, Usable, InConventional;
    var top := SpanTop(regions, base, tables);
    if top <= base {
      return false;
    }
    StartSpan(pages, base, top);
    NoRegions(regions, base);
    var i := 0;
    while i < |regions|
      invariant 0 <= i <= |regions| && pages.Valid() && pages.Conserved() && pages.out == {}
      invariant pages.heapBase == base && base + pages.totalPages * 4096 == top
      invariant forall p: nat :: p in pages.free <==> p < pages.totalPages && InConventional(regions, i, base, p)
    {
      RegionStep(regions, i, base);
      if regions[i].conventional {
        AddRegion(pages, regions, i, tables);
      }
      i := i + 1;
    }
    ReserveWindow(pages);
    forall t, p: nat | t in tables && p in pages.free ensures t != base + p * 4096 {
      ConventionalIsNoTable(regions, base, p, tables, t);
    }
    SpanIsUnique(regions, base, pages.totalPages, pages.free);
    CountsFree(pages);
    ok := pages.usablePages * 4096 >= HEAP_MIN_USABLE;
  }

  /** Page `p` lies wholly in one of the first `n` regions, a conventional one. */
  ghost predicate InConventional(regions: seq<Region>, n: nat, base: nat, p: nat)
    requires n <= |regions|
  {
    exists i | 0 <= i < n :: regions[i].conventional && InRegion(regions[i], base, p)
  }

  predicate InRegion(r: Region, base: nat, p: nat) {
    r.memory.start <= base + p * 4096 && base + (p + 1) * 4096 <= TrueEnd(r.memory)
  }

  lemma NoRegions(regions: seq<Region>, base: nat)
    ensures forall p: nat :: !InConventional(regions, 0, base, p)
  {
  }

  lemma RegionStep(regions: seq<Region>, i: nat, base: nat)
    requires i < |regions|
    ensures forall p: nat :: InConventional(regions, i + 1, base, p) <==>
              InConventional(regions, i, base, p) || (regions[i].conventional && InRegion(regions[i], base, p))
  {
  }

  lemma ConventionalIsNoTable(regions: seq<Region>, base: nat, p: nat, tables: set<nat>, t: nat)
    requires forall i | 0 <= i < |regions| :: Usable(regions[i], tables)
    requires InConventional(regions, |regions|, base, p) && t in tables
    ensures t != base + p * 4096
  {
    var i :| 0 <= i < |regions| && regions[i].conventional && InRegion(regions[i], base, p);
    assert Usable(regions[i], tables);
  }

  lemma CountsFree(pages: PageAllocator)
    requires pages.Valid() && pages.Conserved() && pages.out == {}
    ensures pages.usablePages == |pages.free|
  {
  }

  method StartSpan(pages: PageAllocator, base: nat, top: nat)
    requires pages.Valid() && base % 4096 == 0 && top % 4096 == 0 && base < top <= HEAP_LIMIT
    modifies pages, pages.bitmap
    ensures pages.Valid() && pages.Conserved() && pages.out == {} && pages.free == {}
    ensures pages.heapBase == base && base + pages.totalPages * 4096 == top
  {
    pages.InitSpan(base, top);
    assert pages.heapBase == base;
    if pages.totalPages > 0 {
      assert Selected(base, pages.totalPages - 1, base, top);
    }
    var n := (top - base) / 4096;
    assert Selected(base, n - 1, base, top);
    assert !Selected(base, n, base, top);
  }

  /** The window of user programs is taken out of use. */
  method ReserveWindow(pages: PageAllocator)
    requires pages.Valid() && pages.Conserved()
    modifies pages`free, pages`freeCount, pages`usablePages, pages.bitmap
    ensures pages.Valid() && pages.Conserved()
    ensures forall p: nat :: p in pages.free <==> p in old(pages.free) && !Inside(pages.heapBase, p, USER_MIN, USER_MAX)
  {
    pages.Reserve(USER_MIN, USER_MAX);
    forall p: nat ensures p in old(pages.free) ==> p < pages.totalPages {
    }
  }

  method AddRegion(pages: PageAllocator, regions: seq<Region>, i: nat, ghost tables: set<nat>)
    requires pages.Valid() && pages.Conserved() && pages.out == {} && i < |regions|
    requires regions[i].conventional && Usable(regions[i], tables)
    modifies pages`free, pages`freeCount, pages`usablePages, pages.bitmap
    ensures pages.Valid() && pages.Conserved()
    ensures forall p: nat :: p in pages.free <==>
        p in old(pages.free) || (p < pages.totalPages && InRegion(regions[i], pages.heapBase, p))
  {
    hide PageAllocator.BitsValid, Balanced;
    var r := regions[i];
    pages.AddFree(r.memory.start, TrueEnd(r.memory));
    forall p: nat
      ensures Inside(pages.heapBase, p, r.memory.start, TrueEnd(r.memory)) <==> InRegion(r, pages.heapBase, p)
    {
    }
  }

  /**
   * From the firmware's hand-over to a running memory stack: the boot map is built, the page
   * heap is laid out beside it, and from then on heap and tables stay apart.
   */
  method Boot(mem: Memory, descriptors: seq<Descriptor>, fb: Framebuffer, allocate: nat -> Grant, regions: seq<Region>,
              base: nat) returns (k: Kernel?, ghost top: nat)
    requires Firmware(allocate) && base % 4096 == 0 && base < HEAP_LIMIT
    requires forall n: nat | allocate(n).At? && n <= 1 + MAX_PDPT ::
               forall i | 0 <= i < |regions| :: Usable(regions[i], TablePages(allocate(n).tables, n))
    ensures IsTop(top, descriptors, fb)
    ensures k != null <==> allocate(1 + PdptCount(top)).At? && EnoughMemory(regions, base)
    ensures k != null ==>
        && fresh(k) && k.Valid() && k.heap.l.live == map[]
        && k.pages.heapBase == base && HeapPages(k.pages.free, regions, base, k.pages.totalPages)
        && IsSpan(regions, base, k.pages.totalPages)
        && forall n: nat | n < SLOTS :: Translate(k.space.mem, k.space.root, n) ==
             if n / 512 < Gibs(top) then Mapped(n * MIB2, 3) else Unmapped
  {
    hide Tree, Translate, IsTop, Usable, Roles, EnoughMemory, IsSpan, HeapPages;
    k := null;
    var r;
    r, top := BuildIdentityMap(mem, descriptors, fb, allocate);
    if r.Loaded? {
      RolesAreTablePages(r.root, PdptCount(top));
      ghost var tables := TablePages(r.root, 1 + PdptCount(top));
      k := StartKernel(r.mem, r.root, Roles(r.root, PdptCount(top)), regions, base, tables);
    }
  }

  /** The memory stack over tables that lie outside conventional memory. */
  method StartKernel(mem: Memory, root: nat, ghost roles: map<nat, Role>, regions: seq<Region>, base: nat,
                     ghost tables: set<nat>) returns (k: Kernel?)
    requires Tree(mem, root, roles) && roles.Keys <= tables && base % 4096 == 0 && base < HEAP_LIMIT
    requires forall i | 0 <= i < |regions| :: Usable(regions[i], tables)
    ensures k != null <==> EnoughMemory(regions, base)
    ensures k != null ==>
        && fresh(k) && k.Valid() && k.heap.l.live == map[] && k.space.mem == mem && k.space.root == root
        && k.pages.heapBase == base && HeapPages(k.pages.free, regions, base, k.pages.totalPages)
        && IsSpan(regions, base, k.pages.totalPages)
  {
    hide Tree, Usable, EnoughMemory, IsSpan, HeapPages, PageAllocator.BitsValid, Balanced;
    k := null;
    var pages := new PageAllocator();
    var ok := HeapFromMap(pages, regions, base, tables);
    if ok {
      k := new Kernel(pages, root, mem, roles);
    }
  }

  /** The pages of a grant. */
  ghost function TablePages(tables: nat, n: nat): (s: set<nat>)
    ensures forall t :: t in s <==> exists i: nat :: i < n && t == tables + i * 4096
  {
    if n == 0 then {} else TablePages(tables, n - 1) + {tables + (n - 1) * 4096}
  }

  lemma RolesAreTablePages(tables: nat, pdpts: nat)
    requires pdpts <= MAX_PDPT
    ensures Roles(tables, pdpts).Keys <= TablePages(tables, 1 + pdpts)
  {
    hide Roles;
    forall t | t in Roles(tables, pdpts) ensures t in TablePages(tables, 1 + pdpts) {
      if t == tables {
        assert t == tables + 0 * 4096;
      } else {
        var i: Index :| i < pdpts && t == Pdpt0(tables, i);
        assert t == tables + (i + 1) * 4096;
      }
    }
  }
}
