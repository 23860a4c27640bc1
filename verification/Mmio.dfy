/**
 * Changing cache attributes in place: split_1gib, map_cache_attr and the two mapping
 * calls of kernel/arch/x86_64/mmio.c, over the tables of `PageTables` and the page
 * allocator of `PageBitmap`.
 */
module Mmio {
  import opened Words
  import opened PageBitmap
  import opened PageTables

  const UNCACHED: nat := 0x18
  const WRITE_COMBINING: nat := 0x08

  // The 2 MiB pages below 2^48, one per slot of the tables.
  const SLOTS: nat := 0x800_0000
  const TWO52: nat := 0x10_0000_0000_0000

  /** 2 MiB pages `p` and `n` share one slot of the tables. */
  predicate SameSlot(p: nat, n: nat) { I4(p) == I4(n) && I3(p) == I3(n) && I2(p) == I2(n) }

  /** Some page of `[first, limit)` uses the slot of page `n`. */
  ghost predicate Hits(n: nat, first: nat, limit: nat) {
    exists p: nat :: first <= p < limit && SameSlot(p, n)
  }

  lemma SlotOfPage(p: nat, n: nat)
    ensures SameSlot(p, n) <==> p % SLOTS == n % SLOTS
  {
    SlotNumber(p);
    SlotNumber(n);
  }

  lemma SlotNumber(n: nat)
    ensures n % SLOTS == I4(n) * 0x4_0000 + I3(n) * 512 + I2(n)
  {
    assert n / 512 / 512 == n / 0x4_0000;
    assert n / 0x4_0000 / 512 == n / SLOTS;
  }

  /** Below 2^48 the slots a range hits are exactly those of its own pages. */
  lemma HitsExactly(n: nat, first: nat, limit: nat)
    requires n < SLOTS && limit <= SLOTS
    ensures Hits(n, first, limit) <==> first <= n < limit
  {
    hide SameSlot;
    forall p: nat | p < SLOTS ensures SameSlot(p, n) <==> p == n {
      SlotOfPage(p, n);
    }
    assert SameSlot(n, n);
    if Hits(n, first, limit) {
      var p: nat :| first <= p < limit && SameSlot(p, n);
      assert p == n;
    }
  }

  /**
   * The slots a range hits are exactly those of its own pages below 2^48 if and only if the
   * range ends there or starts at 0: any other range rewrites the slot of a page outside it.
   */
  lemma HitsIff(first: nat, limit: nat)
    requires first < limit
    ensures (forall n: nat | n < SLOTS :: Hits(n, first, limit) <==> first <= n < limit) <==>
            limit <= SLOTS || first == 0
  {
    if limit <= SLOTS {
      forall n: nat | n < SLOTS ensures Hits(n, first, limit) <==> first <= n < limit {
        HitsExactly(n, first, limit);
      }
    } else if first == 0 {
      forall n: nat | n < SLOTS ensures Hits(n, first, limit) {
        assert SameSlot(n, n);
      }
    } else {
      var p := if first >= SLOTS then first else SLOTS;
      SlotOfPage(p, p % SLOTS);
      assert Hits(p % SLOTS, first, limit);
    }
  }

  /** 2 MiB page `n` meets `[phys, phys + size)`. */
  predicate Touches(n: nat, phys: nat, size: nat) {
    n * MIB2 < phys + size && phys < (n + 1) * MIB2 && size > 0
  }

  lemma TouchesHits(phys: nat, size: nat)
    requires size > 0 && phys + size <= TWO48
    ensures forall n: nat | n < SLOTS ::
              Touches(n, phys, size) <==> Hits(n, phys / MIB2, (phys + size - 1) / MIB2 + 1)
    ensures forall n: nat | Touches(n, phys, size) :: phys / MIB2 <= n <= (phys + size - 1) / MIB2
  {
    forall n: nat | n < SLOTS
      ensures Touches(n, phys, size) <==> Hits(n, phys / MIB2, (phys + size - 1) / MIB2 + 1)
    {
      HitsExactly(n, phys / MIB2, (phys + size - 1) / MIB2 + 1);
    }
  }

  lemma HitsGrow(first: nat, n: nat)
    requires first <= n
    ensures forall m :: Hits(m, first, n + 1) <==> Hits(m, first, n) || SameSlot(n, m)
  {
    forall m ensures Hits(m, first, n + 1) <==> Hits(m, first, n) || SameSlot(n, m) {
      hide SameSlot;
    }
  }

  lemma SlotDiffers(n: nat, m: nat)
    requires m < n < m + SLOTS
    ensures !SameSlot(n, m)
  {
    SlotOfPage(n, m);
    hide SameSlot;
    assert n % SLOTS == n - n / SLOTS * SLOTS && m % SLOTS == m - m / SLOTS * SLOTS;
  }

  lemma SlotsDiffer(n: nat)
    ensures forall m: nat | m < n < m + SLOTS :: !SameSlot(n, m)
  {
    hide SameSlot;
    forall m: nat | m < n < m + SLOTS ensures !SameSlot(n, m) {
      SlotDiffers(n, m);
    }
  }

  /** A page is rewritten again when its slot comes round once more; only the last round stays. */
  lemma LastRoundStays(mem: Memory, root: nat, first: nat, last: nat, attr: nat, n: nat)
    requires forall m: nat | first <= m <= last && last < m + SLOTS :: Identity(mem, root, m, attr)
    requires first <= n <= last
    ensures last < n + SLOTS <==> Identity(mem, root, n, attr)
  {
    if n + SLOTS <= last {
      var q := last - (last - n) % SLOTS;
      assert q - n == (last - n) / SLOTS * SLOTS;
      SameRound(n, q, (last - n) / SLOTS);
      assert Identity(mem, root, q, attr);
    }
  }

  lemma SameRound(n: nat, q: nat, k: nat)
    requires q == n + k * SLOTS
    ensures SameSlot(q, n)
  {
    DivModUnique(q, SLOTS, n / SLOTS + k, n % SLOTS);
    SlotOfPage(q, n);
  }

  lemma HitsWider(first: nat, n: nat, limit: nat)
    requires n <= limit
    ensures forall m :: Hits(m, first, n) ==> Hits(m, first, limit)
  {
  }

  /** 2 MiB page `n` is a writable page mapped to itself with exactly the cache bits `attr`. */
  ghost predicate Identity(mem: Memory, root: nat, n: nat, attr: nat) {
    Translate(mem, root, n) == Mapped(n * MIB2, 3 + attr)
  }

  /** 2 MiB page `n` is writable and mapped to itself, with these two cache bits. */
  ghost predicate CacheBits(mem: Memory, root: nat, n: nat, writeThrough: bool, cacheDisable: bool) {
    && Translate(mem, root, n).Mapped? && Translate(mem, root, n).physical == n * 0x20_0000
    && var a := Translate(mem, root, n).attributes;
    a % 2 == 1 && a / 2 % 2 == 1 && (a / 8 % 2 == 1 <==> writeThrough) && (a / 16 % 2 == 1 <==> cacheDisable)
  }

  lemma CacheBitsOf(mem: Memory, root: nat, n: nat)
    ensures Identity(mem, root, n, UNCACHED) ==> CacheBits(mem, root, n, true, true)
    ensures Identity(mem, root, n, WRITE_COMBINING) ==> CacheBits(mem, root, n, true, false)
  {
  }

  /** The walk of `anx_mmio_pte` stops at a 1 GiB page. */
  predicate GibWalk(mem: Memory, root: nat, n: nat) {
    && (root, I4(n)) in mem && Present(mem[(root, I4(n))])
    && var pdpt := Target(mem[(root, I4(n))]);
    (pdpt, I3(n)) in mem && Present(mem[(pdpt, I3(n))]) && Big(mem[(pdpt, I3(n))])
  }

  /** `anx_mmio_pte` tells the truth: what it reports is how the address is mapped. */
  lemma PteReports(mem: Memory, root: nat, roles: map<nat, Role>, n: nat)
    requires Tree(mem, root, roles)
    ensures Walk(mem, root, n) == 0 <==> Translate(mem, root, n).Unmapped?
    ensures Walk(mem, root, n) != 0 ==>
              && Big(Walk(mem, root, n))
              && Translate(mem, root, n).attributes == Attributes(Walk(mem, root, n))
              && Translate(mem, root, n).physical ==
                 if GibWalk(mem, root, n) then Base1G(Walk(mem, root, n)) + I2(n) * MIB2 else Base2M(Walk(mem, root, n))
  {
    hide I4, I3, I2, Target, Attributes, Base1G, Base2M, Big, Aligned;
    assert !Present(0);
    if Present(mem[(root, I4(n))]) {
      var pdpt := Target(mem[(root, I4(n))]);
      assert pdpt in roles && roles[pdpt].Pdpt?;
      var e := mem[(pdpt, I3(n))];
      if Present(e) && !Big(e) {
        assert Target(e) in roles && roles[Target(e)].Pd?;
      }
    }
  }

  lemma PageEntryFields(n: nat, attr: nat)
    requires attr == 0 || attr == 8 || attr == 16 || attr == 24
    ensures Present(PageEntry(n, attr)) && Big(PageEntry(n, attr))
    ensures n < 0x8000_0000 ==> Base2M(PageEntry(n, attr)) == n * MIB2
    ensures Attributes(PageEntry(n, attr)) == 3 + attr
  {
    var base := n * MIB2;
    LowBits(base, 131 + attr);
    AttributesFrame(base, 131 + attr);
    LowByte(attr);
    PageBase(n, attr);
    hide Attributes, Base2M;
  }

  lemma LowByte(attr: nat)
    requires attr == 0 || attr == 8 || attr == 16 || attr == 24
    ensures Attributes(131 + attr) == 3 + attr && (131 + attr) / 128 % 2 == 1
  {
  }

  lemma PageBase(n: nat, attr: nat)
    requires attr <= 24
    ensures n < 0x8000_0000 ==> Base2M(PageEntry(n, attr)) == n * MIB2
  {
    hide Attributes;
    var e := PageEntry(n, attr);
    assert e == 4096 * (512 * n) + (131 + attr);
    assert e / 4096 == 512 * n;
    assert n < 0x8000_0000 ==> Target(e) == 4096 * (512 * n) == MIB2 * n;
  }

  lemma LeafReached(mem: Memory, root: nat, roles: map<nat, Role>, pdpt: nat, pd: nat, n: nat, attr: nat)
    requires Tree(mem, root, roles) && pd in roles && attr in {0, 8, 16, 24} && n < 0x8000_0000
    requires Present(mem[(root, I4(n))]) && Target(mem[(root, I4(n))]) == pdpt && pdpt in roles
    requires Present(mem[(pdpt, I3(n))]) && !Big(mem[(pdpt, I3(n))]) && Target(mem[(pdpt, I3(n))]) == pd
    requires mem[(pd, I2(n))] == PageEntry(n, attr)
    ensures Identity(mem, root, n, attr)
  {
    PageEntryFields(n, attr);
  }

  /** Address `t` is that of one of the pages. */
  predicate Names(base: nat, pages: set<nat>, t: nat) {
    t >= base && (t - base) % 4096 == 0 && (t - base) / 4096 in pages
  }

  ghost predicate Spent(base: nat, before: set<nat>, after: set<nat>, roles: map<nat, Role>) {
    forall p: nat | p in before && p !in after :: base + p * 4096 in roles || (base == 0 && p == 0)
  }

  /** New tables were free pages, and every page taken is a table now. */
  ghost predicate Grown(base: nat, roles: map<nat, Role>, free: set<nat>, roles': map<nat, Role>, free': set<nat>) {
    && roles.Keys <= roles'.Keys && free' <= free
    && (forall t | t in roles' && t !in roles :: Names(base, free, t))
    && Spent(base, free, free', roles')
  }

  lemma NotGrown(base: nat, roles: map<nat, Role>, free: set<nat>)
    ensures Grown(base, roles, free, roles, free)
  {
  }

  lemma GrownMore(base: nat, roles: map<nat, Role>, free: set<nat>, roles': map<nat, Role>, free': set<nat>,
                  roles'': map<nat, Role>, free'': set<nat>)
    requires Grown(base, roles, free, roles', free') && Grown(base, roles', free', roles'', free'')
    ensures Grown(base, roles, free, roles'', free'')
  {
    forall p: nat | p in free && p !in free'' ensures base + p * 4096 in roles'' || (base == 0 && p == 0) {
      assert p !in free' ==> base + p * 4096 in roles'.Keys || (base == 0 && p == 0);
    }
  }

  lemma GrownByOne(base: nat, roles: map<nat, Role>, free: set<nat>, t: nat, roles': map<nat, Role>, free': set<nat>)
    requires TookOne(base, free, free', t) && free' <= free
    requires if t == 0 then roles' == roles else t in roles' && roles'.Keys == roles.Keys + {t} && Names(base, free, t)
    ensures Grown(base, roles, free, roles', free')
  {
  }

  ghost predicate TookOne(base: nat, before: set<nat>, after: set<nat>, t: nat) {
    forall p: nat | p in before && p !in after :: base + p * 4096 == t
  }

  lemma OnePage()
    ensures Pow2(0) == 1
  {
  }

  class AddressSpace {
    const pages: PageAllocator
    const root: nat
    var mem: Memory
    ghost var roles: map<nat, Role>

    /** No table page is free for someone else to take. */
    ghost predicate Kept(free: set<nat>)
      reads `roles, pages`heapBase
    {
      forall t, p: nat | t in roles && p in free :: t != pages.heapBase + p * 4096
    }

    ghost predicate Valid()
      reads this, pages, pages.bitmap
    {
      && pages.Valid() && pages.Conserved()
      && pages.heapBase + pages.totalPages * 4096 <= 0x10_0000_0000_0000
      && Tree(mem, root, roles)
      && Kept(pages.free)
    }

    /** Take over the tables the boot loader built. */
    constructor (pages: PageAllocator, root: nat, mem: Memory, ghost roles: map<nat, Role>)
      requires pages.Valid() && pages.Conserved()
      requires pages.heapBase + pages.totalPages * 4096 <= 0x10_0000_0000_0000
      requires Tree(mem, root, roles)
      requires forall t, p: nat | t in roles && p in pages.free :: t != pages.heapBase + p * 4096
      ensures Valid() && this.pages == pages && this.root == root && this.mem == mem && this.roles == roles
    {
      this.pages, this.root, this.mem, this.roles := pages, root, mem, roles;
    }

    /** Everything means what it meant before, and tables are only added. */
    twostate predicate Same()
      reads this
    {
      forall n :: Translate(mem, root, n) == Translate(old(mem), root, n)
    }

    /** The allocator has no page left, or gave the page at address 0, which reads as failure. */
    twostate predicate Exhausted()
      reads pages
    {
      pages.free == {} || (pages.heapBase == 0 && 0 in old(pages.free) && 0 !in pages.free)
    }

    /** Pages were only taken from the free ones, each taken one now handed out. */
    twostate predicate Drawn()
      reads pages
    {
      && pages.heapBase == old(pages.heapBase) && pages.totalPages == old(pages.totalPages)
      && pages.free <= old(pages.free) && old(pages.out) <= pages.out
    }

    /** New tables are pages that were free, and every page taken is one (page 0 at address 0 is lost). */
    twostate predicate NewTables()
      reads `roles, pages
    {
      Grown(pages.heapBase, old(roles), old(pages.free), roles, pages.free)
    }

    /** At most one page was taken: the one at `t`, or, when `t` is 0, page 0 at address 0. */
    twostate predicate OneTaken(t: nat)
      reads pages
    {
      TookOne(pages.heapBase, old(pages.free), pages.free, t)
    }

    /** One page from the page allocator, used by no table. */
    method TakePage() returns (t: nat)
      requires Valid()
      modifies pages, pages.bitmap
      ensures Valid() && Drawn()
      ensures t == 0 ==> Exhausted()
      ensures OneTaken(t)
      ensures t != 0 ==> Aligned(t) && t !in roles && Names(pages.heapBase, old(pages.free), t)
      ensures t != 0 ==> forall p | p in pages.free :: t != pages.heapBase + p * 4096
    {
      hide Tree, Balanced, Shows, Run, Pow2;
      ghost var at;
      OnePage();
      t, at := pages.Alloc(0);
      if at == -1 {
        assert forall p: nat :: IsRun(pages.free, pages.totalPages, p, 1) <==> p in pages.free;
        assert pages.free == {};
      } else {
        assert at in Run(at, 1) && at in old(pages.free);
        assert t == pages.heapBase + at * 4096 && (t - pages.heapBase) / 4096 == at;
      }
    }

    /** A zeroed page from the page allocator, or 0. */
    method AllocTable() returns (t: nat)
      requires Valid()
      modifies `mem, pages, pages.bitmap
      ensures Valid() && Same() && Drawn()
      ensures t == 0 ==> Exhausted() && mem == old(mem)
      ensures OneTaken(t)
      ensures t != 0 ==> Names(pages.heapBase, old(pages.free), t)
      ensures t != 0 ==> Aligned(t) && t !in roles && Filled(old(mem), mem, t, i => 0)
      ensures t != 0 ==> forall p | p in pages.free :: t != pages.heapBase + p * 4096
    {
      t := TakePage();
      if t != 0 {
        Zero(t);
        FilledTree(old(mem), mem, root, roles, t, i => 0);
      }
    }

    method Zero(t: nat)
      modifies `mem
      ensures Filled(old(mem), mem, t, i => 0)
    {
      var i := 0;
      while i < 512
        invariant 0 <= i <= 512
        invariant forall k: Index | k < i :: (t, k) in mem && mem[(t, k)] == 0
        invariant forall u, k: Index | u != t ::
          ((u, k) in mem <==> (u, k) in old(mem)) && ((u, k) in mem ==> mem[(u, k)] == old(mem)[(u, k)])
      {
        mem := mem[(t, i) := 0];
        i := i + 1;
      }
    }

    /** The 512 pieces of a 1 GiB page, in a fresh page directory, or 0. */
    method Split1Gib(e: nat) returns (t: nat)
      requires Valid()
      modifies `mem, pages, pages.bitmap
      ensures Valid() && Same() && Drawn()
      ensures t == 0 ==> Exhausted() && mem == old(mem)
      ensures OneTaken(t)
      ensures t != 0 ==> Names(pages.heapBase, old(pages.free), t)
      ensures t != 0 ==> Aligned(t) && t !in roles && Filled(old(mem), mem, t, i => SplitEntry(e, i))
      ensures t != 0 ==> forall p | p in pages.free :: t != pages.heapBase + p * 4096
    {
      t := AllocTable();
      if t != 0 {
        ghost var zeroed := mem;
        WritePieces(t, e);
        FilledTree(zeroed, mem, root, roles, t, i => SplitEntry(e, i));
      }
    }

    method WritePieces(t: nat, e: nat)
      modifies `mem
      ensures Filled(old(mem), mem, t, i => SplitEntry(e, i))
    {
      hide SplitEntry;
      var i := 0;
      while i < 512
        invariant 0 <= i <= 512
        invariant forall k: Index | k < i :: (t, k) in mem && mem[(t, k)] == SplitEntry(e, k)
        invariant forall u, k: Index | u != t ::
          ((u, k) in mem <==> (u, k) in old(mem)) && ((u, k) in mem ==> mem[(u, k)] == old(mem)[(u, k)])
      {
        mem := mem[(t, i) := SplitEntry(e, i)];
        i := i + 1;
      }
    }

    /** The table of a 512 GiB region, created when absent. */
    method EnsurePdpt(i4: Index) returns (ok: bool)
      requires Valid()
      modifies `mem, `roles, pages, pages.bitmap
      ensures Valid() && Same() && Drawn() && NewTables()
      ensures !ok ==> Exhausted()
      ensures ok ==> Present(mem[(root, i4)])
    {
      hide Grown, TookOne;
      NotGrown(pages.heapBase, roles, pages.free);
      if !Present(mem[(root, i4)]) {
        var t := AllocTable();
        if t == 0 {
          GrownByOne(pages.heapBase, roles, old(pages.free), t, roles, pages.free);
          return false;
        }
        GraftPdpt(mem, root, roles, t, i4);
        TableEntryFields(t);
        mem := mem[(root, i4) := TableEntry(t)];
        roles := roles[t := Pdpt(i4)];
        GrownByOne(pages.heapBase, old(roles), old(pages.free), t, roles, pages.free);
      }
      ok := true;
    }

    /** The page directory of a GiB, created when absent, split off when a 1 GiB page. */
    method EnsurePd(pdpt: nat, i3: Index) returns (ok: bool)
      requires Valid() && pdpt in roles && roles[pdpt].Pdpt?
      modifies `mem, `roles, pages, pages.bitmap
      ensures Valid() && Same() && Drawn() && NewTables()
      ensures !ok ==> Exhausted()
      ensures forall i: Index :: mem[(root, i)] == old(mem)[(root, i)]
      ensures forall t | t in old(roles) :: t in roles && roles[t] == old(roles[t])
      ensures ok ==> Present(mem[(pdpt, i3)]) && !Big(mem[(pdpt, i3)])
    {
      hide Grown, TookOne, SplitEntry;
      NotGrown(pages.heapBase, roles, pages.free);
      ok := true;
      if !Present(mem[(pdpt, i3)]) {
        var t := AllocTable();
        if t != 0 {
          GraftNewPd(pdpt, i3, t, i => 0);
        }
        GrownByOne(pages.heapBase, old(roles), old(pages.free), t, roles, pages.free);
        ok := t != 0;
      } else if Big(mem[(pdpt, i3)]) {
        var e := mem[(pdpt, i3)];
        var t := Split1Gib(e);
        if t != 0 {
          GraftNewPd(pdpt, i3, t, i => SplitEntry(e, i));
        }
        GrownByOne(pages.heapBase, old(roles), old(pages.free), t, roles, pages.free);
        ok := t != 0;
      }
    }

    method GraftNewPd(pdpt: nat, i3: Index, t: nat, ghost fill: Index -> nat)
      requires Valid() && pdpt in roles && roles[pdpt].Pdpt?
      requires Aligned(t) && t !in roles && Spells(mem[(pdpt, i3)], fill)
      requires forall p | p in pages.free :: t != pages.heapBase + p * 4096
      requires forall i: Index :: (t, i) in mem && mem[(t, i)] == fill(i)
      modifies `mem, `roles
      ensures Valid() && Same()
      ensures mem == old(mem)[(pdpt, i3) := TableEntry(t)]
      ensures roles == old(roles)[t := Pd(old(roles[pdpt]).i4, i3)]
      ensures Present(mem[(pdpt, i3)]) && !Big(mem[(pdpt, i3)])
    {
      GraftPdTree(mem, root, roles, pdpt, i3, t, fill);
      GraftPd(mem, root, roles, pdpt, i3, t, fill);
      TableEntryFields(t);
      mem := mem[(pdpt, i3) := TableEntry(t)];
      roles := roles[t := Pd(roles[pdpt].i4, i3)];
    }

    /** One step of the loop: page `n` becomes an identity page with cache bits `attr`. */
    method MapPage(n: nat, attr: nat) returns (ok: bool)
      requires Valid() && attr in {0, 8, 16, 24}
      modifies `mem, `roles, pages, pages.bitmap
      ensures Valid() && Drawn() && NewTables()
      ensures !ok ==> Exhausted() && Same()
      ensures ok && n < 0x8000_0000 ==> Identity(mem, root, n, attr)
      ensures forall m | !SameSlot(n, m) :: Translate(mem, root, m) == Translate(old(mem), root, m)
    {
      hide Grown, Translate, PageAllocator.BitsValid, Balanced;
      ok := EnsurePdpt(I4(n));
      if !ok {
        return;
      }
      var pdpt := Target(mem[(root, I4(n))]);
      ghost var mid, more := pages.free, roles;
      ok := EnsurePd(pdpt, I3(n));
      GrownMore(pages.heapBase, old(roles), old(pages.free), more, mid, roles, pages.free);
      if !ok {
        return;
      }
      var pd := Target(mem[(pdpt, I3(n))]);
      assert pd in roles && roles[pd] == Pd(I4(n), I3(n));
      PageEntryFields(n, attr);
      SetLeaf(mem, root, roles, pd, I2(n), PageEntry(n, attr));
      mem := mem[(pd, I2(n)) := PageEntry(n, attr)];
      if n < 0x8000_0000 {
        LeafReached(mem, root, roles, pdpt, pd, n, attr);
      }
    }

    /**
     * `map_cache_attr`: the 2 MiB pages touching `[base, base + size)`.  Whatever the outcome,
     * a page whose slot the range does not hit keeps its meaning.  After success exactly the
     * pages of the last round through the slots are identity pages with `attr`; below 2^48
     * those are all pages of the range.
     */
    method MapCacheAttr(base: nat, size: nat, attr: nat) returns (ok: bool)
      requires Valid() && attr in {0, 8, 16, 24} && size > 0
      requires base + size - 1 < TWO64 - MIB2
      modifies `mem, `roles, pages, pages.bitmap
      ensures Valid() && Drawn() && NewTables()
      ensures !ok ==> Exhausted()
      ensures forall n | !Hits(n, base / MIB2, (base + size - 1) / MIB2 + 1) ::
          Translate(mem, root, n) == Translate(old(mem), root, n)
      ensures ok && base + size <= TWO52 ==> Served(base, size, attr)
    {
      hide Translate, SameSlot, Tree, PageAllocator.BitsValid, Balanced, Hits, Grown;
      NotGrown(pages.heapBase, roles, pages.free);
      var first, last := base / MIB2, (base + size - 1) / MIB2;
      var n := first;
      ok := true;
      while n <= last
        invariant first <= n <= last + 1 && ok
        invariant Valid() && Drawn() && NewTables()
        invariant forall m | !Hits(m, first, n) :: Translate(mem, root, m) == Translate(old(mem), root, m)
        invariant base + size <= TWO52 ==>
          forall m: nat | first <= m < n && n <= m + SLOTS :: Identity(mem, root, m, attr)
      {
        ghost var before, mid, more := mem, pages.free, roles;
        ok := MapPage(n, attr);
        GrownMore(pages.heapBase, old(roles), old(pages.free), more, mid, roles, pages.free);
        HitsGrow(first, n);
        if !ok {
          HitsWider(first, n + 1, last + 1);
          return;
        }
        if base + size <= TWO52 {
          assert n <= last < 0x8000_0000;
          SlotsDiffer(n);
          assert Identity(mem, root, n, attr);
          forall m: nat | first <= m < n && n < m + SLOTS ensures Identity(mem, root, m, attr) {
            assert Identity(before, root, m, attr) && !SameSlot(n, m);
          }
        }
        n := n + 1;
      }
      if base + size <= TWO52 {
        forall m: nat | first <= m <= last ensures last < m + SLOTS <==> Identity(mem, root, m, attr) {
          LastRoundStays(mem, root, first, last, attr, m);
        }
      }
    }

    /** Of the pages of a range, exactly those of the last round are identity pages with `attr`. */
    ghost predicate Served(base: nat, size: nat, attr: nat)
      requires size > 0
      reads this
    {
      forall n: nat | base / MIB2 <= n <= (base + size - 1) / MIB2 ::
        (base + size - 1) / MIB2 < n + SLOTS <==> Identity(mem, root, n, attr)
    }

    /** `anx_mmio_map`: an uncached view of a device range, or 0. */
    method Map(phys: nat, size: nat) returns (r: nat)
      requires Valid() && phys < TWO64 && size < TWO64 && !Endless(phys, size)
      modifies `mem, `roles, pages, pages.bitmap
      ensures Valid() && Drawn() && NewTables()
      ensures size == 0 || phys + size > TWO64 ==> r == 0 && Same()
      ensures r == 0 || r == phys
      ensures r == 0 && 0 < size <= TWO64 - phys && phys > 0 ==> Exhausted()
      ensures size > 0 ==> forall n | !Hits(n, phys / MIB2, (phys + size - 1) / MIB2 + 1) ::
          Translate(mem, root, n) == Translate(old(mem), root, n)
      ensures r != 0 && phys + size <= TWO52 ==> Served(phys, size, 0x18)
      ensures phys + size <= TWO48 ==> forall n: nat | n < SLOTS && !Touches(n, phys, size) ::
          Translate(mem, root, n) == Translate(old(mem), root, n)
      ensures r != 0 && phys + size <= TWO48 ==>
          forall n: nat | Touches(n, phys, size) :: CacheBits(mem, root, n, true, true)
    {
      hide Translate, SameSlot, Tree, PageAllocator.BitsValid, Balanced, Hits, CacheBits, Grown;
      NotGrown(pages.heapBase, roles, pages.free);
      if size == 0 || phys > TWO64 - 1 - (size - 1) {
        return 0;
      }
      if phys + size <= TWO48 {
        TouchesHits(phys, size);
      }
      var ok := MapCacheAttr(phys, size, UNCACHED);
      if !ok {
        return 0;
      }
      if phys + size <= TWO48 {
        forall n: nat | Touches(n, phys, size) ensures CacheBits(mem, root, n, true, true) {
          assert phys / MIB2 <= n <= (phys + size - 1) / MIB2;
          CacheBitsOf(mem, root, n);
        }
      }
      r := phys;
    }

    /** `anx_mmio_map_wc`: write-combining when the PAT slot is set up, else the map as it is. */
    method MapWriteCombining(phys: nat, size: nat, patReady: bool) returns (r: nat)
      requires Valid() && phys < TWO64 && size < TWO64 && (patReady ==> !Endless(phys, size))
      modifies `mem, `roles, pages, pages.bitmap
      ensures Valid() && Drawn() && NewTables()
      ensures size == 0 || phys + size > TWO64 ==> r == 0
      ensures size == 0 || phys + size > TWO64 || !patReady ==> Same()
      ensures r == 0 || r == phys
      ensures r == 0 && 0 < size <= TWO64 - phys && phys > 0 ==> patReady && Exhausted()
      ensures size > 0 ==> forall n | !Hits(n, phys / MIB2, (phys + size - 1) / MIB2 + 1) ::
          Translate(mem, root, n) == Translate(old(mem), root, n)
      ensures r != 0 && patReady && phys + size <= TWO52 ==> Served(phys, size, 0x08)
      ensures phys + size <= TWO48 ==> forall n: nat | n < SLOTS && !Touches(n, phys, size) ::
          Translate(mem, root, n) == Translate(old(mem), root, n)
      ensures r != 0 && patReady && phys + size <= TWO48 ==>
          forall n: nat | Touches(n, phys, size) :: CacheBits(mem, root, n, true, false)
    {
      hide Translate, SameSlot, Tree, PageAllocator.BitsValid, Balanced, Hits, CacheBits, Grown;
      NotGrown(pages.heapBase, roles, pages.free);
      if size == 0 || phys > TWO64 - 1 - (size - 1) {
        return 0;
      }
      if !patReady {
        return phys;
      }
      if phys + size <= TWO48 {
        TouchesHits(phys, size);
      }
      var ok := MapCacheAttr(phys, size, WRITE_COMBINING);
      if !ok {
        return 0;
      }
      if phys + size <= TWO48 {
        forall n: nat | Touches(n, phys, size) ensures CacheBits(mem, root, n, true, false) {
          assert phys / MIB2 <= n <= (phys + size - 1) / MIB2;
          CacheBitsOf(mem, root, n);
        }
      }
      r := phys;
    }
  }

  /** The range ends in the last 2 MiB of the 64-bit space. */
  predicate Endless(phys: nat, size: nat) {
    size > 0 && TWO64 - MIB2 <= phys + size - 1 < TWO64
  }

  /** The source's loop counter is 64 bits wide: its test holds for every value exactly for such a range. */
  lemma EndlessExactly(phys: nat, size: nat)
    requires size > 0 && phys + size <= TWO64
    ensures (forall addr: nat | addr < TWO64 && addr % MIB2 == 0 :: addr <= (phys + size - 1) / MIB2 * MIB2) <==>
            Endless(phys, size)
  {
    var last := (phys + size - 1) / MIB2 * MIB2;
    if !Endless(phys, size) {
      assert last + MIB2 < TWO64 && (last + MIB2) % MIB2 == 0;
    }
  }
}
