/**
 * The x86-64 page tables of kernel/arch/x86_64/mmio.c: 4-level paging as in section
 * 4.5 of the Intel SDM, volume 3A, with 1 GiB and 2 MiB pages.  Entries are 64-bit
 * words held as numbers, their bits read with division; an OR of disjoint bits is a
 * sum.  Memory is a map from an entry's place, a table page and an index, to the entry.
 *
 * Bits of an entry: 0 present, 1 writable, 3 write-through, 4 cache disable, 7 large
 * page; bits 12 to 51 are the physical address.
 */
module PageTables {
  import opened Words
  import opened PageBitmap

  const MIB2: nat := 0x20_0000
  const GIB: nat := 0x4000_0000
  const TWO48: nat := 0x1_0000_0000_0000
  const TWO40: nat := 0x100_0000_0000

  type Index = i: nat | i < 512
  type Memory = map<(nat, Index), nat>

  /** The three indices of an address, from its 2 MiB page number. */
  function I4(n: nat): Index { n / 0x4_0000 % 512 }
  function I3(n: nat): Index { n / 512 % 512 }
  function I2(n: nat): Index { n % 512 }

  predicate Present(e: nat) { e % 2 == 1 }
  predicate Big(e: nat) { e / 128 % 2 == 1 }
  function Target(e: nat): nat { e / 4096 % TWO40 * 4096 }

  /** The bits a split carries over: present, writable, write-through, cache disable. */
  function Attributes(e: nat): (r: nat) {
    e % 2 + 2 * (e / 2 % 2) + 8 * (e / 8 % 2) + 16 * (e / 16 % 2)
  }

  /** The base of a 1 GiB and of a 2 MiB page entry. */
  function Base1G(e: nat): nat { Target(e) / GIB * GIB }
  function Base2M(e: nat): nat { Target(e) / MIB2 * MIB2 }

  /** An entry pointing at a table; a writable identity 2 MiB page with cache bits. */
  function TableEntry(t: nat): nat { t + 3 }
  function PageEntry(n: nat, attr: nat): nat { n * MIB2 + 3 + 128 + attr }

  /** One of the 512 entries `split_1gib` writes. */
  function SplitEntry(e: nat, i: Index): nat {
    Base1G(e) + i * MIB2 + Attributes(e) + 128
  }

  /** A usable table page: not null, page aligned, inside the physical address field. */
  predicate Aligned(t: nat) { t % 4096 == 0 && 0 < t < TWO40 * 4096 }

  lemma EvenPlus(half: nat, x: nat)
    ensures (2 * half + x) % 2 == x % 2
  {
  }

  lemma LowBits(base: nat, low: nat)
    requires base % 4096 == 0 && low < 4096
    ensures (base + low) % 2 == low % 2 && (base + low) / 2 % 2 == low / 2 % 2
    ensures (base + low) / 8 % 2 == low / 8 % 2 && (base + low) / 16 % 2 == low / 16 % 2
    ensures (base + low) / 128 % 2 == low / 128 % 2 && (base + low) / 4096 == base / 4096
  {
    var q := base / 4096;
    assert base == 4096 * q;
    EvenPlus(2048 * q, low);
    assert (base + low) / 2 == 2048 * q + low / 2;
    EvenPlus(1024 * q, low / 2);
    assert (base + low) / 8 == 512 * q + low / 8;
    EvenPlus(256 * q, low / 8);
    assert (base + low) / 16 == 256 * q + low / 16;
    EvenPlus(128 * q, low / 16);
    assert (base + low) / 128 == 32 * q + low / 128;
    EvenPlus(16 * q, low / 128);
  }

  lemma TableEntryFields(t: nat)
    requires Aligned(t)
    ensures Present(TableEntry(t)) && !Big(TableEntry(t)) && Target(TableEntry(t)) == t
  {
    LowBits(t, 3);
  }

  lemma AttributesBits(e: nat)
    ensures Attributes(e) < 32 && Attributes(Attributes(e) + 128) == Attributes(e)
    ensures (Attributes(e) + 128) / 128 % 2 == 1 && Attributes(e) % 2 == e % 2
  {
  }

  lemma AttributesFrame(base: nat, low: nat)
    requires base % 4096 == 0 && low < 4096
    ensures Attributes(base + low) == Attributes(low)
  {
    LowBits(base, low);
  }

  lemma SplitBase(e: nat, i: Index)
    ensures (Base1G(e) + i * MIB2) % 4096 == 0
    ensures (Base1G(e) + i * MIB2) / MIB2 * MIB2 == Base1G(e) + i * MIB2 < TWO40 * 4096
  {
    var q := Target(e) / GIB;
    assert Base1G(e) == MIB2 * (512 * q);
    assert q < 0x40_0000;
  }

  /** A split piece keeps the four attributes and the address of its part of the page. */
  lemma SplitEntryFields(e: nat, i: Index)
    ensures Attributes(SplitEntry(e, i)) == Attributes(e)
    ensures Present(SplitEntry(e, i)) == Present(e)
    ensures Big(SplitEntry(e, i))
    ensures Base2M(SplitEntry(e, i)) == Base1G(e) + i * MIB2
  {
    SplitBase(e, i);
    AttributesBits(e);
    LowBits(Base1G(e) + i * MIB2, Attributes(e) + 128);
    AttributesFrame(Base1G(e) + i * MIB2, Attributes(e) + 128);
  }

  datatype Mapping = Unmapped | Mapped(physical: nat, attributes: nat)

  /** The entry backing 2 MiB page `n`, as `anx_mmio_pte` finds it, or 0. */
  function Walk(mem: Memory, root: nat, n: nat): nat
  {
    if (root, I4(n)) !in mem || !Present(mem[(root, I4(n))]) then 0 else
    var pdpt := Target(mem[(root, I4(n))]);
    if (pdpt, I3(n)) !in mem || !Present(mem[(pdpt, I3(n))]) then 0 else
    var e3 := mem[(pdpt, I3(n))];
    if Big(e3) then e3 else
    var pd := Target(e3);
    if (pd, I2(n)) !in mem || !Present(mem[(pd, I2(n))]) then 0 else mem[(pd, I2(n))]
  }

  /** The meaning of the tables: where 2 MiB page `n` goes, and with which attributes. */
  function Translate(mem: Memory, root: nat, n: nat): Mapping
  {
    if (root, I4(n)) !in mem || !Present(mem[(root, I4(n))]) then Unmapped else
    var pdpt := Target(mem[(root, I4(n))]);
    if (pdpt, I3(n)) !in mem || !Present(mem[(pdpt, I3(n))]) then Unmapped else
    var e3 := mem[(pdpt, I3(n))];
    if Big(e3) then Mapped(Base1G(e3) + I2(n) * MIB2, Attributes(e3)) else
    var pd := Target(e3);
    if (pd, I2(n)) !in mem || !Present(mem[(pd, I2(n))]) then Unmapped else
    Mapped(Base2M(mem[(pd, I2(n))]), Attributes(mem[(pd, I2(n))]))
  }

  // ----- the tables form a tree -----

  /** What a table page is for: the root, the table of one 512 GiB region, or of one GiB. */
  datatype Role = Root | Pdpt(i4: Index) | Pd(i4: Index, i3: Index)

  ghost predicate RootLinks(mem: Memory, root: nat, roles: map<nat, Role>) {
    forall i: Index | (root, i) in mem && Present(mem[(root, i)]) ::
      Target(mem[(root, i)]) in roles && roles[Target(mem[(root, i)])] == Pdpt(i)
  }

  ghost predicate PdptLinks(mem: Memory, roles: map<nat, Role>) {
    forall t, i: Index | t in roles && roles[t].Pdpt? && (t, i) in mem
                         && Present(mem[(t, i)]) && !Big(mem[(t, i)]) ::
      Target(mem[(t, i)]) in roles && roles[Target(mem[(t, i)])] == Pd(roles[t].i4, i)
  }

  /** Page directories hold large pages only: nothing here builds 4 KiB tables. */
  ghost predicate PdLeaves(mem: Memory, roles: map<nat, Role>) {
    forall t, i: Index | t in roles && roles[t].Pd? && (t, i) in mem && Present(mem[(t, i)]) :: Big(mem[(t, i)])
  }

  ghost predicate Complete(mem: Memory, roles: map<nat, Role>) {
    forall t, i: Index | t in roles :: (t, i) in mem
  }

  /**
   * Every table page has one role, and only the entry for that role points at it.
   * So no table is shared, and a write to a table changes one region only.
   */
  ghost predicate Tree(mem: Memory, root: nat, roles: map<nat, Role>) {
    && root in roles && roles[root] == Root
    && (forall t | t in roles :: Aligned(t))
    && Complete(mem, roles)
    && RootLinks(mem, root, roles)
    && PdptLinks(mem, roles)
    && PdLeaves(mem, roles)
  }

  /** Table page `t` now holds `fill`; all other entries are as before. */
  ghost predicate Filled(mem: Memory, mem2: Memory, t: nat, fill: Index -> nat) {
    && (forall i: Index :: (t, i) in mem2 && mem2[(t, i)] == fill(i))
    && (forall u, i: Index | u != t ::
          ((u, i) in mem2 <==> (u, i) in mem) && ((u, i) in mem ==> mem2[(u, i)] == mem[(u, i)]))
  }

  lemma FilledTree(mem: Memory, mem2: Memory, root: nat, roles: map<nat, Role>, t: nat, fill: Index -> nat)
    requires Tree(mem, root, roles) && t !in roles && Filled(mem, mem2, t, fill)
    ensures Tree(mem2, root, roles)
    ensures forall n :: Translate(mem2, root, n) == Translate(mem, root, n)
  {
    hide I4, I3, I2, Target, Attributes, Base1G, Base2M, Present, Big, Aligned;
    assert RootLinks(mem2, root, roles);
    assert PdptLinks(mem2, roles);
    assert PdLeaves(mem2, roles);
  }

  /** Hanging an empty 512 GiB table under an absent root entry changes no translation. */
  lemma GraftPdpt(mem: Memory, root: nat, roles: map<nat, Role>, t: nat, i4: Index)
    requires Tree(mem, root, roles) && Aligned(t) && t !in roles && !Present(mem[(root, i4)])
    requires forall i: Index :: (t, i) in mem && mem[(t, i)] == 0
    ensures Tree(mem[(root, i4) := TableEntry(t)], root, roles[t := Pdpt(i4)])
    ensures forall n :: Translate(mem[(root, i4) := TableEntry(t)], root, n) == Translate(mem, root, n)
  {
    TableEntryFields(t);
    assert !Present(0);
    hide I4, I3, I2, Target, Attributes, Base1G, Base2M, Present, Big, TableEntry, Aligned;
    var mem2, roles2 := mem[(root, i4) := TableEntry(t)], roles[t := Pdpt(i4)];
    assert RootLinks(mem2, root, roles2);
    assert PdptLinks(mem2, roles2);
    assert PdLeaves(mem2, roles2);
  }

  /** What a fresh page directory may hold so that it means what entry `e` meant. */
  ghost predicate Spells(e: nat, fill: Index -> nat) {
    || (!Present(e) && forall i: Index :: fill(i) == 0)
    || (Present(e) && Big(e) && forall i: Index :: fill(i) == SplitEntry(e, i))
  }

  lemma SpellsLeaves(e: nat, fill: Index -> nat, i: Index)
    requires Spells(e, fill)
    ensures Present(fill(i)) ==> Big(fill(i))
    ensures Present(fill(i)) == Present(e)
    ensures Present(e) ==> Attributes(fill(i)) == Attributes(e) && Base2M(fill(i)) == Base1G(e) + i * MIB2
  {
    SplitEntryFields(e, i);
  }

  lemma GraftPdTree(mem: Memory, root: nat, roles: map<nat, Role>, pdpt: nat, i3: Index, t: nat, fill: Index -> nat)
    requires Tree(mem, root, roles) && Aligned(t) && t !in roles
    requires pdpt in roles && roles[pdpt].Pdpt? && Spells(mem[(pdpt, i3)], fill)
    requires forall i: Index :: (t, i) in mem && mem[(t, i)] == fill(i)
    ensures Tree(mem[(pdpt, i3) := TableEntry(t)], root, roles[t := Pd(roles[pdpt].i4, i3)])
  {
    TableEntryFields(t);
    forall i: Index ensures Present(fill(i)) ==> Big(fill(i)) {
      SpellsLeaves(mem[(pdpt, i3)], fill, i);
    }
    hide Target, Present, Big, TableEntry, Aligned, Spells;
    var mem2, roles2 := mem[(pdpt, i3) := TableEntry(t)], roles[t := Pd(roles[pdpt].i4, i3)];
    assert RootLinks(mem2, root, roles2);
    assert PdptLinks(mem2, roles2);
    assert PdLeaves(mem2, roles2);
  }

  /** Hanging a page directory that spells out the old entry changes no translation. */
  lemma GraftPd(mem: Memory, root: nat, roles: map<nat, Role>, pdpt: nat, i3: Index, t: nat, fill: Index -> nat)
    requires Tree(mem, root, roles) && Aligned(t) && t !in roles
    requires pdpt in roles && roles[pdpt].Pdpt? && Spells(mem[(pdpt, i3)], fill)
    requires forall i: Index :: (t, i) in mem && mem[(t, i)] == fill(i)
    ensures forall n :: Translate(mem[(pdpt, i3) := TableEntry(t)], root, n) == Translate(mem, root, n)
  {
    TableEntryFields(t);
    var mem2 := mem[(pdpt, i3) := TableEntry(t)];
    forall n ensures Translate(mem2, root, n) == Translate(mem, root, n) {
      SpellsLeaves(mem[(pdpt, i3)], fill, I2(n));
      hide I4, I3, I2, Target, Attributes, Base1G, Base2M, Present, Big, TableEntry, Aligned, SplitEntry;
      assert mem2[(root, I4(n))] == mem[(root, I4(n))];
    }
  }

  /** Writing one page-directory entry changes the page of that entry and no other. */
  lemma SetLeaf(mem: Memory, root: nat, roles: map<nat, Role>, pd: nat, i2: Index, e: nat)
    requires Tree(mem, root, roles) && pd in roles && roles[pd].Pd? && Big(e)
    ensures Tree(mem[(pd, i2) := e], root, roles)
    ensures forall n | !(I4(n) == roles[pd].i4 && I3(n) == roles[pd].i3 && I2(n) == i2) ::
              Translate(mem[(pd, i2) := e], root, n) == Translate(mem, root, n)
  {
    hide I4, I3, I2, Target, Attributes, Base1G, Base2M, Present, Big, Aligned;
    var mem2 := mem[(pd, i2) := e];
    assert RootLinks(mem2, root, roles);
    assert PdptLinks(mem2, roles);
    assert PdLeaves(mem2, roles);
  }
}
