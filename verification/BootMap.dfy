/**
 * The identity map the EFI stub hands to the kernel: build_identity_map of
 * kernel/boot/efi/efi_stub.c.  Addresses and counts are 64-bit and wrap as in the
 * source; the firmware's page allocation is a parameter.
 */
module BootMap {
  import opened Words
  import opened PageTables

  datatype Descriptor = Descriptor(start: nat, pages: nat)

  const MAX_PDPT: nat := 16

  datatype Framebuffer = Framebuffer(address: nat, pitch: nat, height: nat)

  /** Where a descriptor and the framebuffer really end. */
  function TrueEnd(d: Descriptor): nat { d.start + d.pages * 4096 }

  function ScreenEnd(fb: Framebuffer): nat {
    ProductNat(fb.pitch, fb.height);
    if fb.address == 0 then 0 else fb.address + fb.pitch * fb.height
  }

  lemma ProductNat(a: nat, b: nat)
    ensures a * b >= 0
  {
  }

  /** The highest address to reach, as the source computes it: 4 GiB or an end cut to 64 bits. */
  ghost predicate IsTop(top: nat, descriptors: seq<Descriptor>, fb: Framebuffer) {
    && 4 * GIB <= top < TWO64
    && (forall d | d in descriptors :: TrueEnd(d) % TWO64 <= top)
    && ScreenEnd(fb) % TWO64 <= top
    && (top == 4 * GIB || top == ScreenEnd(fb) % TWO64 || exists d :: d in descriptors && TrueEnd(d) % TWO64 == top)
  }

  /** `gib_count` before the clamp: how many GiB pages reach `top`. */
  function GibCount(top: nat): nat {
    (top + GIB - 1) % TWO64 / GIB
  }

  /** `gib_count` after the clamp to 8 TiB. */
  function Gibs(top: nat): (g: nat)
    ensures g <= MAX_PDPT * 512
  {
    if (GibCount(top) + 511) / 512 > MAX_PDPT then MAX_PDPT * 512 else GibCount(top)
  }

  /** The map holds every byte below `end`, up to 8 TiB. */
  predicate Covers(gibs: nat, end: nat) {
    gibs * GIB >= end || gibs == MAX_PDPT * 512
  }

  /** All of memory and the screen is held, by their true ends, and at least 4 GiB. */
  ghost predicate AllCovered(gibs: nat, descriptors: seq<Descriptor>, fb: Framebuffer) {
    Covers(gibs, 4 * GIB) && Covers(gibs, ScreenEnd(fb)) && forall d | d in descriptors :: Covers(gibs, TrueEnd(d))
  }

  /** Some end does not fit in 64 bits. */
  ghost predicate EndWraps(descriptors: seq<Descriptor>, fb: Framebuffer) {
    ScreenEnd(fb) >= TWO64 || exists d :: d in descriptors && TrueEnd(d) >= TWO64
  }

  /**
   * Coverage is exact: everything is held if and only if rounding the top up to a GiB does not
   * wrap and either no end wraps or the top alone already needs all 8 TiB.
   */
  lemma CoverageExact(top: nat, descriptors: seq<Descriptor>, fb: Framebuffer)
    requires IsTop(top, descriptors, fb)
    ensures AllCovered(Gibs(top), descriptors, fb) <==>
            top <= TWO64 - GIB && (!EndWraps(descriptors, fb) || top > (MAX_PDPT * 512 - 1) * GIB)
  {
    hide TrueEnd, ScreenEnd;
    var gibs := Gibs(top);
    TopGibs(top);
    if top <= TWO64 - GIB {
      if top > (MAX_PDPT * 512 - 1) * GIB || !EndWraps(descriptors, fb) {
        forall d | d in descriptors ensures Covers(gibs, TrueEnd(d)) {
          assert TrueEnd(d) % TWO64 <= top;
        }
      }
    }
  }

  lemma TopGibs(top: nat)
    requires 4 * GIB <= top < TWO64
    ensures top > TWO64 - GIB ==> Gibs(top) == 0
    ensures top <= TWO64 - GIB ==> Covers(Gibs(top), top) && (Gibs(top) - 1) * GIB < top
    ensures (PdptCount(top) - 1) * 512 < Gibs(top) <= PdptCount(top) * 512 || Gibs(top) == PdptCount(top) == 0
    ensures top <= TWO64 - GIB ==> (Gibs(top) == MAX_PDPT * 512 <==> top > (MAX_PDPT * 512 - 1) * GIB)
  {
    if top <= TWO64 - GIB {
      assert (top + GIB - 1) % TWO64 == top + GIB - 1;
    } else {
      assert (top + GIB - 1) % TWO64 == top + GIB - 1 - TWO64;
    }
  }

  /** A descriptor that ends beyond the 64-bit space is missed, although its computed end is small. */
  lemma WrappedEndMissed()
    ensures var d := Descriptor(0xFFFF_FFFF_FFFF_F000, 2);
            && IsTop(4 * GIB, [d], Framebuffer(0, 0, 0))
            && !AllCovered(Gibs(4 * GIB), [d], Framebuffer(0, 0, 0))
  {
    var d := Descriptor(0xFFFF_FFFF_FFFF_F000, 2);
    assert TrueEnd(d) == TWO64 + 4096;
    assert d in [d];
    assert Gibs(4 * GIB) == 4;
  }

  /** The entry for gigabyte `g`. */
  function GibEntry(g: nat): nat { g * GIB + 0x83 }

  lemma GibEntryFields(g: nat)
    requires g < 0x40_0000
    ensures Present(GibEntry(g)) && Big(GibEntry(g))
    ensures Base1G(GibEntry(g)) == g * GIB && Attributes(GibEntry(g)) == 3
  {
    var base := g * GIB;
    assert base == 4096 * (0x4_0000 * g);
    LowBits(base, 0x83);
    AttributesFrame(base, 0x83);
    assert base / 4096 == 0x4_0000 * g;
    assert Target(GibEntry(g)) == base;
  }

  /** The page of the `k`-th 512 GiB table. */
  function Pdpt0(tables: nat, k: nat): nat { tables + (1 + k) * 4096 }

  ghost function Roles(tables: nat, pdpts: nat): (r: map<nat, Role>)
    requires pdpts <= MAX_PDPT
    ensures forall t :: t in r <==> t == tables || exists k: Index :: k < pdpts && t == Pdpt0(tables, k)
    ensures r[tables] == Root
    ensures forall k: Index | k < pdpts :: r[Pdpt0(tables, k)] == Pdpt(k)
  {
    if pdpts == 0 then map[tables := Root]
    else Roles(tables, pdpts - 1)[Pdpt0(tables, pdpts - 1) := Pdpt(pdpts - 1)]
  }

  /** What the tables hold when the first `gibs` gigabytes are mapped. */
  ghost predicate Built(mem: Memory, tables: nat, pdpts: nat, gibs: nat) {
    && (forall i: Index :: (tables, i) in mem &&
          mem[(tables, i)] == if i * 512 < gibs then TableEntry(Pdpt0(tables, i)) else 0)
    && (forall k: Index, i: Index | k < pdpts :: (Pdpt0(tables, k), i) in mem &&
          mem[(Pdpt0(tables, k), i)] == if k * 512 + i < gibs then GibEntry(k * 512 + i) else 0)
  }

  lemma BuiltTree(mem: Memory, tables: nat, pdpts: nat, gibs: nat)
    requires Built(mem, tables, pdpts, gibs) && pdpts <= MAX_PDPT && gibs <= pdpts * 512
    requires tables % 4096 == 0 && 0 < tables && tables + (1 + pdpts) * 4096 <= 0x1_0000_0000
    ensures Tree(mem, tables, Roles(tables, pdpts))
  {
    hide Built, Roles, RootLinks, PdptLinks, PdLeaves, Complete, Pdpt0;
    TablesAligned(tables, pdpts);
    BuiltComplete(mem, tables, pdpts, gibs);
    BuiltRoot(mem, tables, pdpts, gibs);
    BuiltPdpts(mem, tables, pdpts, gibs);
    NoDirectories(mem, tables, pdpts);
  }

  lemma TablesAligned(tables: nat, pdpts: nat)
    requires pdpts <= MAX_PDPT && tables % 4096 == 0 && 0 < tables && tables + (1 + pdpts) * 4096 <= 0x1_0000_0000
    ensures forall t | t in Roles(tables, pdpts) :: Aligned(t)
  {
    hide Roles;
  }

  lemma BuiltComplete(mem: Memory, tables: nat, pdpts: nat, gibs: nat)
    requires Built(mem, tables, pdpts, gibs) && pdpts <= MAX_PDPT
    ensures Complete(mem, Roles(tables, pdpts))
  {
    hide Roles, Pdpt0, TableEntry, GibEntry;
  }

  lemma BuiltRoot(mem: Memory, tables: nat, pdpts: nat, gibs: nat)
    requires Built(mem, tables, pdpts, gibs) && pdpts <= MAX_PDPT && gibs <= pdpts * 512
    requires tables % 4096 == 0 && 0 < tables && tables + (1 + pdpts) * 4096 <= 0x1_0000_0000
    ensures RootLinks(mem, tables, Roles(tables, pdpts))
  {
    assert !Present(0);
    hide Roles, TableEntry, GibEntry, Present, Target, Pdpt0;
    TablesAligned(tables, pdpts);
    forall i: Index | (tables, i) in mem && Present(mem[(tables, i)])
      ensures mem[(tables, i)] == TableEntry(Pdpt0(tables, i)) && Target(mem[(tables, i)]) == Pdpt0(tables, i)
          && i < pdpts
    {
      assert i * 512 < gibs;
      assert i < pdpts;
      assert Pdpt0(tables, i) in Roles(tables, pdpts);
      TableEntryFields(Pdpt0(tables, i));
    }
  }

  lemma BuiltPdpts(mem: Memory, tables: nat, pdpts: nat, gibs: nat)
    requires Built(mem, tables, pdpts, gibs) && pdpts <= MAX_PDPT
    ensures PdptLinks(mem, Roles(tables, pdpts))
  {
    hide Built, Roles, TableEntry, GibEntry, Present, Big, Target, Pdpt0;
    var roles := Roles(tables, pdpts);
    forall t, i: Index | t in roles && roles[t].Pdpt? && (t, i) in mem && Present(mem[(t, i)])
      ensures Big(mem[(t, i)]) {
      var k: Index :| k < pdpts && t == Pdpt0(tables, k);
      GigabyteIsBig(mem, tables, pdpts, gibs, k, i);
    }
  }

  lemma GigabyteIsBig(mem: Memory, tables: nat, pdpts: nat, gibs: nat, k: Index, i: Index)
    requires Built(mem, tables, pdpts, gibs) && k < pdpts <= MAX_PDPT
    requires (Pdpt0(tables, k), i) in mem && Present(mem[(Pdpt0(tables, k), i)])
    ensures Big(mem[(Pdpt0(tables, k), i)])
  {
    assert !Present(0);
    hide TableEntry, GibEntry, Present, Big, Target, Pdpt0;
    GibEntryFields(k * 512 + i);
  }

  lemma NoDirectories(mem: Memory, tables: nat, pdpts: nat)
    requires pdpts <= MAX_PDPT
    ensures PdLeaves(mem, Roles(tables, pdpts))
  {
    hide Roles, Pdpt0;
  }

  /** Every page of the mapped gigabytes is mapped to itself, and no other page is. */
  lemma BuiltMeaning(mem: Memory, tables: nat, pdpts: nat, gibs: nat, n: nat)
    requires Built(mem, tables, pdpts, gibs) && pdpts <= MAX_PDPT && gibs <= pdpts * 512
    requires tables % 4096 == 0 && 0 < tables && tables + (1 + pdpts) * 4096 <= 0x1_0000_0000
    requires n < 0x800_0000
    ensures Translate(mem, tables, n) == if n / 512 < gibs then Mapped(n * MIB2, 3) else Unmapped
  {
    assert !Present(0);
    assert n / 512 / 512 == n / 0x4_0000 < 512;
    var k, i: Index := I4(n), I3(n);
    assert k * 512 + i == n / 512;
    if k * 512 < gibs {
      TableEntryFields(Pdpt0(tables, k));
      if k * 512 + i < gibs {
        GibEntryFields(n / 512);
      }
    }
  }

  datatype Grant = Refused | At(tables: nat)
  datatype BootResult = Failed | Loaded(root: nat, mem: Memory, gibs: nat)

  /** The firmware grants whole pages below 4 GiB, or refuses. */
  ghost predicate Firmware(allocate: nat -> Grant) {
    forall n: nat :: allocate(n).At? ==>
      var t := allocate(n).tables; t % 4096 == 0 && 0 < t && t + n * 4096 <= 0x1_0000_0000
  }

  /** The scan for the highest address to reach. */
  method Top(descriptors: seq<Descriptor>, fb: Framebuffer) returns (top: nat)
    ensures IsTop(top, descriptors, fb)
  {
    hide TrueEnd, ScreenEnd;
    top := 4 * GIB;
    for i := 0 to |descriptors|
      invariant 4 * GIB <= top < TWO64
      invariant forall j | 0 <= j < i :: TrueEnd(descriptors[j]) % TWO64 <= top
      invariant top == 4 * GIB || exists d :: d in descriptors && TrueEnd(d) % TWO64 == top
    {
      var end := TrueEnd(descriptors[i]) % TWO64;
      if end > top {
        assert descriptors[i] in descriptors;
        top := end;
      }
    }
    if fb.address != 0 {
      var end := ScreenEnd(fb) % TWO64;
      if end > top {
        top := end;
      }
    } else {
      NoScreen(fb);
    }
  }

  lemma NoScreen(fb: Framebuffer)
    requires fb.address == 0
    ensures ScreenEnd(fb) == 0
  {
  }

  /** Entry `x` of the tables seen as one array. */
  function Place(tables: nat, x: nat): (nat, Index) {
    (tables + x / 512 * 4096, x % 512)
  }

  /** Array positions below `limit` hold zero. */
  ghost predicate ZeroTo(mem: Memory, tables: nat, limit: nat) {
    forall x: nat | x < limit :: Place(tables, x) in mem && mem[Place(tables, x)] == 0
  }

  method Clear(mem: Memory, tables: nat, limit: nat) returns (out: Memory)
    ensures ZeroTo(out, tables, limit)
  {
    out := mem;
    var g := 0;
    while g < limit
      invariant g <= limit && ZeroTo(out, tables, g)
    {
      out := out[Place(tables, g) := 0];
      g := g + 1;
    }
  }

  lemma ZeroIsBuilt(mem: Memory, tables: nat, pdpts: nat)
    requires ZeroTo(mem, tables, (1 + pdpts) * 512)
    ensures Built(mem, tables, pdpts, 0)
  {
    forall i: Index ensures (tables, i) in mem && mem[(tables, i)] == 0 {
      assert Place(tables, i) == (tables, i);
    }
    forall k: Index, i: Index | k < pdpts ensures (Pdpt0(tables, k), i) in mem && mem[(Pdpt0(tables, k), i)] == 0 {
      assert Place(tables, (1 + k) * 512 + i) == (Pdpt0(tables, k), i);
    }
  }

  /** Mapping one more gigabyte. */
  lemma BuiltStep(mem: Memory, mem2: Memory, tables: nat, pdpts: nat, g: nat)
    requires Built(mem, tables, pdpts, g) && g < pdpts * 512 && pdpts <= MAX_PDPT
    requires var m := if g % 512 == 0 then mem[(tables, g / 512) := TableEntry(Pdpt0(tables, g / 512))] else mem;
             mem2 == m[(Pdpt0(tables, g / 512), g % 512) := GibEntry(g)]
    ensures Built(mem2, tables, pdpts, g + 1)
  {
    hide GibEntry, TableEntry;
    forall i: Index ensures mem2[(tables, i)] == if i * 512 < g + 1 then TableEntry(Pdpt0(tables, i)) else 0 {
      assert i * 512 < g + 1 <==> i * 512 < g || (g % 512 == 0 && i == g / 512);
    }
    forall k: Index, i: Index | k < pdpts
      ensures (Pdpt0(tables, k), i) in mem2 &&
              mem2[(Pdpt0(tables, k), i)] == if k * 512 + i < g + 1 then GibEntry(k * 512 + i) else 0
    {
      assert k * 512 + i == g <==> k == g / 512 && i == g % 512;
    }
  }

  /**
   * `build_identity_map`.  On success the tables are a tree that `Mmio` can extend, the
   * first `gibs` gigabytes are mapped to themselves and nothing else is, and they hold all
   * of memory and the screen exactly under the condition of `CoverageExact`.
   */
  method BuildIdentityMap(mem: Memory, descriptors: seq<Descriptor>, fb: Framebuffer, allocate: nat -> Grant)
    returns (r: BootResult, ghost top: nat)
    requires Firmware(allocate)
    ensures IsTop(top, descriptors, fb)
    ensures r.Failed? <==> allocate(1 + PdptCount(top)).Refused?
    ensures r.Loaded? ==> r.gibs == Gibs(top) && r.root == allocate(1 + PdptCount(top)).tables
    ensures r.Loaded? ==>
        (AllCovered(r.gibs, descriptors, fb) <==>
           top <= TWO64 - GIB && (!EndWraps(descriptors, fb) || top > (MAX_PDPT * 512 - 1) * GIB))
    ensures r.Loaded? ==> Tree(r.mem, r.root, Roles(r.root, PdptCount(top)))
    ensures r.Loaded? ==> forall n: nat | n < 0x800_0000 ::
        Translate(r.mem, r.root, n) == if n / 512 < r.gibs then Mapped(n * MIB2, 3) else Unmapped
  {
    hide Built, Tree, Translate, Roles, Covers, TrueEnd, ScreenEnd, AllCovered, EndWraps;
    var t := Top(descriptors, fb);
    top := t;
    CoverageExact(t, descriptors, fb);
    hide IsTop;
    var gibs := GibCount(t);
    var pdpts := (gibs + 511) / 512;
    if pdpts > MAX_PDPT {
      pdpts := MAX_PDPT;
      gibs := MAX_PDPT * 512;
    }
    var grant := allocate(1 + pdpts);
    if grant.Refused? {
      return Failed, top;
    }
    var out := FillTables(mem, grant.tables, pdpts, gibs);
    BuiltTree(out, grant.tables, pdpts, gibs);
    forall n: nat | n < 0x800_0000
      ensures Translate(out, grant.tables, n) == if n / 512 < gibs then Mapped(n * MIB2, 3) else Unmapped
    {
      BuiltMeaning(out, grant.tables, pdpts, gibs, n);
    }
    r := Loaded(grant.tables, out, gibs);
  }

  function PdptCount(top: nat): (r: nat)
    ensures r <= MAX_PDPT
  {
    var p := (GibCount(top) + 511) / 512;
    if p > MAX_PDPT then MAX_PDPT else p
  }

  method FillTables(mem: Memory, tables: nat, pdpts: nat, gibs: nat) returns (out: Memory)
    requires pdpts <= MAX_PDPT && gibs <= pdpts * 512
    ensures Built(out, tables, pdpts, gibs)
  {
    out := Clear(mem, tables, (1 + pdpts) * 512);
    ZeroIsBuilt(out, tables, pdpts);
    var g := 0;
    while g < gibs
      invariant g <= gibs && Built(out, tables, pdpts, g)
    {
      ghost var before := out;
      if g % 512 == 0 {
        out := out[(tables, g / 512) := TableEntry(Pdpt0(tables, g / 512))];
      }
      out := out[(Pdpt0(tables, g / 512), g % 512) := GibEntry(g)];
      BuiltStep(before, out, tables, pdpts, g);
      g := g + 1;
    }
  }
}
