/**
 * The general-purpose allocator of kernel/lib/alloc.c: power-of-two size classes
 * whose free lists are threaded through the free blocks themselves, on top of the
 * page allocator.  Memory is a map from 8-byte cell addresses to cells, so the
 * header written by an allocation and the link written by a free share storage.
 */
module Heap {
  import opened Words
  import opened PageBitmap

  const MIN_CLASS: nat := 5
  const MAX_CLASS: nat := 12
  const MAGIC: nat := 0xA11C_0000

  datatype Cell = Link(next: nat) | Header(magic: nat, cls: nat) | Data(value: nat)

  /** A block in use: the size asked for and the class recorded in its header. */
  datatype Block = Block(size: nat, cls: nat)

  /** Bytes in a block of a class; a class above 12 stands for whole pages. */
  function Extent(cls: nat): (r: nat) {
    if cls <= MAX_CLASS then Pow2(cls) else Pow2(cls - MAX_CLASS - 1) * 4096
  }

  /** The `size + sizeof(header)` of the source, in 64-bit arithmetic. */
  function WithHeader(size: nat): (r: nat) {
    (size + 8) % TWO64
  }

  /** `pages_needed`, a 32-bit variable in the source. */
  function PagesNeeded(size: nat): (r: nat) {
    (size + 8 + 4095) % TWO64 / 4096 % TWO32
  }

  /** The sizes for which the block handed out really holds `size + 8` bytes. */
  predicate Representable(size: nat) {
    size + 4103 < 0x1000_0000_0000
  }

  // ----- the layout: which block lies where -----

  /** What the allocator owns: slab pages by class, free blocks by class, live blocks. */
  datatype Layout = Layout(slabs: map<nat, nat>, lists: seq<seq<nat>>, live: map<nat, Block>)

  /** `a` is a block of class `c` inside a page carved for that class. */
  ghost predicate Slot(slabs: map<nat, nat>, a: nat, c: nat) {
    && MIN_CLASS <= c <= MAX_CLASS
    && a / 4096 in slabs && slabs[a / 4096] == c
    && a % 4096 % Pow2(c) == 0
  }

  ghost predicate Small(live: map<nat, Block>, a: nat) {
    a in live && live[a].cls <= MAX_CLASS
  }

  ghost predicate Large(live: map<nat, Block>, a: nat) {
    a in live && live[a].cls > MAX_CLASS
  }

  /** Page `p` (counted from address 0) belongs to the large block at `a`. */
  ghost predicate Spans(live: map<nat, Block>, a: nat, p: nat) {
    Large(live, a) && a / 4096 <= p < a / 4096 + Pow2(live[a].cls - MAX_CLASS - 1)
  }

  /** `a` is on the free list of class `c`. */
  ghost predicate OnList(lists: seq<seq<nat>>, a: nat, c: nat) {
    MIN_CLASS <= c <= MAX_CLASS && |lists| == 8 && a in lists[c - MIN_CLASS]
  }

  ghost predicate FreePlaced(l: Layout) {
    forall a, c | OnList(l.lists, a, c) :: a != 0 && Slot(l.slabs, a, c) && a !in l.live
  }

  ghost predicate LivePlaced(slabs: map<nat, nat>, live: map<nat, Block>) {
    && (forall a | Small(live, a) :: Slot(slabs, a, live[a].cls))
    && (forall a | Large(live, a) :: a % 4096 == 0)
    && (forall a, p | Spans(live, a, p) :: p !in slabs)
  }

  ghost predicate LargeApart(live: map<nat, Block>) {
    forall a, b, p | Spans(live, a, p) && Spans(live, b, p) :: a == b
  }

  ghost predicate Distinct(nodes: seq<nat>) {
    forall i, j | 0 <= i < j < |nodes| :: nodes[i] != nodes[j]
  }

  /** The layout invariant: every block in its place, no block listed twice. */
  ghost predicate Separated(l: Layout) {
    && |l.lists| == 8
    && FreePlaced(l)
    && (forall c | 0 <= c < 8 :: Distinct(l.lists[c]))
    && LivePlaced(l.slabs, l.live)
    && LargeApart(l.live)
  }

  /** A block: a live one, or a free one of class `c`. */
  ghost predicate IsBlock(l: Layout, a: nat, c: nat) {
    (a in l.live && l.live[a].cls == c) || OnList(l.lists, a, c)
  }

  /** Each of the eight slab classes, with its size spelled out. */
  lemma ClassSizes(c: nat)
    requires MIN_CLASS <= c <= MAX_CLASS
    ensures Pow2(c) == (if c == 5 then 32 else if c == 6 then 64 else if c == 7 then 128
                        else if c == 8 then 256 else if c == 9 then 512 else if c == 10 then 1024
                        else if c == 11 then 2048 else 4096)
  {
    assert Pow2(5) == 32;
    assert Pow2(7) == 4 * Pow2(5);
    assert Pow2(9) == 4 * Pow2(7);
    assert Pow2(11) == 4 * Pow2(9);
  }

  /** A slot ends inside its page. */
  lemma SlotFits(slabs: map<nat, nat>, a: nat, c: nat)
    requires Slot(slabs, a, c)
    ensures a % 4096 + Pow2(c) <= 4096
  {
    ClassSizes(c);
  }

  lemma MultiplesApart(x: nat, y: nat, s: nat)
    requires s > 0 && x % s == 0 && y % s == 0 && x < y
    ensures x + s <= y
  {
    assert x == s * (x / s) && y == s * (y / s);
    assert x / s < y / s;
    assert s * (x / s + 1) <= s * (y / s);
  }

  lemma SlotsApart(slabs: map<nat, nat>, a: nat, c: nat, b: nat, d: nat)
    requires Slot(slabs, a, c) && Slot(slabs, b, d) && a < b
    ensures a + Pow2(c) <= b
  {
    SlotFits(slabs, a, c);
    if a / 4096 == b / 4096 {
      MultiplesApart(a % 4096, b % 4096, Pow2(c));
    }
  }

  /** Any two different blocks, free or live, occupy disjoint byte ranges. */
  lemma BlocksDisjoint(l: Layout, a: nat, c: nat, b: nat, d: nat)
    requires Separated(l) && IsBlock(l, a, c) && IsBlock(l, b, d)
    requires a < b
    ensures a + Extent(c) <= b
  {
    if d <= MAX_CLASS {
      assert Small(l.live, b) || OnList(l.lists, b, d);
      assert Slot(l.slabs, b, d);
    } else {
      assert Spans(l.live, b, b / 4096);
    }
    if c <= MAX_CLASS {
      assert Small(l.live, a) || OnList(l.lists, a, c);
      assert Slot(l.slabs, a, c);
      SlotFits(l.slabs, a, c);
      if d <= MAX_CLASS {
        SlotsApart(l.slabs, a, c, b, d);
      }
    } else {
      assert Large(l.live, a);
      assert !Spans(l.live, a, b / 4096);
    }
  }

  // ----- the layout and memory -----

  ghost function Below(nodes: seq<nat>, i: nat): nat
    requires i <= |nodes|
  {
    if i == 0 then 0 else nodes[i - 1]
  }

  /** `head` starts the chain of links through `nodes`, last node first. */
  ghost predicate Linked(mem: map<nat, Cell>, head: nat, nodes: seq<nat>) {
    && head == Below(nodes, |nodes|)
    && forall i | 0 <= i < |nodes| :: nodes[i] in mem && mem[nodes[i]] == Link(Below(nodes, i))
  }

  ghost predicate Chained(mem: map<nat, Cell>, heads: seq<nat>, lists: seq<seq<nat>>) {
    |heads| == |lists| == 8 && forall c | 0 <= c < 8 :: Linked(mem, heads[c], lists[c])
  }

  ghost predicate Headed(mem: map<nat, Cell>, live: map<nat, Block>) {
    forall a | a in live :: a in mem && mem[a] == Header(MAGIC, live[a].cls)
  }

  /** Memory holds the links of every free list and the header of every live block. */
  ghost predicate Recorded(mem: map<nat, Cell>, heads: seq<nat>, l: Layout) {
    Chained(mem, heads, l.lists) && Headed(mem, l.live)
  }

  /** Page `p` of the address space is one the page allocator has handed out. */
  ghost predicate Held(base: nat, out: set<nat>, p: nat) {
    base / 4096 <= p && p - base / 4096 in out
  }

  /** The pages held are those held before, but for those of one block. */
  ghost predicate Unheld(base: nat, before: set<nat>, after: set<nat>, live: map<nat, Block>, a: nat) {
    forall p: nat :: Held(base, after, p) <==> Held(base, before, p) && !Spans(live, a, p)
  }

  /** Every owned page is held, and every large block remembers a usable order. */
  ghost predicate Backed(l: Layout, base: nat, out: set<nat>) {
    && (forall p | p in l.slabs :: p != 0 && Held(base, out, p))
    && (forall a | Large(l.live, a) :: l.live[a].cls - MAX_CLASS - 1 < 64 && a != 0)
    && (forall a, p | Spans(l.live, a, p) :: Held(base, out, p))
  }

  function Push(l: Layout, a: nat, c: nat): Layout
    requires |l.lists| == 8 && MIN_CLASS <= c <= MAX_CLASS
  {
    l.(lists := l.lists[c - MIN_CLASS := l.lists[c - MIN_CLASS] + [a]])
  }

  /** Writing a cell that is no node of a list leaves the list alone. */
  lemma LinkedFrame(mem: map<nat, Cell>, head: nat, nodes: seq<nat>, a: nat, v: Cell)
    requires Linked(mem, head, nodes) && a !in nodes
    ensures Linked(mem[a := v], head, nodes)
  {
    forall i | 0 <= i < |nodes| ensures nodes[i] != a {
      assert nodes[i] in nodes;
    }
  }

  lemma LinkedPush(mem: map<nat, Cell>, head: nat, nodes: seq<nat>, a: nat)
    requires Linked(mem, head, nodes) && a !in nodes
    ensures Linked(mem[a := Link(head)], a, nodes + [a])
  {
    var nodes' := nodes + [a];
    forall i | 0 <= i < |nodes'|
      ensures mem[a := Link(head)][nodes'[i]] == Link(Below(nodes', i))
    {
      if i < |nodes| {
        assert nodes[i] in nodes;
      }
    }
  }

  lemma PushSeparated(l: Layout, a: nat, c: nat)
    requires Separated(l)
    requires a != 0 && Slot(l.slabs, a, c) && a !in l.live && !OnList(l.lists, a, c)
    ensures Separated(Push(l, a, c))
  {
    var l' := Push(l, a, c);
    forall b, d | OnList(l'.lists, b, d) ensures b != 0 && Slot(l'.slabs, b, d) && b !in l'.live {
      assert (b == a && d == c) || OnList(l.lists, b, d);
    }
  }

  ghost predicate Unlisted(lists: seq<seq<nat>>, a: nat) {
    forall d | 0 <= d < |lists| :: a !in lists[d]
  }

  lemma ChainedFrame(mem: map<nat, Cell>, heads: seq<nat>, lists: seq<seq<nat>>, a: nat, v: Cell)
    requires Chained(mem, heads, lists) && Unlisted(lists, a)
    ensures Chained(mem[a := v], heads, lists)
  {
    forall d | 0 <= d < 8 ensures Linked(mem[a := v], heads[d], lists[d]) {
      LinkedFrame(mem, heads[d], lists[d], a, v);
    }
  }

  lemma ChainedPush(mem: map<nat, Cell>, heads: seq<nat>, lists: seq<seq<nat>>, a: nat, k: nat)
    requires Chained(mem, heads, lists) && Unlisted(lists, a) && k < 8
    ensures Chained(mem[a := Link(heads[k])], heads[k := a], lists[k := lists[k] + [a]])
  {
    ChainedFrame(mem, heads, lists, a, Link(heads[k]));
    LinkedPush(mem, heads[k], lists[k], a);
  }

  lemma ChainedPop(mem: map<nat, Cell>, heads: seq<nat>, lists: seq<seq<nat>>, k: nat)
    requires Chained(mem, heads, lists) && k < 8 && |lists[k]| > 0
    ensures var a := lists[k][|lists[k]| - 1];
            && heads[k] == a && a in mem && mem[a].Link?
            && Chained(mem, heads[k := mem[a].next], lists[k := lists[k][..|lists[k]| - 1]])
  {
    assert Linked(mem, heads[k], lists[k]);
  }

  /** A block that is placed and not on its own list is on no list. */
  lemma PlacedOnOneList(l: Layout, a: nat, c: nat)
    requires Separated(l) && Slot(l.slabs, a, c) && !OnList(l.lists, a, c)
    ensures Unlisted(l.lists, a)
  {
    forall d | 0 <= d < 8 ensures a !in l.lists[d] {
      assert a in l.lists[d] <==> OnList(l.lists, a, d + MIN_CLASS);
    }
  }

  /** Moving the top of a free list into use. */
  function Pop(l: Layout, c: nat, b: Block): Layout
    requires |l.lists| == 8 && MIN_CLASS <= c <= MAX_CLASS && |l.lists[c - MIN_CLASS]| > 0
  {
    var nodes := l.lists[c - MIN_CLASS];
    l.(lists := l.lists[c - MIN_CLASS := nodes[..|nodes| - 1]], live := l.live[nodes[|nodes| - 1] := b])
  }

  lemma PopSeparated(l: Layout, c: nat, b: Block)
    requires Separated(l)
    requires MIN_CLASS <= c <= MAX_CLASS && b.cls == c && |l.lists[c - MIN_CLASS]| > 0
    ensures Separated(Pop(l, c, b))
    ensures var nodes := l.lists[c - MIN_CLASS]; nodes[|nodes| - 1] !in l.live && nodes[|nodes| - 1] != 0
    ensures var nodes := l.lists[c - MIN_CLASS]; Unlisted(Pop(l, c, b).lists, nodes[|nodes| - 1])
  {
    var nodes := l.lists[c - MIN_CLASS];
    var a, l' := nodes[|nodes| - 1], Pop(l, c, b);
    assert Distinct(nodes) && OnList(l.lists, a, c);
    forall x, d | OnList(l'.lists, x, d) ensures x != a && OnList(l.lists, x, d) {
      assert OnList(l.lists, x, d) && Slot(l.slabs, x, d) && Slot(l.slabs, a, c);
      assert d == c ==> x in nodes[..|nodes| - 1];
    }
    assert LivePlaced(l'.slabs, l'.live) && LargeApart(l'.live) by {
      forall x, p ensures Spans(l'.live, x, p) <==> Spans(l.live, x, p) {
      }
      forall x | Small(l'.live, x) ensures x == a || Small(l.live, x) {
      }
      forall x | Large(l'.live, x) ensures Large(l.live, x) {
      }
    }
    PlacedOnOneList(l', a, c);
  }

  lemma PopRecorded(l: Layout, mem: map<nat, Cell>, heads: seq<nat>, c: nat, b: Block)
    requires Separated(l) && Recorded(mem, heads, l)
    requires MIN_CLASS <= c <= MAX_CLASS && b.cls == c && |l.lists[c - MIN_CLASS]| > 0
    ensures var nodes := l.lists[c - MIN_CLASS];
            var a := heads[c - MIN_CLASS];
            && a == nodes[|nodes| - 1] && a in mem && mem[a].Link?
            && Recorded(mem[a := Header(MAGIC, c)], heads[c - MIN_CLASS := mem[a].next], Pop(l, c, b))
  {
    PopSeparated(l, c, b);
    ChainedPop(mem, heads, l.lists, c - MIN_CLASS);
    var a := heads[c - MIN_CLASS];
    ChainedFrame(mem, heads[c - MIN_CLASS := mem[a].next], Pop(l, c, b).lists, a, Header(MAGIC, c));
  }

  /** A fresh page of class `c`, not yet carved. */
  lemma NewSlabSeparated(l: Layout, page: nat, c: nat)
    requires Separated(l) && page !in l.slabs
    requires forall a :: !Spans(l.live, a, page)
    ensures Separated(l.(slabs := l.slabs[page := c]))
  {
    var slabs' := l.slabs[page := c];
    forall a, d | Slot(l.slabs, a, d) ensures Slot(slabs', a, d) {
    }
  }

  lemma RetireSeparated(l: Layout, a: nat)
    requires Separated(l) && a in l.live
    ensures Separated(l.(live := l.live - {a}))
  {
    var live' := l.live - {a};
    forall x, p | Spans(live', x, p) ensures Spans(l.live, x, p) {
    }
    forall x | Small(live', x) ensures Small(l.live, x) {
    }
    forall x | Large(live', x) ensures Large(l.live, x) {
    }
  }

  lemma RetireRecorded(l: Layout, mem: map<nat, Cell>, heads: seq<nat>, a: nat)
    requires Recorded(mem, heads, l)
    ensures Recorded(mem, heads, l.(live := l.live - {a}))
  {
  }

  lemma NewLargeSeparated(l: Layout, a: nat, b: Block)
    requires Separated(l) && a !in l.live && a % 4096 == 0 && b.cls > MAX_CLASS
    requires forall p | Spans(map[a := b], a, p) :: p !in l.slabs && forall x :: !Spans(l.live, x, p)
    ensures Separated(l.(live := l.live[a := b])) && Unlisted(l.lists, a)
  {
    var live' := l.live[a := b];
    forall x, p | Spans(live', x, p) ensures Spans(l.live, x, p) || (x == a && Spans(map[a := b], a, p)) {
    }
    forall x | Small(live', x) ensures Small(l.live, x) {
    }
    forall x | Large(live', x) ensures x == a || Large(l.live, x) {
    }
    assert Spans(map[a := b], a, a / 4096);
    forall d | 0 <= d < 8 ensures a !in l.lists[d] {
      assert a in l.lists[d] <==> OnList(l.lists, a, d + MIN_CLASS);
    }
  }

  /** No block lies in page `p`. */
  ghost predicate Fresh(l: Layout, p: nat) {
    p !in l.slabs && forall a :: !Spans(l.live, a, p)
  }

  lemma FreshIsEmpty(l: Layout, p: nat)
    requires Separated(l) && Fresh(l, p)
    ensures forall a: nat | a / 4096 == p :: a !in l.live && forall c :: !OnList(l.lists, a, c)
  {
    forall a: nat | a / 4096 == p ensures a !in l.live && forall c :: !OnList(l.lists, a, c) {
      assert Large(l.live, a) <==> Spans(l.live, a, p);
      assert a in l.live <==> Small(l.live, a) || Large(l.live, a);
    }
  }

  /** Blocks of a class in one page. */
  function PerPage(cls: nat): (n: nat)
    requires MIN_CLASS <= cls <= MAX_CLASS
    ensures n > 0 && n * Pow2(cls) == 4096
  {
    ClassSizes(cls);
    4096 / Pow2(cls)
  }

  lemma NextMultiple(i: nat, s: nat)
    ensures (i + 1) * s == i * s + s
  {
  }

  lemma MultipleMod(i: int, s: int)
    requires s > 0
    ensures i * s % s == 0
  {
    var d := i - i * s / s;
    assert s * d == i * s % s;
    assert d >= 1 ==> s * d >= s;
    assert d <= -1 ==> s * d <= -s;
  }

  lemma MultipleBound(i: nat, n: nat, s: nat)
    requires i < n && s > 0
    ensures i * s + s <= n * s
  {
    assert n * s == i * s + s + (n - i - 1) * s;
  }

  /** The `i`-th block carved from a page. */
  lemma SlotAddress(page: nat, i: nat, cls: nat)
    requires page % 4096 == 0 && MIN_CLASS <= cls <= MAX_CLASS && i < PerPage(cls)
    ensures (page + i * Pow2(cls)) / 4096 == page / 4096
    ensures (page + i * Pow2(cls)) % 4096 % Pow2(cls) == 0
  {
    var off := i * Pow2(cls);
    MultipleBound(i, PerPage(cls), Pow2(cls));
    MultipleMod(i, Pow2(cls));
    PageOffset(page, off);
  }

  lemma PageOffset(page: nat, off: nat)
    requires page % 4096 == 0 && off < 4096
    ensures (page + off) / 4096 == page / 4096 && (page + off) % 4096 == off
  {
  }

  /** Pages that were free a moment ago belong to no block. */
  lemma RunIsFresh(l: Layout, base: nat, free: set<nat>, out: set<nat>, total: nat, at: nat, n: nat)
    requires Backed(l, base, out) && out !! free && IsRun(free, total, at, n) && base % 4096 == 0
    ensures Backed(l, base, out + Run(at, n))
    ensures forall p: nat | base / 4096 + at <= p < base / 4096 + at + n ::
              Held(base, out + Run(at, n), p) && Fresh(l, p)
  {
    forall p | Held(base, out, p) ensures Held(base, out + Run(at, n), p) {
    }
    forall p: nat | base / 4096 + at <= p < base / 4096 + at + n
      ensures Held(base, out + Run(at, n), p) && Fresh(l, p)
    {
      assert p - base / 4096 in free;
      assert !Held(base, out, p);
    }
  }

  /** The free blocks of page `p` lie below `limit`. */
  ghost predicate CarvedTo(l: Layout, p: nat, cls: nat, limit: nat) {
    forall a: nat | OnList(l.lists, a, cls) && a / 4096 == p :: a < limit
  }

  lemma CarveStep(l: Layout, p: nat, cls: nat, node: nat)
    requires |l.lists| == 8 && MIN_CLASS <= cls <= MAX_CLASS && CarvedTo(l, p, cls, node)
    ensures CarvedTo(Push(l, node, cls), p, cls, node + Pow2(cls))
    ensures !(OnList(l.lists, node, cls) && node / 4096 == p)
  {
    forall a: nat | OnList(Push(l, node, cls).lists, a, cls) ensures a == node || OnList(l.lists, a, cls) {
    }
  }

  lemma LargeBacked(l: Layout, a: nat, b: Block, base: nat, out: set<nat>)
    requires Backed(l, base, out) && a != 0 && MAX_CLASS < b.cls < MAX_CLASS + 65
    requires forall p: nat | a / 4096 <= p < a / 4096 + Pow2(b.cls - MAX_CLASS - 1) :: Held(base, out, p)
    ensures Backed(l.(live := l.live[a := b]), base, out)
  {
    var live' := l.live[a := b];
    forall x, p | Spans(live', x, p) ensures Held(base, out, p) {
      assert x != a ==> Spans(l.live, x, p);
    }
    forall x | Large(live', x) ensures live'[x].cls - MAX_CLASS - 1 < 64 && x != 0 {
      assert x != a ==> Large(l.live, x);
    }
  }

  lemma PopBacked(l: Layout, c: nat, b: Block, base: nat, out: set<nat>)
    requires Backed(l, base, out) && b.cls <= MAX_CLASS
    requires |l.lists| == 8 && MIN_CLASS <= c <= MAX_CLASS && |l.lists[c - MIN_CLASS]| > 0
    ensures Backed(Pop(l, c, b), base, out)
  {
    var live' := Pop(l, c, b).live;
    forall x, p | Spans(live', x, p) ensures Spans(l.live, x, p) {
    }
    forall x | Large(live', x) ensures Large(l.live, x) {
    }
  }

  /** The head of a list is null exactly when the list is empty. */
  lemma HeadOfList(l: Layout, mem: map<nat, Cell>, heads: seq<nat>, k: nat)
    requires Separated(l) && Recorded(mem, heads, l) && k < 8
    ensures heads[k] == 0 <==> |l.lists[k]| == 0
  {
    assert Linked(mem, heads[k], l.lists[k]);
    if |l.lists[k]| > 0 {
      assert OnList(l.lists, l.lists[k][|l.lists[k]| - 1], k + MIN_CLASS);
    }
  }

  lemma PageAt(base: nat, at: nat, addr: nat)
    requires base % 4096 == 0 && addr == base + at * 4096
    ensures addr % 4096 == 0 && addr / 4096 == base / 4096 + at && (addr - base) / 4096 == at
    ensures addr == 0 ==> at == 0 && base == 0
  {
  }

  lemma PageDifference(a: nat, base: nat)
    requires a % 4096 == 0 && base % 4096 == 0 && base / 4096 <= a / 4096
    ensures a >= base && (a - base) / 4096 == a / 4096 - base / 4096
  {
  }

  /** The pages of a large block are in the span, handed out, and not free. */
  lemma LargeIsHeld(l: Layout, a: nat, base: nat, out: set<nat>, total: nat) returns (first: nat)
    requires Separated(l) && Backed(l, base, out) && Large(l.live, a) && base % 4096 == 0
    requires base + total * 4096 < TWO64 && forall p | p in out :: p < total
    ensures a % 4096 == 0 && a < TWO64 && l.live[a].cls - MAX_CLASS - 1 < 64
    ensures a >= base && first == (a - base) / 4096 && first + base / 4096 == a / 4096
    ensures first + Pow2(l.live[a].cls - MAX_CLASS - 1) <= total
    ensures Run(first, Pow2(l.live[a].cls - MAX_CLASS - 1)) <= out
  {
    var n := Pow2(l.live[a].cls - MAX_CLASS - 1);
    assert Spans(l.live, a, a / 4096) && Spans(l.live, a, a / 4096 + n - 1);
    PageDifference(a, base);
    first := a / 4096 - base / 4096;
    assert first + n - 1 in out;
    forall q | q in Run(first, n) ensures q in out {
      assert Spans(l.live, a, q + base / 4096);
    }
  }

  lemma RetireBacked(l: Layout, a: nat, base: nat, out: set<nat>, first: nat, n: nat)
    requires Separated(l) && Backed(l, base, out) && Large(l.live, a)
    requires first + base / 4096 == a / 4096 && n == Pow2(l.live[a].cls - MAX_CLASS - 1)
    ensures Backed(l.(live := l.live - {a}), base, out - Run(first, n))
    ensures Unheld(base, out, out - Run(first, n), l.live, a)
  {
    var live' := l.live - {a};
    forall x, p | Spans(live', x, p) ensures Spans(l.live, x, p) && !Spans(l.live, a, p) {
      assert Spans(l.live, x, p);
    }
    forall x | Large(live', x) ensures Large(l.live, x) {
    }
    forall p: nat ensures Held(base, out - Run(first, n), p) <==> Held(base, out, p) && !Spans(l.live, a, p) {
    }
    forall p | p in l.slabs ensures !Spans(l.live, a, p) {
    }
  }

  lemma RetireSmallBacked(l: Layout, a: nat, base: nat, out: set<nat>)
    requires Backed(l, base, out)
    ensures Backed(l.(live := l.live - {a}), base, out)
  {
    var live' := l.live - {a};
    forall x, p | Spans(live', x, p) ensures Spans(l.live, x, p) {
    }
    forall x | Large(live', x) ensures Large(l.live, x) {
    }
  }

  /** The header of a live block names its class. */
  lemma HeaderTells(l: Layout, mem: map<nat, Cell>, heads: seq<nat>, a: nat)
    requires Recorded(mem, heads, l) && a in l.live
    ensures a in mem && mem[a] == Header(MAGIC, l.live[a].cls)
  {
  }

  /** What a small block leaves behind when it stops being live. */
  lemma RetireSmall(l: Layout, mem: map<nat, Cell>, heads: seq<nat>, a: nat, cls: nat, base: nat, out: set<nat>)
    requires Separated(l) && Recorded(mem, heads, l) && Backed(l, base, out)
    requires a in l.live && l.live[a].cls == cls <= MAX_CLASS
    ensures |l.lists| == 8 && MIN_CLASS <= cls && Slot(l.slabs, a, cls) && !OnList(l.lists, a, cls) && a != 0
    ensures Separated(l.(live := l.live - {a})) && Recorded(mem, heads, l.(live := l.live - {a}))
    ensures Backed(l.(live := l.live - {a}), base, out)
  {
    hide Recorded, Backed;
    assert Small(l.live, a);
    RetireSeparated(l, a);
    RetireRecorded(l, mem, heads, a);
    RetireSmallBacked(l, a, base, out);
    SlotNotNull(l, a, cls, base, out);
  }

  /** No header and no link lies inside the payload of a live block. */
  lemma PayloadIsPrivate(l: Layout, a: nat, offset: nat)
    requires Separated(l) && a in l.live && 0 < offset < Extent(l.live[a].cls)
    ensures a + offset !in l.live && Unlisted(l.lists, a + offset)
  {
    var x := a + offset;
    forall c | IsBlock(l, x, c) ensures false {
      BlocksDisjoint(l, a, l.live[a].cls, x, c);
    }
    assert x in l.live ==> IsBlock(l, x, l.live[x].cls);
    forall d | 0 <= d < 8 ensures x !in l.lists[d] {
      assert x in l.lists[d] <==> OnList(l.lists, x, d + MIN_CLASS);
      assert !IsBlock(l, x, d + MIN_CLASS);
    }
  }

  /** Page-granular blocks hold the request exactly for representable sizes. */
  lemma LargeFits(size: nat, extent: nat)
    requires size < TWO64 && WithHeader(size) > 4096
    ensures PagesNeeded(size) * 4096 <= extent <= 0x800_0000_0000 ==>
              (size + 8 <= extent <==> Representable(size))
  {
  }

  lemma SmallFits(size: nat, extent: nat)
    requires size < TWO64 && WithHeader(size) <= 4096
    ensures WithHeader(size) <= extent <= 4096 ==> (size + 8 <= extent <==> Representable(size))
  {
  }

  lemma SlotNotNull(l: Layout, a: nat, c: nat, base: nat, out: set<nat>)
    requires Backed(l, base, out) && Slot(l.slabs, a, c)
    ensures a != 0
  {
  }

  lemma StoreRecorded(l: Layout, mem: map<nat, Cell>, heads: seq<nat>, a: nat, v: Cell)
    requires Recorded(mem, heads, l) && a !in l.live && Unlisted(l.lists, a)
    ensures Recorded(mem[a := v], heads, l)
  {
    ChainedFrame(mem, heads, l.lists, a, v);
  }

  lemma RunMembers(free: set<nat>, total: nat, base: nat, at: nat, n: nat)
    requires IsRun(free, total, at, n)
    ensures forall p: nat | base / 4096 + at <= p < base / 4096 + at + n :: Held(base, free, p)
  {
  }

  /** A small block more owns no page more. */
  lemma SmallKeepsFresh(l: Layout, l2: Layout, a: nat, b: Block)
    requires l2.slabs == l.slabs && l2.live == l.live[a := b] && a !in l.live && b.cls <= MAX_CLASS
    ensures forall p :: Fresh(l2, p) <==> Fresh(l, p)
  {
    forall x, p ensures Spans(l2.live, x, p) <==> Spans(l.live, x, p) {
    }
  }

  /** A large block more owns the pages of its run more. */
  lemma LargeGains(l: Layout, a: nat, b: Block, p: nat)
    requires a !in l.live && b.cls > MAX_CLASS && Fresh(l, p) && !Fresh(l.(live := l.live[a := b]), p)
    ensures a / 4096 <= p < a / 4096 + Pow2(b.cls - MAX_CLASS - 1)
  {
    var x :| Spans(l.live[a := b], x, p);
    assert !Spans(l.live, x, p);
  }

  /** A block less owns no page more. */
  lemma RetireFresh(l: Layout, l2: Layout, a: nat)
    requires l2.slabs == l.slabs && l2.live == l.live - {a}
    ensures forall p: nat | !Fresh(l2, p) :: !Fresh(l, p)
  {
    forall p: nat | !Fresh(l2, p) ensures !Fresh(l, p) {
      if p !in l.slabs {
        var x :| Spans(l2.live, x, p);
        assert Spans(l.live, x, p);
      }
    }
  }

  lemma SpansNotFresh(l: Layout, a: nat, p: nat)
    requires Spans(l.live, a, p)
    ensures !Fresh(l, p)
  {
  }

  lemma RunWasOwned(l: Layout, a: nat, first: nat, base: nat, order: nat)
    requires Large(l.live, a) && l.live[a].cls == MAX_CLASS + order + 1 && first + base / 4096 == a / 4096
    ensures forall p: nat | p in Run(first, Pow2(order)) :: !Fresh(l, p + base / 4096)
  {
    hide Pow2, Run, Fresh;
    forall p: nat | p in Run(first, Pow2(order)) ensures !Fresh(l, p + base / 4096) {
      SpansNotFresh(l, a, p + base / 4096);
    }
  }

  /** The smallest order whose run holds the pages needed. */
  predicate FittingOrder(order: nat, needed: nat) {
    needed <= Pow2(order) && (order > 0 ==> Pow2(order - 1) < needed)
  }

  /** A representable request gets less than twice what it needs, the smallest class apart. */
  lemma LargeTight(size: nat, order: nat)
    requires WithHeader(size) > 4096 && FittingOrder(order, PagesNeeded(size))
    ensures Representable(size) ==> Extent(MAX_CLASS + order + 1) < 2 * (size + 8)
  {
    if Representable(size) {
      assert PagesNeeded(size) == (size + 8 + 4095) / 4096;
      assert PagesNeeded(size) >= 2;
      assert order > 0 && Pow2(order) == 2 * Pow2(order - 1);
    }
  }

  lemma SmallTight(size: nat, cls: nat)
    requires MIN_CLASS <= cls <= MAX_CLASS && (cls > MIN_CLASS ==> Pow2(cls - 1) < WithHeader(size))
    ensures Representable(size) && cls > MIN_CLASS ==> Extent(cls) < 2 * (size + 8)
  {
  }

  /** The blocks of a page, the first `i` of them, each pushed in turn. */
  ghost function Carved(page: nat, cls: nat, i: nat): seq<nat> {
    if i == 0 then [] else Carved(page, cls, i - 1) + [page + (i - 1) * Pow2(cls)]
  }

  ghost function Threaded(lists: seq<seq<nat>>, page: nat, cls: nat, i: nat): (r: seq<seq<nat>>)
    requires |lists| == 8 && MIN_CLASS <= cls <= MAX_CLASS
    ensures |r| == 8
  {
    lists[cls - MIN_CLASS := lists[cls - MIN_CLASS] + Carved(page, cls, i)]
  }

  lemma ThreadedStep(l: Layout, page: nat, cls: nat, i: nat)
    requires |l.lists| == 8 && MIN_CLASS <= cls <= MAX_CLASS
    ensures 0 <= i * Pow2(cls)
    ensures Push(l.(lists := Threaded(l.lists, page, cls, i)), page + i * Pow2(cls), cls) ==
            l.(lists := Threaded(l.lists, page, cls, i + 1))
  {
    hide Pow2;
    var idx := cls - MIN_CLASS;
    var node := page + i * Pow2(cls);
    assert l.lists[idx] + Carved(page, cls, i) + [node] == l.lists[idx] + (Carved(page, cls, i) + [node]);
    assert Carved(page, cls, i + 1) == Carved(page, cls, i) + [node];
  }

  lemma ThreadedNone(l: Layout, page: nat, cls: nat)
    requires |l.lists| == 8 && MIN_CLASS <= cls <= MAX_CLASS
    ensures l.(lists := Threaded(l.lists, page, cls, 0)) == l
  {
    assert l.lists[cls - MIN_CLASS] + [] == l.lists[cls - MIN_CLASS];
    assert Threaded(l.lists, page, cls, 0) == l.lists;
  }

  /** One more slab page, all of its blocks free. */
  ghost predicate Refilled(before: Layout, after: Layout, page: nat, cls: nat) {
    && |before.lists| == 8 && MIN_CLASS <= cls <= MAX_CLASS && page / 4096 !in before.slabs
    && after == before.(slabs := before.slabs[page / 4096 := cls],
       lists := Threaded(before.lists, page, cls, PerPage(cls)))
  }

  // ----- no block is lost -----

  /** Every block of every slab page is live or on the list of its class. */
  ghost predicate NothingLost(l: Layout) {
    forall a, c | Slot(l.slabs, a, c) :: a in l.live || OnList(l.lists, a, c)
  }

  lemma {:induction false} CarvedHolds(page: nat, cls: nat, n: nat, i: nat)
    requires i < n
    ensures 0 <= i * Pow2(cls) && page + i * Pow2(cls) in Carved(page, cls, n)
    decreases n
  {
    if i < n - 1 {
      CarvedHolds(page, cls, n - 1, i);
    }
  }

  /** A block of a page is one of those carved from it. */
  lemma SlotWasCarved(page: nat, cls: nat, a: nat)
    requires page % 4096 == 0 && MIN_CLASS <= cls <= MAX_CLASS
    requires a / 4096 == page / 4096 && a % 4096 % Pow2(cls) == 0
    ensures a in Carved(page, cls, PerPage(cls))
  {
    var s, x := Pow2(cls), a % 4096;
    var i := x / s;
    assert a == page + x && x == i * s by {
      assert x == s * (x / s) + x % s;
    }
    QuotientBound(x, s, PerPage(cls), i);
    CarvedHolds(page, cls, PerPage(cls), i);
  }

  lemma QuotientBound(x: nat, s: nat, n: nat, i: nat)
    requires s > 0 && n * s == 4096 && x < 4096 && x == i * s
    ensures i < n
  {
    assert i >= n ==> i * s >= n * s;
  }

  lemma RefillKeeps(before: Layout, after: Layout, page: nat, cls: nat)
    requires NothingLost(before) && Refilled(before, after, page, cls) && page % 4096 == 0
    ensures NothingLost(after)
  {
    hide Carved, Pow2;
    forall a: nat, c: nat | Slot(after.slabs, a, c) ensures a in after.live || OnList(after.lists, a, c) {
      if a / 4096 == page / 4096 {
        SlotWasCarved(page, cls, a);
      } else {
        assert Slot(before.slabs, a, c);
      }
    }
  }

  lemma RefillBacked(before: Layout, after: Layout, page: nat, cls: nat, base: nat, out: set<nat>)
    requires Backed(before, base, out) && Refilled(before, after, page, cls)
    requires page > 0 && page % 4096 == 0 && Held(base, out, page / 4096)
    ensures Backed(after, base, out)
    ensures forall p: nat | !Fresh(after, p) && Fresh(before, p) :: p == page / 4096
  {
  }

  /** The last node of a list becomes a live block; all else stays. */
  ghost predicate Popped(before: Layout, after: Layout, cls: nat, node: nat, b: Block) {
    && |before.lists| == 8 && MIN_CLASS <= cls <= MAX_CLASS
    && var nodes := before.lists[cls - MIN_CLASS];
    && |nodes| > 0 && node == nodes[|nodes| - 1]
    && after == before.(lists := before.lists[cls - MIN_CLASS := nodes[..|nodes| - 1]], live := before.live[node := b])
  }

  lemma PopKeeps(before: Layout, after: Layout, cls: nat, node: nat, b: Block)
    requires NothingLost(before) && Popped(before, after, cls, node, b)
    ensures NothingLost(after)
  {
    hide Slot;
    var nodes := before.lists[cls - MIN_CLASS];
    forall a, c | Slot(after.slabs, a, c) ensures a in after.live || OnList(after.lists, a, c) {
      assert a in before.live || OnList(before.lists, a, c);
      assert nodes == nodes[..|nodes| - 1] + [node];
    }
  }

  /** A live block goes to the end of its list, where the next allocation finds it; all else stays. */
  ghost predicate Returned(before: Layout, after: Layout, cls: nat, node: nat) {
    && |before.lists| == 8 && MIN_CLASS <= cls <= MAX_CLASS
    && var idx := cls - MIN_CLASS;
    after == before.(lists := before.lists[idx := before.lists[idx] + [node]], live := before.live - {node})
  }

  lemma ReturnKeeps(before: Layout, after: Layout, cls: nat, node: nat)
    requires Separated(before) && NothingLost(before)
    requires Returned(before, after, cls, node) && Slot(before.slabs, node, cls)
    ensures NothingLost(after)
  {
    forall a, c | Slot(after.slabs, a, c) ensures a in after.live || OnList(after.lists, a, c) {
      assert Slot(before.slabs, a, c) && (a == node ==> c == cls);
    }
  }

  /** A small block just freed is the next one its class hands out, and then the lists are as before. */
  lemma FreedIsReusedFirst(l0: Layout, l1: Layout, l2: Layout, cls: nat, a: nat, node: nat, b: Block)
    requires a in l0.live && Returned(l0, l1, cls, a) && Popped(l1, l2, cls, node, b)
    ensures node == a && l2 == l0.(live := l0.live[a := b])
  {
    var idx := cls - MIN_CLASS;
    var nodes := l0.lists[idx];
    assert (nodes + [a])[..|nodes|] == nodes;
    assert l2.lists == l0.lists;
    assert l2.live == l0.live[a := b];
  }

  lemma LargeTakeKeeps(l: Layout, a: nat, b: Block)
    requires NothingLost(l)
    ensures NothingLost(l.(live := l.live[a := b]))
  {
    forall x, c | Slot(l.slabs, x, c) ensures x in l.live[a := b] || OnList(l.lists, x, c) {
      assert x in l.live || OnList(l.lists, x, c);
    }
  }

  lemma LargeRetireKeeps(l: Layout, a: nat)
    requires Separated(l) && NothingLost(l) && Large(l.live, a)
    ensures NothingLost(l.(live := l.live - {a}))
  {
    forall x, c | Slot(l.slabs, x, c) ensures x in l.live - {a} || OnList(l.lists, x, c) {
      assert Spans(l.live, a, a / 4096);
      assert x != a;
    }
  }

  /** The free and the handed-out pages. */
  datatype Ledger = Ledger(free: set<nat>, out: set<nat>)

  ghost predicate TookRun(before: Ledger, after: Ledger, base: nat, addr: nat, n: nat) {
    && addr >= base
    && var run := Run((addr - base) / 4096, n);
    after == Ledger(before.free - run, before.out + run)
  }

  lemma TookAt(before: Ledger, after: Ledger, base: nat, addr: nat, at: nat, n: nat)
    requires addr >= base && (addr - base) / 4096 == at
    requires after == Ledger(before.free - Run(at, n), before.out + Run(at, n))
    ensures TookRun(before, after, base, addr, n)
  {
  }

  ghost predicate GaveRun(before: Ledger, after: Ledger, base: nat, addr: nat, n: nat) {
    && addr >= base
    && var run := Run((addr - base) / 4096, n);
    after == Ledger(before.free + run, before.out - run)
  }

  /** A freed small block goes back on its list; a freed large one gives its pages back. */
  ghost predicate Freed(before: Layout, after: Layout, a: nat, were: Ledger, are: Ledger, base: nat) {
    && a in before.live
    && var cls := before.live[a].cls;
    if cls <= MAX_CLASS then Returned(before, after, cls, a) && are == were
    else after == before.(live := before.live - {a}) && GaveRun(were, are, base, a, Pow2(cls - MAX_CLASS - 1))
  }

  /** A small block comes off its list, at once when the list has one, else after one refill. */
  ghost predicate Served(
    before: Layout, after: Layout, node: nat, b: Block, were: Ledger, are: Ledger, base: nat)
  {
    && |before.lists| == 8 && MIN_CLASS <= b.cls <= MAX_CLASS
    && if |before.lists[b.cls - MIN_CLASS]| > 0
       then Popped(before, after, b.cls, node, b) && are == were
       else exists mid: Layout, page: nat ::
              ServedBy(before, mid, after, node, b, page) && TookRun(were, are, base, page, 1)
  }

  ghost predicate ServedBy(before: Layout, mid: Layout, after: Layout, node: nat, b: Block, page: nat) {
    page % 4096 == 0 && Refilled(before, mid, page, b.cls) && Popped(mid, after, b.cls, node, b)
  }

  class Allocator {
    const pages: PageAllocator
    var mem: map<nat, Cell>
    var heads: seq<nat>
    ghost var l: Layout

    /** Blocks are where they should be, and memory and the page allocator agree. */
    ghost predicate Coherent()
      reads this, pages, pages.bitmap
    {
      && pages.Valid() && pages.Conserved()
      && Separated(l)
      && Recorded(mem, heads, l)
      && Backed(l, pages.heapBase, pages.out)
    }

    ghost predicate Valid()
      reads this, pages, pages.bitmap
    {
      Coherent() && NothingLost(l)
    }

    constructor (p: PageAllocator)
      requires p.Valid() && p.Conserved()
      ensures Valid() && pages == p && l == Layout(map[], [[], [], [], [], [], [], [], []], map[])
    {
      pages := p;
      mem, heads := map[], [0, 0, 0, 0, 0, 0, 0, 0];
      l := Layout(map[], [[], [], [], [], [], [], [], []], map[]);
    }

    /** The smallest class from 5 to 12 that holds the request with its header. */
    method SizeToClass(size: nat) returns (cls: nat)
      requires WithHeader(size) <= 4096
      ensures MIN_CLASS <= cls <= MAX_CLASS && WithHeader(size) <= Pow2(cls)
      ensures cls > MIN_CLASS ==> Pow2(cls - 1) < WithHeader(size)
    {
      ClassSizes(12);
      cls := MIN_CLASS;
      while cls < MAX_CLASS && Pow2(cls) < WithHeader(size)
        invariant MIN_CLASS <= cls <= MAX_CLASS
        invariant cls > MIN_CLASS ==> Pow2(cls - 1) < WithHeader(size)
      {
        cls := cls + 1;
      }
    }

    /** The smallest order whose run holds `needed` pages. */
    method OrderFor(needed: nat) returns (order: nat)
      requires needed <= 0x8000_0000
      ensures order <= 31 && Pow2(order) <= 0x8000_0000 && FittingOrder(order, needed)
    {
      Pow2Of31();
      order := 0;
      while Pow2(order) < needed
        invariant order <= 31 && Pow2(order) <= 0x8000_0000
        invariant order > 0 ==> Pow2(order - 1) < needed
        decreases 31 - order
      {
        Pow2Monotone(order + 1, 31);
        order := order + 1;
      }
    }

    ghost function PageLedger(): Ledger
      reads this, pages
    {
      Ledger(pages.free, pages.out)
    }

    /** No run of the order was free, or the one taken starts at address 0, which reads as failure. */
    twostate predicate NoRun(order: nat)
      reads this, pages
    {
      || (pages.free == old(pages.free) && forall k :: !IsRun(old(pages.free), pages.totalPages, k, Pow2(order)))
      || (pages.heapBase == 0 && IsRun(old(pages.free), pages.totalPages, 0, Pow2(order))
          && pages.free == old(pages.free) - Run(0, Pow2(order)))
    }

    /** Pages were only taken from the free ones. */
    twostate predicate Drawn()
      reads this, pages
    {
      && pages.heapBase == old(pages.heapBase) && pages.totalPages == old(pages.totalPages)
      && pages.free <= old(pages.free) && old(pages.out) <= pages.out
    }

    /** Exactly the `n` pages from an address on were taken. */
    twostate predicate Took(addr: nat, n: nat)
      reads this, pages
    {
      TookRun(old(PageLedger()), PageLedger(), pages.heapBase, addr, n)
    }

    /** Only pages the heap owned became free, and it owns no new page. */
    twostate predicate Releases()
      reads this, pages
    {
      && pages.heapBase == old(pages.heapBase) && pages.totalPages == old(pages.totalPages)
      && (forall p: nat | !Fresh(l, p) :: !Fresh(old(l), p))
      && (forall p: nat | p in pages.free :: p in old(pages.free) || !Fresh(old(l), p + pages.heapBase / 4096))
    }

    /** Pages the heap owns now but not before were free before. */
    twostate predicate Gains()
      reads this, pages
    {
      forall p: nat | !Fresh(l, p) && Fresh(old(l), p) :: Held(pages.heapBase, old(pages.free), p)
    }

    /** Pages fresh from the page allocator: held now, owned by no block. */
    method GetPages(order: nat) returns (addr: nat)
      requires Valid() && order < 64
      modifies pages, pages.bitmap
      ensures Valid() && unchanged(this)
      ensures Drawn()
      ensures addr == 0 ==> NoRun(order)
      ensures addr != 0 ==>
          && addr % 4096 == 0
          && Took(addr, Pow2(order))
          && forall p: nat | addr / 4096 <= p < addr / 4096 + Pow2(order) ::
               Held(pages.heapBase, pages.out, p) && Held(pages.heapBase, old(pages.free), p) && Fresh(l, p)
    {
      hide Separated, Recorded, Fresh, Backed, Run, Pow2, NothingLost, Held, IsRun, TookRun, NoRun;
      PagesApart();
      ghost var at;
      addr, at := DrawRun(order);
      if at >= 0 {
        RunMembers(old(pages.free), pages.totalPages, pages.heapBase, at, Pow2(order));
        RunIsFresh(l, pages.heapBase, old(pages.free), old(pages.out), pages.totalPages, at, Pow2(order));
      }
    }

    lemma PagesApart()
      requires pages.Valid() && pages.Conserved()
      ensures pages.out !! pages.free && pages.heapBase % 4096 == 0
    {
    }

    /** The page allocator's side of it. */
    method DrawRun(order: nat) returns (addr: nat, ghost at: int)
      requires pages.Valid() && pages.Conserved() && order < 64
      modifies pages, pages.bitmap
      ensures pages.Valid() && pages.Conserved() && Drawn()
      ensures addr == 0 ==> NoRun(order)
      ensures addr != 0 ==> at >= 0 && addr % 4096 == 0 && Took(addr, Pow2(order))
      ensures at < 0 ==> pages.out == old(pages.out)
      ensures at >= 0 ==>
          && addr / 4096 == pages.heapBase / 4096 + at
          && IsRun(old(pages.free), pages.totalPages, at, Pow2(order))
          && pages.out == old(pages.out) + Run(at, Pow2(order))
    {
      PagesApart();
      hide IsRun, Run, Pow2, PageAllocator.BitsValid, Balanced, TookRun;
      addr, at := pages.Alloc(order);
      if at >= 0 {
        PageAt(pages.heapBase, at, addr);
        TookAt(old(PageLedger()), PageLedger(), pages.heapBase, addr, at, Pow2(order));
        assert addr == 0 ==> NoRun(order);
      } else {
        assert forall k :: !IsRun(old(pages.free), pages.totalPages, k, Pow2(order));
        assert pages.free == old(pages.free);
        assert NoRun(order);
      }
    }

    /** Put a block at the head of its free list, as both `slab_refill` and `anx_free` do. */
    method PushBlock(node: nat, cls: nat)
      requires Separated(l) && Recorded(mem, heads, l) && Slot(l.slabs, node, cls)
      requires node != 0 && node !in l.live && !OnList(l.lists, node, cls)
      modifies this
      ensures Separated(l) && Recorded(mem, heads, l) && l == Push(old(l), node, cls)
    {
      PushSeparated(l, node, cls);
      PlacedOnOneList(l, node, cls);
      ChainedPush(mem, heads, l.lists, node, cls - MIN_CLASS);
      mem := mem[node := Link(heads[cls - MIN_CLASS])];
      heads := heads[cls - MIN_CLASS := node];
      l := Push(l, node, cls);
    }

    /** Thread the blocks of a page onto the free list of its class. */
    method Carve(page: nat, cls: nat)
      requires Separated(l) && Recorded(mem, heads, l)
      requires MIN_CLASS <= cls <= MAX_CLASS && page % 4096 == 0 && page > 0
      requires page / 4096 in l.slabs && l.slabs[page / 4096] == cls
      requires forall a: nat | a / 4096 == page / 4096 :: a !in l.live && !OnList(l.lists, a, cls)
      modifies this
      ensures Separated(l) && Recorded(mem, heads, l)
      ensures l == old(l).(lists := Threaded(old(l.lists), page, cls, PerPage(cls)))
      ensures |l.lists[cls - MIN_CLASS]| > 0
    {
      hide Recorded, Threaded;
      ThreadedNone(l, page, cls);
      var objSize := Pow2(cls);
      var count := PerPage(cls);
      var i, node := 0, page;
      while i < count
        invariant 0 <= i <= count
        invariant Separated(l) && Recorded(mem, heads, l)
        invariant l == old(l).(lists := Threaded(old(l.lists), page, cls, i))
        invariant i > 0 ==> |l.lists[cls - MIN_CLASS]| > 0
        invariant node == page + i * objSize && CarvedTo(l, page / 4096, cls, node)
      {
        SlotAddress(page, i, cls);
        CarveStep(l, page / 4096, cls, node);
        ThreadedStep(old(l), page, cls, i);
        PushBlock(node, cls);
        NextMultiple(i, objSize);
        i := i + 1;
        node := node + objSize;
      }
    }

    /** A fresh page becomes a slab page of class `cls`, no block of it on the list yet. */
    ghost method StartSlab(page: nat, cls: nat)
      requires Coherent() && MIN_CLASS <= cls <= MAX_CLASS && page % 4096 == 0 && page > 0
      requires Held(pages.heapBase, pages.out, page / 4096) && Fresh(l, page / 4096)
      modifies `l
      ensures Coherent() && page / 4096 !in old(l).slabs && l == old(l).(slabs := old(l).slabs[page / 4096 := cls])
      ensures forall a: nat | a / 4096 == page / 4096 :: a !in l.live && !OnList(l.lists, a, cls)
    {
      var p := page / 4096;
      FreshIsEmpty(l, p);
      NewSlabSeparated(l, p, cls);
      l := l.(slabs := l.slabs[p := cls]);
    }

    /** `slab_refill`: a fresh page, carved for class `cls`. */
    method Refill(cls: nat) returns (ghost page: nat)
      requires Valid() && MIN_CLASS <= cls <= MAX_CLASS
      modifies this, pages, pages.bitmap
      ensures Valid() && l.live == old(l.live)
      ensures Drawn() && Gains()
      ensures l == old(l) ==> NoRun(0)
      ensures l == old(l) || (page % 4096 == 0 && Took(page, 1) && Refilled(old(l), l, page, cls))
      ensures l == old(l) || |l.lists[cls - MIN_CLASS]| > 0
    {
      hide TookRun, Separated, Recorded, Backed, NothingLost, Fresh, Held, NoRun, Refilled;
      var addr := GetPages(0);
      page := addr;
      if addr != 0 {
        assert Held(pages.heapBase, pages.out, addr / 4096) && Fresh(l, addr / 4096);
        AddSlab(addr, cls);
      }
    }

    method AddSlab(page: nat, cls: nat)
      requires Valid() && MIN_CLASS <= cls <= MAX_CLASS && page % 4096 == 0 && page > 0
      requires Held(pages.heapBase, pages.out, page / 4096) && Fresh(l, page / 4096)
      modifies this
      ensures Valid() && Refilled(old(l), l, page, cls) && l != old(l) && |l.lists[cls - MIN_CLASS]| > 0
      ensures l.live == old(l.live)
      ensures forall p: nat | !Fresh(l, p) && Fresh(old(l), p) :: p == page / 4096
    {
      assert |l.lists| == 8;
      hide NothingLost, Separated, Recorded, Threaded, Fresh, Held, Backed, OnList;
      ghost var before := l;
      StartSlab(page, cls);
      Carve(page, cls);
      RefillKeeps(before, l, page, cls);
      RefillBacked(before, l, page, cls, pages.heapBase, pages.out);
    }

    /** The large path: whole pages, the order remembered in the header. */
    method AllocLarge(size: nat) returns (ptr: nat, ghost b: Block)
      requires Valid() && PagesNeeded(size) <= 0x8000_0000
      modifies this, pages, pages.bitmap
      ensures Valid() && Drawn() && Gains()
      ensures b.cls > MAX_CLASS && FittingOrder(b.cls - MAX_CLASS - 1, PagesNeeded(size))
      ensures ptr == 0 ==> l == old(l) && NoRun(b.cls - MAX_CLASS - 1)
      ensures ptr != 0 ==>
          && ptr > 8 && ptr - 8 !in old(l.live)
          && l == old(l).(live := old(l.live)[ptr - 8 := b]) && Took(ptr - 8, Pow2(b.cls - MAX_CLASS - 1))
          && b.size == size
          && PagesNeeded(size) * 4096 <= Extent(b.cls) <= 0x800_0000_0000
    {
      hide Separated, Recorded, Backed, TookRun;
      var order := OrderFor(PagesNeeded(size));
      b := Block(size, MAX_CLASS + order + 1);
      var addr := GetPages(order);
      if addr == 0 {
        return 0, b;
      }
      ghost var before := l;
      TakeLarge(addr, MAX_CLASS + order + 1, b);
      forall p: nat | !Fresh(l, p) && Fresh(before, p) ensures Held(pages.heapBase, old(pages.free), p) {
        LargeGains(before, addr, b, p);
      }
      ptr := addr + 8;
    }

    method TakeLarge(addr: nat, cls: nat, ghost b: Block)
      requires Valid() && addr > 0 && addr % 4096 == 0 && MAX_CLASS < b.cls < MAX_CLASS + 65 && b.cls == cls
      requires forall p: nat | addr / 4096 <= p < addr / 4096 + Pow2(b.cls - MAX_CLASS - 1) ::
                 Held(pages.heapBase, pages.out, p) && Fresh(l, p)
      modifies this
      ensures Valid() && addr !in old(l.live)
      ensures l == old(l).(live := old(l.live)[addr := b])
    {
      hide NothingLost;
      LargeTakeKeeps(l, addr, b);
      assert Fresh(l, addr / 4096);
      FreshIsEmpty(l, addr / 4096);
      NewLargeSeparated(l, addr, b);
      LargeBacked(l, addr, b, pages.heapBase, pages.out);
      StoreRecorded(l, mem, heads, addr, Header(MAGIC, cls));
      mem := mem[addr := Header(MAGIC, cls)];
      l := l.(live := l.live[addr := b]);
    }

    /** The small path: the head of the free list of its class, refilled when empty. */
    method AllocSmall(size: nat) returns (ptr: nat, ghost b: Block)
      requires Valid() && WithHeader(size) <= 4096
      modifies this, pages, pages.bitmap
      ensures Valid() && Drawn() && Gains()
      ensures MIN_CLASS <= b.cls <= MAX_CLASS && (b.cls > MIN_CLASS ==> Pow2(b.cls - 1) < WithHeader(size))
      ensures ptr == 0 ==> l == old(l) && NoRun(0) && |l.lists| == 8 && l.lists[b.cls - MIN_CLASS] == []
      ensures ptr != 0 ==>
          && ptr > 8 && ptr - 8 !in old(l.live)
          && l.live == old(l.live)[ptr - 8 := b]
          && b.size == size
          && WithHeader(size) <= Extent(b.cls) <= 4096
      ensures ptr != 0 ==>
          Served(old(l), l, ptr - 8, b, old(PageLedger()), PageLedger(), pages.heapBase)
    {
      hide LivePlaced, LargeApart, FreePlaced, Linked, Headed, Backed, NothingLost, TookRun;
      var cls := SizeToClass(size);
      b := Block(size, cls);
      ClassSizes(cls);
      var idx := cls - MIN_CLASS;
      HeadOfList(l, mem, heads, idx);
      ghost var page := 0;
      if heads[idx] == 0 {
        page := Refill(cls);
      }
      HeadOfList(l, mem, heads, idx);
      if heads[idx] == 0 {
        return 0, b;
      }
      ghost var mid := l;
      var node := PopBlock(cls, b);
      ptr := node + 8;
      assert mid != old(l) ==> ServedBy(old(l), mid, l, node, b, page);
    }

    method PopBlock(cls: nat, ghost b: Block) returns (node: nat)
      requires Valid() && MIN_CLASS <= cls <= MAX_CLASS && b.cls == cls && |l.lists[cls - MIN_CLASS]| > 0
      modifies this
      ensures Valid() && node > 0 && node !in old(l.live)
      ensures Popped(old(l), l, cls, node, b) && forall p :: Fresh(l, p) <==> Fresh(old(l), p)
    {
      assert |l.lists| == 8 && |heads| == 8;
      hide Fresh, NothingLost, Separated, Recorded, Backed;
      var idx := cls - MIN_CLASS;
      PopSeparated(l, cls, b);
      PopRecorded(l, mem, heads, cls, b);
      PopBacked(l, cls, b, pages.heapBase, pages.out);
      node := heads[idx];
      heads := heads[idx := mem[node].next];
      mem := mem[node := Header(MAGIC, cls)];
      ghost var before := l;
      l := Pop(l, cls, b);
      SmallKeepsFresh(before, l, node, b);
      PopKeeps(before, l, cls, node, b);
    }

    /**
     * `anx_alloc`.  It fails only for size 0 or when the page allocator has no run to give
     * (and, for a small request, the list of its class is empty).  A non-null result is a block
     * disjoint from every other one (see `BlocksDisjoint`); it holds the request and its header
     * exactly when the size is `Representable`.  Orders beyond the 32-bit shift of the source are excluded.
     */
    method Alloc(size: nat) returns (ptr: nat, ghost b: Block)
      requires Valid() && size < TWO64
      requires WithHeader(size) > 4096 ==> PagesNeeded(size) <= 0x8000_0000
      modifies this, pages, pages.bitmap
      ensures Valid() && Drawn() && Gains()
      ensures size == 0 ==> ptr == 0
      ensures ptr == 0 ==> l == old(l)
      ensures ptr == 0 && size > 0 ==>
          if WithHeader(size) > 4096 then b.cls > MAX_CLASS && NoRun(b.cls - MAX_CLASS - 1)
          else MIN_CLASS <= b.cls <= MAX_CLASS && NoRun(0) && |l.lists| == 8 && l.lists[b.cls - MIN_CLASS] == []
      ensures size > 0 && WithHeader(size) > 4096 ==>
          b.cls > MAX_CLASS && FittingOrder(b.cls - MAX_CLASS - 1, PagesNeeded(size))
      ensures size > 0 && WithHeader(size) <= 4096 ==>
          MIN_CLASS <= b.cls <= MAX_CLASS && (b.cls > MIN_CLASS ==> Pow2(b.cls - 1) < WithHeader(size))
      ensures ptr != 0 ==>
          && ptr > 8 && ptr - 8 !in old(l.live)
          && l.live == old(l.live)[ptr - 8 := b]
          && b.size == size
          && (size + 8 <= Extent(b.cls) <==> Representable(size))
          && (Representable(size) && b.cls > MIN_CLASS ==> Extent(b.cls) < 2 * (size + 8))
      ensures ptr != 0 && b.cls <= MAX_CLASS ==>
          Served(old(l), l, ptr - 8, b, old(PageLedger()), PageLedger(), pages.heapBase)
      ensures ptr != 0 && b.cls > MAX_CLASS ==>
          l == old(l).(live := old(l.live)[ptr - 8 := b]) && Took(ptr - 8, Pow2(b.cls - MAX_CLASS - 1))
    {
      hide Separated, Recorded, Backed, NoRun, TookRun, Served, FittingOrder, PageAllocator.BitsValid, Balanced;
      if size == 0 {
        return 0, Block(0, 0);
      }
      if WithHeader(size) > 4096 {
        ptr, b := AllocLarge(size);
        LargeFits(size, Extent(b.cls));
        LargeTight(size, b.cls - MAX_CLASS - 1);
      } else {
        ptr, b := AllocSmall(size);
        SmallFits(size, Extent(b.cls));
        SmallTight(size, b.cls);
      }
    }

    /** `anx_free`: the block leaves the live set, and a large one gives its pages back. */
    method Free(ptr: nat)
      requires Valid()
      requires ptr != 0 ==> ptr >= 8 && ptr - 8 in l.live
      modifies this, pages, pages.bitmap
      ensures Valid() && Releases()
      ensures ptr == 0 ==> l == old(l) && PageLedger() == old(PageLedger())
      ensures ptr != 0 ==> l.live == old(l.live) - {ptr - 8}
      ensures ptr != 0 ==> Freed(old(l), l, ptr - 8, old(PageLedger()), PageLedger(), pages.heapBase)
      ensures ptr != 0 && old(l.live[ptr - 8].cls) > MAX_CLASS ==>
          Unheld(pages.heapBase, old(pages.out), pages.out, old(l.live), ptr - 8)
    {
      if ptr == 0 {
        return;
      }
      var base := ptr - 8;
      HeaderTells(l, mem, heads, base);
      hide Separated, Recorded, Backed, NothingLost, Unheld, GaveRun, Pow2;
      var cls := mem[base].cls;
      if cls > MAX_CLASS {
        FreeLarge(base, cls - MAX_CLASS - 1);
      } else {
        FreeSmall(base, cls);
      }
    }

    method FreeLarge(base: nat, order: nat)
      requires Valid() && base in l.live && l.live[base].cls == MAX_CLASS + order + 1
      modifies this, pages, pages.bitmap
      ensures Valid() && l == old(l).(live := old(l.live) - {base}) && Releases()
      ensures Freed(old(l), l, base, old(PageLedger()), PageLedger(), pages.heapBase)
      ensures Unheld(pages.heapBase, old(pages.out), pages.out, old(l.live), base)
    {
      hide Separated, Recorded, Backed, Run, Pow2, Fresh, PageAllocator.BitsValid, Balanced, NothingLost, Unheld;
      LargeRetireKeeps(l, base);
      ghost var first := LargeRun(base, order);
      GiveRun(base, order, first);
      l := l.(live := l.live - {base});
    }

    /** Where the run of a large block starts, and what giving it back leaves. */
    lemma LargeRun(base: nat, order: nat) returns (first: nat)
      requires Valid() && base in l.live && l.live[base].cls == MAX_CLASS + order + 1
      ensures order < 64 && base < TWO64 && base >= pages.heapBase && base % 4096 == 0
      ensures first == (base - pages.heapBase) / 4096
      ensures first + Pow2(order) <= pages.totalPages && Run(first, Pow2(order)) <= pages.out
      ensures forall p: nat | p in Run(first, Pow2(order)) :: !Fresh(l, p + pages.heapBase / 4096)
      ensures var l2 := l.(live := l.live - {base});
              && Separated(l2) && Recorded(mem, heads, l2)
              && Backed(l2, pages.heapBase, pages.out - Run(first, Pow2(order)))
              && forall p: nat | !Fresh(l2, p) :: !Fresh(l, p)
      ensures Unheld(pages.heapBase, pages.out, pages.out - Run(first, Pow2(order)), l.live, base)
    {
      hide LivePlaced, LargeApart, FreePlaced, Recorded, Backed, Run, Pow2, Fresh;
      RetireSeparated(l, base);
      RetireRecorded(l, mem, heads, base);
      first := LargeIsHeld(l, base, pages.heapBase, pages.out, pages.totalPages);
      RetireBacked(l, base, pages.heapBase, pages.out, first, Pow2(order));
      RunWasOwned(l, base, first, pages.heapBase, order);
      RetireFresh(l, l.(live := l.live - {base}), base);
    }

    /** The pages of a run go back to the page allocator. */
    method GiveRun(addr: nat, order: nat, ghost first: nat)
      requires pages.Valid() && pages.Conserved() && order < 64 && addr < TWO64
      requires addr >= pages.heapBase && addr % 4096 == 0 && first == (addr - pages.heapBase) / 4096
      requires first + Pow2(order) <= pages.totalPages && Run(first, Pow2(order)) <= pages.out
      modifies pages, pages.bitmap
      ensures pages.Valid() && pages.Conserved()
      ensures pages.heapBase == old(pages.heapBase) && pages.totalPages == old(pages.totalPages)
      ensures pages.free == old(pages.free) + Run(first, Pow2(order))
          && pages.out == old(pages.out) - Run(first, Pow2(order))
    {
      hide Run, Pow2;
      assert pages.PageOf(addr) == first;
      pages.Free(addr, order);
    }

    method FreeSmall(base: nat, cls: nat)
      requires Valid() && base in l.live && l.live[base].cls == cls <= MAX_CLASS
      modifies this
      ensures Valid() && Releases() && Freed(old(l), l, base, old(PageLedger()), PageLedger(), pages.heapBase)
    {
      hide Fresh, NothingLost, Separated, Recorded, Slot, OnList, Held, Spans, Large;
      RetireSmall(l, mem, heads, base, cls, pages.heapBase, pages.out);
      ghost var before := l;
      l := l.(live := l.live - {base});
      PushBlock(base, cls);
      RetireFresh(before, l, base);
      ReturnKeeps(before, l, cls, base);
    }

    /** A client's store into an 8-byte cell of the payload of a live block disturbs nothing else. */
    method Store(base: nat, offset: nat, value: nat)
      requires Valid() && base in l.live && 8 <= offset < Extent(l.live[base].cls) && offset % 8 == 0
      modifies `mem
      ensures Valid() && l == old(l) && mem == old(mem)[base + offset := Data(value)]
    {
      hide LivePlaced, LargeApart, FreePlaced, Recorded, Backed, Extent;
      PayloadIsPrivate(l, base, offset);
      StoreRecorded(l, mem, heads, base + offset, Data(value));
      mem := mem[base + offset := Data(value)];
    }
  }
}
