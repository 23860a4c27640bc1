/**
 * The bitmap page allocator of kernel/lib/page.c: one bit per page of a span,
 * set when the page is free.  Addresses are 64-bit; sums that can wrap in the
 * source wrap here.  The kernel's assertions are preconditions.
 */
module PageBitmap {
  import opened Words

  const MAX_PAGES: nat := 0x10_0000
  const BITMAP_WORDS: nat := 0x4000

  type Address = a: int | 0 <= a < TWO64

  function RoundUp(a: Address): (r: Address) {
    (a + 4095) % TWO64 / 4096 * 4096
  }

  function RoundDown(a: Address): (r: Address) {
    a / 4096 * 4096
  }

  /** `n` consecutive free pages starting at page `i`, all inside the span. */
  ghost predicate IsRun(free: set<nat>, total: nat, i: int, n: nat) {
    && 0 <= i
    && i + n <= total
    && forall p: nat | i <= p < i + n :: p in free
  }

  /** The pages `i, i+1, ..., i+n-1`. */
  ghost function Run(i: nat, n: nat): (s: set<nat>)
    ensures forall p: nat :: p in s <==> i <= p < i + n
    ensures |s| == n
  {
    if n == 0 then {} else Run(i, n - 1) + {i + n - 1}
  }

  lemma SubsetSize(a: set<nat>, b: set<nat>)
    requires a <= b
    ensures |a| <= |b| && |b - a| == |b| - |a|
  {
    assert b == a + (b - a);
  }

  lemma UnionSize(a: set<nat>, b: set<nat>)
    requires a !! b
    ensures |a + b| == |a| + |b|
  {
  }

  lemma TakenBackSize(a: set<nat>, b: set<nat>)
    ensures |a - b| == |a| - |b| <==> b <= a
  {
    SubsetSize(a * b, a);
    SubsetSize(a * b, b);
    assert a - b == a - a * b;
    assert b <= a <==> b - a * b == {};
  }

  /** A run of `n` free pages needs `n` free pages: the early refusal loses nothing. */
  lemma RunNeedsPages(free: set<nat>, total: nat, i: int, n: nat)
    requires IsRun(free, total, i, n)
    ensures n <= |free|
  {
    SubsetSize(Run(i, n), free);
  }

  /** The page `p` of a span at `base` lies wholly inside `[start, end)`. */
  predicate Inside(base: Address, p: nat, start: Address, end: Address) {
    start <= base + p * 4096 && base + (p + 1) * 4096 <= end
  }

  /** Rounding `start` up to a page does not leave the 64-bit space. */
  predicate StartFits(start: Address) { start <= TWO64 - 4096 }

  /** The pages a range selects: those inside it, but all pages below its end when its start does not fit. */
  predicate Selected(base: Address, p: nat, start: Address, end: Address) {
    if StartFits(start) then Inside(base, p, start, end) else base + (p + 1) * 4096 <= end
  }

  /** What the code computes with the rounded start is that selection. */
  lemma RoundedStart(base: Address, p: nat, start: Address, end: Address)
    requires base % 4096 == 0
    ensures Inside(base, p, RoundUp(start), end) <==> Selected(base, p, start, end)
  {
    if StartFits(start) {
      assert (start + 4095) % TWO64 == start + 4095;
      var b := base / 4096;
      assert base + p * 4096 == (b + p) * 4096;
    } else {
      assert (start + 4095) % TWO64 == start + 4095 - TWO64;
    }
  }

  /**
   * A range selects exactly the pages inside it if and only if its start fits, or no page of
   * the span lies below its end.
   */
  lemma SelectionExact(base: Address, total: nat, start: Address, end: Address)
    requires base + total * 4096 < TWO64
    ensures (forall p: nat | p < total :: Selected(base, p, start, end) <==> Inside(base, p, start, end)) <==>
            StartFits(start) || total == 0 || base + 4096 > end
  {
    if !StartFits(start) {
      forall p: nat | p < total ensures !Inside(base, p, start, end) {
      }
      if total > 0 && base + 4096 <= end {
        assert Selected(base, 0, start, end);
      }
    }
  }

  /** The empty range from the last address to 0x3000 selects three pages of a span at 0. */
  lemma WrappedStartSelects(p: nat)
    requires p < 3
    ensures Selected(0, p, TWO64 - 1, 0x3000) && !Inside(0, p, TWO64 - 1, 0x3000)
  {
  }

  /** The accounts balance: usable minus free is what clients hold. */
  ghost predicate Balanced(usable: int, free: set<nat>, out: set<nat>, total: nat) {
    usable - |free| == |out| && out !! free && forall p | p in out :: p < total
  }

  lemma TakeBalances(usable: int, free: set<nat>, out: set<nat>, total: nat, run: set<nat>)
    requires run <= free && forall p | p in free :: p < total
    ensures |free - run| == |free| - |run|
    ensures Balanced(usable, free, out, total) ==> Balanced(usable, free - run, out + run, total)
  {
    SubsetSize(run, free);
    if out !! free {
      UnionSize(out, run);
    }
  }

  lemma GiveBackBalances(usable: int, free: set<nat>, out: set<nat>, total: nat, run: set<nat>)
    requires run !! free
    ensures |free + run| == |free| + |run|
    ensures Balanced(usable, free, out, total) ==>
              (Balanced(usable, free + run, out - run, total) <==> run <= out)
  {
    UnionSize(free, run);
    TakenBackSize(out, run);
  }

  /** `free` is the set of pages whose bit is set. */
  ghost predicate Shows(words: seq<Word>, free: set<nat>)
    requires |words| == BITMAP_WORDS
  {
    forall p: nat | p < MAX_PAGES :: p in free <==> words[p / 64][p % 64]
  }

  class PageAllocator {
    const bitmap: array<Word>
    var heapBase: Address
    var totalPages: nat
    var usablePages: int
    var freeCount: int
    ghost var free: set<nat>   // pages whose bit is set
    ghost var out: set<nat>    // pages handed out and not returned

    /** The bitmap says exactly which pages of the span are free. */
    ghost predicate BitsValid()
      reads `heapBase, `totalPages, `free, bitmap
    {
      && bitmap.Length == BITMAP_WORDS
      && totalPages <= MAX_PAGES
      && heapBase % 4096 == 0
      && heapBase + totalPages * 4096 < TWO64
      && Shows(bitmap[..], free)
      && (forall p | p in free :: p < totalPages)
    }

    /** What every operation keeps. */
    ghost predicate Valid()
      reads this, bitmap
    {
      BitsValid() && freeCount == |free|
    }

    ghost predicate Conserved()
      reads `usablePages, `free, `out, `totalPages
    {
      Balanced(usablePages, free, out, totalPages)
    }

    constructor ()
      ensures Valid() && Conserved() && fresh(bitmap)
      ensures totalPages == 0 && free == {} && out == {}
    {
      bitmap := new Word[BITMAP_WORDS](i => ZERO_WORD);
      heapBase, totalPages, usablePages, freeCount := 0, 0, 0, 0;
      free, out := {}, {};
    }

    method BitSet(page: nat)
      requires BitsValid() && page < totalPages
      modifies bitmap, `free
      ensures BitsValid()
      ensures free == old(free) + {page}
    {
      bitmap[page / 64] := bitmap[page / 64][page % 64 := true];
      free := free + {page};
    }

    method BitClear(page: nat)
      requires BitsValid() && page < totalPages
      modifies bitmap, `free
      ensures BitsValid()
      ensures free == old(free) - {page}
    {
      bitmap[page / 64] := bitmap[page / 64][page % 64 := false];
      free := free - {page};
    }

    method BitTest(page: nat) returns (r: bool)
      requires BitsValid() && page < totalPages
      ensures r == (page in free)
    {
      r := bitmap[page / 64][page % 64];
    }

    /** Start an empty span over the whole pages of `[start, end)`. */
    method InitSpan(start: Address, end: Address)
      requires Valid()
      requires RoundDown(end) > RoundUp(start)
      modifies this, bitmap
      ensures Valid() && Conserved()
      ensures if StartFits(start) then start <= heapBase < start + 4096 else heapBase == 0
      ensures free == {} && out == {} && usablePages == 0
      ensures forall p: nat :: p < totalPages <==> p < MAX_PAGES && Selected(heapBase, p, start, end)
    {
      heapBase := RoundUp(start);
      forall p: nat ensures Inside(heapBase, p, RoundUp(start), end) <==> Selected(heapBase, p, start, end) {
        RoundedStart(heapBase, p, start, end);
      }
      totalPages := (RoundDown(end) - heapBase) / 4096;
      if totalPages > MAX_PAGES {
        totalPages := MAX_PAGES;
      }
      forall i | 0 <= i < bitmap.Length {
        bitmap[i] := ZERO_WORD;
      }
      usablePages, freeCount := 0, 0;
      free, out := {}, {};
    }

    /** The pages of the span that `[start, end)` selects, as a page range. */
    method Clip(start: Address, end: Address) returns (ok: bool, first: nat, last: nat)
      requires BitsValid()
      ensures ok ==> first < last <= totalPages
      ensures !ok ==> first == last == 0
      ensures forall p: nat :: first <= p < last <==> p < totalPages && Selected(heapBase, p, start, end)
      ensures (forall p: nat :: first <= p < last <==> p < totalPages && Inside(heapBase, p, start, end)) <==>
              StartFits(start) || totalPages == 0 || heapBase + 4096 > end
    {
      SelectionExact(heapBase, totalPages, start, end);
      forall p: nat ensures Inside(heapBase, p, RoundUp(start), end) <==> Selected(heapBase, p, start, end) {
        RoundedStart(heapBase, p, start, end);
      }
      var spanEnd := heapBase + totalPages * 4096;
      var s, e := RoundUp(start), RoundDown(end);
      if s < heapBase {
        s := heapBase;
      }
      if e > spanEnd {
        e := spanEnd;
      }
      if e <= s {
        return false, 0, 0;
      }
      return true, (s - heapBase) / 4096, (e - heapBase) / 4096;
    }

    /** A zero word holds no free page, so a search may step over all 64 at once. */
    lemma ZeroWordHasNoFreePage(w: nat)
      requires BitsValid() && w < BITMAP_WORDS && bitmap[w] == ZERO_WORD
      ensures forall p: nat | w * 64 <= p < (w + 1) * 64 :: p !in free
    {
      forall p: nat | w * 64 <= p < (w + 1) * 64 ensures p !in free {
        assert p / 64 == w && !bitmap[..][p / 64][p % 64];
      }
    }

    /** Mark the whole pages of `[start, end)` inside the span free. */
    method AddFree(start: Address, end: Address)
      requires Valid()
      modifies `free, `freeCount, `usablePages, bitmap
      ensures Valid()
      ensures forall p: nat :: p in free <==>
          p in old(free) || (p < totalPages && Selected(heapBase, p, start, end))
      ensures StartFits(start) || totalPages == 0 || heapBase + 4096 > end ==>
          forall p: nat :: p in free <==> p in old(free) || (p < totalPages && Inside(heapBase, p, start, end))
      ensures usablePages - freeCount == old(usablePages - freeCount)
      ensures old(Conserved()) && out !! free ==> Conserved()
    {
      SelectionExact(heapBase, totalPages, start, end);
      var ok, first, last := Clip(start, end);
      if ok {
        AddPages(first, last);
      }
    }

    method AddPages(first: nat, last: nat)
      requires Valid() && first <= last <= totalPages
      modifies `usablePages, `freeCount, `free, bitmap
      ensures Valid()
      ensures forall q: nat :: q in free <==> q in old(free) || first <= q < last
      ensures usablePages - freeCount == old(usablePages - freeCount)
    {
      var p := first;
      while p < last
        invariant first <= p <= last
        invariant Valid()
        invariant forall q: nat :: q in free <==> q in old(free) || first <= q < p
        invariant usablePages - freeCount == old(usablePages - freeCount)
      {
        var b := BitTest(p);
        if !b {
          BitSet(p);
          usablePages := usablePages + 1;
          freeCount := freeCount + 1;
        }
        p := p + 1;
      }
    }

    /** Take the free pages of `[start, end)` out of use; held pages are left alone. */
    method Reserve(start: Address, end: Address)
      requires Valid()
      modifies `free, `freeCount, `usablePages, bitmap
      ensures Valid()
      ensures forall p: nat :: p in free <==>
          p in old(free) && !(p < totalPages && Selected(heapBase, p, start, end))
      ensures StartFits(start) || totalPages == 0 || heapBase + 4096 > end ==>
          forall p: nat :: p in free <==> p in old(free) && !(p < totalPages && Inside(heapBase, p, start, end))
      ensures usablePages - freeCount == old(usablePages - freeCount)
      ensures old(Conserved()) ==> Conserved()
    {
      SelectionExact(heapBase, totalPages, start, end);
      var ok, first, last := Clip(start, end);
      if ok {
        RemovePages(first, last);
      }
    }

    method RemovePages(first: nat, last: nat)
      requires Valid() && first <= last <= totalPages
      modifies `usablePages, `freeCount, `free, bitmap
      ensures Valid()
      ensures forall q: nat :: q in free <==> q in old(free) && !(first <= q < last)
      ensures usablePages - freeCount == old(usablePages - freeCount)
    {
      var p := first;
      while p < last
        invariant first <= p <= last
        invariant Valid()
        invariant forall q: nat :: q in free <==> q in old(free) && !(first <= q < p)
        invariant usablePages - freeCount == old(usablePages - freeCount)
      {
        var b := BitTest(p);
        if b {
          BitClear(p);
          usablePages := usablePages - 1;
          freeCount := freeCount - 1;
        }
        p := p + 1;
      }
    }

    /** How many pages from page `i` on are free, up to `n`. */
    method FreePrefix(i: nat, n: nat) returns (j: nat)
      requires BitsValid() && i + n <= totalPages
      ensures j <= n && IsRun(free, totalPages, i, j)
      ensures j < n ==> i + j !in free
    {
      j := 0;
      while j < n
        invariant j <= n && IsRun(free, totalPages, i, j)
      {
        var b := BitTest(i + j);
        if !b {
          return;
        }
        j := j + 1;
      }
    }

    method ClearRun(first: nat, n: nat)
      requires BitsValid() && first + n <= totalPages
      modifies `free, bitmap
      ensures BitsValid() && free == old(free) - Run(first, n)
    {
      var j := 0;
      while j < n
        invariant j <= n && BitsValid()
        invariant forall q: nat :: q in free <==> q in old(free) && !(first <= q < first + j)
      {
        BitClear(first + j);
        j := j + 1;
      }
    }

    method SetRun(first: nat, n: nat)
      requires BitsValid() && first + n <= totalPages
      modifies `free, bitmap
      ensures BitsValid() && free == old(free) + Run(first, n)
    {
      var j := 0;
      while j < n
        invariant j <= n && BitsValid()
        invariant forall q: nat :: q in free <==> q in old(free) || first <= q < first + j
      {
        BitSet(first + j);
        j := j + 1;
      }
    }

    method Take(first: nat, n: nat) returns (addr: Address)
      requires Valid() && IsRun(free, totalPages, first, n)
      requires n > 0
      modifies `free, `freeCount, `out, bitmap
      ensures Valid()
      ensures free == old(free) - Run(first, n) && out == old(out) + Run(first, n)
      ensures old(Conserved()) ==> Conserved()
      ensures addr == heapBase + first * 4096
    {
      ClearRun(first, n);
      TakeBalances(usablePages, old(free), out, totalPages, Run(first, n));
      freeCount := freeCount - n;
      out := out + Run(first, n);
      addr := heapBase + first * 4096;
    }

    /**
     * Hand out `2^order` consecutive pages.  `at` is the first page taken, or -1.
     * Below 16 pages it is the lowest free run, from 16 pages on the highest, and
     * the call fails exactly when the span holds no free run of that length.
     */
    method Alloc(order: nat) returns (addr: Address, ghost at: int)
      requires Valid() && order < 64
      modifies `free, `freeCount, `out, bitmap
      ensures Valid()
      ensures at >= -1 && (at == -1 <==> forall k :: !IsRun(old(free), totalPages, k, Pow2(order)))
      ensures at == -1 ==> addr == 0 && free == old(free) && out == old(out)
      ensures at >= 0 ==>
          && IsRun(old(free), totalPages, at, Pow2(order))
          && addr == heapBase + at * 4096
          && free == old(free) - Run(at, Pow2(order))
          && out == old(out) + Run(at, Pow2(order))
      ensures at >= 0 && Pow2(order) < 16 ==>
          forall k :: IsRun(old(free), totalPages, k, Pow2(order)) ==> at <= k
      ensures at >= 0 && Pow2(order) >= 16 ==>
          forall k :: IsRun(old(free), totalPages, k, Pow2(order)) ==> k <= at
      ensures old(Conserved()) ==> Conserved()
    {
      var n := Pow2(order);
      at := -1;
      if n > freeCount || n > totalPages {
        forall k | IsRun(free, totalPages, k, n) ensures false {
          RunNeedsPages(free, totalPages, k, n);
        }
        return 0, -1;
      }
      if n >= 16 {
        addr, at := AllocHigh(n);
      } else {
        addr, at := AllocLow(n);
      }
    }

    /** The downward search, used from 16 pages on. */
    method AllocHigh(n: nat) returns (addr: Address, ghost at: int)
      requires Valid() && 0 < n <= totalPages
      modifies `free, `freeCount, `out, bitmap
      ensures Valid()
      ensures at >= -1 && (at == -1 ==> forall k :: !IsRun(old(free), totalPages, k, n))
      ensures at == -1 ==> addr == 0 && free == old(free) && out == old(out)
      ensures at >= 0 ==>
          && IsRun(old(free), totalPages, at, n)
          && addr == heapBase + at * 4096
          && free == old(free) - Run(at, n)
          && out == old(out) + Run(at, n)
          && forall k :: IsRun(old(free), totalPages, k, n) ==> k <= at
      ensures old(Conserved()) ==> Conserved()
    {
      var i := totalPages - n;
      at := -1;
      while true
        invariant 0 <= i <= totalPages - n
        invariant Valid() && free == old(free) && out == old(out)
        invariant freeCount == old(freeCount)
        invariant forall k :: IsRun(free, totalPages, k, n) ==> k <= i
        decreases i
      {
        if bitmap[i / 64] == ZERO_WORD {
          var w := i / 64;
          ZeroWordHasNoFreePage(w);
          assert forall k :: IsRun(free, totalPages, k, n) ==> k in free;
          if w == 0 {
            break;
          }
          i := w * 64 - 1;
          if i + n > totalPages {
            i := totalPages - n;
          }
          continue;
        }
        var j := FreePrefix(i, n);
        if j == n {
          at := i;
          addr := Take(i, n);
          return;
        }
        assert !IsRun(free, totalPages, i, n);
        if i == 0 {
          break;
        }
        i := i - 1;
      }
      addr := 0;
    }

    /** The upward search, used below 16 pages. */
    method AllocLow(n: nat) returns (addr: Address, ghost at: int)
      requires Valid() && 0 < n
      modifies `free, `freeCount, `out, bitmap
      ensures Valid()
      ensures at >= -1 && (at == -1 ==> forall k :: !IsRun(old(free), totalPages, k, n))
      ensures at == -1 ==> addr == 0 && free == old(free) && out == old(out)
      ensures at >= 0 ==>
          && IsRun(old(free), totalPages, at, n)
          && addr == heapBase + at * 4096
          && free == old(free) - Run(at, n)
          && out == old(out) + Run(at, n)
          && forall k :: IsRun(old(free), totalPages, k, n) ==> at <= k
      ensures old(Conserved()) ==> Conserved()
    {
      var i := 0;
      at := -1;
      while i + n <= totalPages
        invariant 0 <= i
        invariant Valid() && free == old(free) && out == old(out)
        invariant freeCount == old(freeCount)
        invariant forall k :: IsRun(free, totalPages, k, n) ==> i <= k
        decreases totalPages - i
      {
        if bitmap[i / 64] == ZERO_WORD {
          var w := i / 64;
          ZeroWordHasNoFreePage(w);
          assert forall k :: IsRun(free, totalPages, k, n) ==> k in free;
          i := (w + 1) * 64;
          continue;
        }
        var j := FreePrefix(i, n);
        if j == n {
          at := i;
          addr := Take(i, n);
          return;
        }
        i := i + j + 1;
      }
      addr := 0;
    }

    /** The page number of an address, as the source computes it. */
    function PageOf(addr: Address): nat
      requires addr >= heapBase
      reads `heapBase
    {
      (addr - heapBase) / 4096
    }

    /** Take `2^order` pages back.  The assertions of the source are the preconditions. */
    method Free(addr: Address, order: nat)
      requires Valid() && order < 64
      requires addr >= heapBase && addr % 4096 == 0
      requires PageOf(addr) + Pow2(order) <= totalPages
      requires Run(PageOf(addr), Pow2(order)) !! free
      modifies `free, `freeCount, `out, bitmap
      ensures Valid()
      ensures free == old(free) + Run(PageOf(addr), Pow2(order))
      ensures out == old(out) - Run(PageOf(addr), Pow2(order))
      ensures old(Conserved()) ==> (Conserved() <==> Run(PageOf(addr), Pow2(order)) <= old(out))
    {
      GiveBack(PageOf(addr), Pow2(order));
    }

    method GiveBack(page: nat, n: nat)
      requires Valid() && page + n <= totalPages && Run(page, n) !! free
      modifies `free, `freeCount, `out, bitmap
      ensures Valid()
      ensures free == old(free) + Run(page, n) && out == old(out) - Run(page, n)
      ensures old(Conserved()) ==> (Conserved() <==> Run(page, n) <= old(out))
    {
      SetRun(page, n);
      GiveBackBalances(usablePages, old(free), out, totalPages, Run(page, n));
      freeCount := freeCount + n;
      out := out - Run(page, n);
    }
  }
}
