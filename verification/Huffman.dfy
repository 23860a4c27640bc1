/**
 * The canonical Huffman tables of kernel/lib/jpeg.c (Annex C and section F.2.2.3 of ITU-T T.81).
 * A table is its 17 length counts, entry 0 unused; a bit string is what the reader has left.
 */
module Huffman {
  import opened Words

  /** Counts of codes per length, each a byte. */
  predicate IsTable(t: seq<nat>) { |t| == 17 && forall i | 0 <= i < 17 :: t[i] < 256 }

  /** The first code of length `l`: codes of one length count up, and each longer length doubles. */
  function MinCode(t: seq<nat>, l: nat): nat
    requires |t| == 17 && 1 <= l <= 17
  {
    if l == 1 then 0 else 2 * (MinCode(t, l - 1) + t[l - 1])
  }

  /** How many values have shorter codes than `l`. */
  function ValPtr(t: seq<nat>, l: nat): nat
    requires |t| == 17 && 1 <= l <= 17
  {
    if l == 1 then 0 else ValPtr(t, l - 1) + t[l - 1]
  }

  function Total(t: seq<nat>): nat
    requires |t| == 17
  {
    ValPtr(t, 17)
  }

  /** A bit string read as a number, first bit highest. */
  function Value(b: seq<bool>): nat {
    if |b| == 0 then 0 else 2 * Value(b[..|b| - 1]) + (if b[|b| - 1] then 1 else 0)
  }

  /** `b` starts with the code of value `i`, which has length `l`. */
  predicate StartsWithCode(t: seq<nat>, b: seq<bool>, l: nat, i: int)
    requires |t| == 17
  {
    && 1 <= l <= 16 && l <= |b|
    && ValPtr(t, l) <= i < ValPtr(t, l) + t[l]
    && Value(b[..l]) == MinCode(t, l) + (i - ValPtr(t, l))
  }

  /** Found a value, found none in 16 bits, or ran out of bits. */
  datatype Outcome = Found(len: nat, index: int) | NoCode | Starved

  /** The search of `huff_decode` from length `l`: only the upper limit of each length is compared. */
  function Search(t: seq<nat>, b: seq<bool>, l: nat): Outcome
    requires |t| == 17 && 1 <= l <= 17
    decreases 17 - l
  {
    if l == 17 then NoCode
    else if l > |b| then Starved
    else if Value(b[..l]) < MinCode(t, l) + t[l] then Found(l, ValPtr(t, l) + Value(b[..l]) - MinCode(t, l))
    else Search(t, b, l + 1)
  }

  // ----- the arithmetic of prefixes -----

  lemma ValueStep(b: seq<bool>, l: nat)
    requires 0 < l <= |b|
    ensures Value(b[..l]) == 2 * Value(b[..l - 1]) + (if b[l - 1] then 1 else 0)
  {
    assert b[..l][..l - 1] == b[..l - 1];
  }

  /** The prefixes of a string that starts with a code of length `l` are above every shorter code. */
  lemma {:induction false} ShorterMiss(t: seq<nat>, b: seq<bool>, k: nat, l: nat)
    requires |t| == 17 && 1 <= k <= l <= 16 && l <= |b| && Value(b[..l]) >= MinCode(t, l)
    ensures Value(b[..k]) >= MinCode(t, k)
    ensures k < l ==> Value(b[..k]) >= MinCode(t, k) + t[k]
    decreases l - k
  {
    if k < l {
      ShorterMiss(t, b, k + 1, l);
      ValueStep(b, k + 1);
    }
  }

  lemma {:induction false} SearchReaches(t: seq<nat>, b: seq<bool>, k: nat, l: nat, i: int)
    requires |t| == 17 && 1 <= k <= l && StartsWithCode(t, b, l, i)
    ensures Search(t, b, k) == Found(l, i)
    decreases l - k
  {
    ShorterMiss(t, b, k, l);
    if k < l {
      SearchReaches(t, b, k + 1, l, i);
    }
  }

  lemma {:induction false} SearchSound(t: seq<nat>, b: seq<bool>, l: nat)
    requires |t| == 17 && 1 <= l <= 17
    requires l - 1 <= |b| && 2 * Value(b[..l - 1]) >= MinCode(t, l)
    ensures var r := Search(t, b, l);
            && (r.Found? ==> l <= r.len && StartsWithCode(t, b, r.len, r.index))
            && (r.NoCode? ==> |b| >= 16)
            && (r.Starved? ==> |b| < 16)
    decreases 17 - l
  {
    if l <= 16 && l <= |b| {
      ValueStep(b, l);
      if Value(b[..l]) >= MinCode(t, l) + t[l] {
        SearchSound(t, b, l + 1);
      }
    }
  }

  /**
   * The one-sided search is exact: it finds (l, i) if and only if the bits start with the code
   * of value i and length l.  Hence no code is a prefix of another.
   */
  lemma SearchExact(t: seq<nat>, b: seq<bool>, l: nat, i: int)
    requires |t| == 17
    ensures Search(t, b, 1) == Found(l, i) <==> StartsWithCode(t, b, l, i)
  {
    SearchSound(t, b, 1);
    if StartsWithCode(t, b, l, i) {
      SearchReaches(t, b, 1, l, i);
    }
  }

  lemma PrefixFree(t: seq<nat>, b: seq<bool>, l: nat, i: int, k: nat, j: int)
    requires |t| == 17 && StartsWithCode(t, b, l, i) && StartsWithCode(t, b, k, j)
    ensures l == k && i == j
  {
    SearchExact(t, b, l, i);
    SearchExact(t, b, k, j);
  }

  /** The running code stays far inside 32 bits. */
  lemma {:induction false} CodesFitInt(t: seq<nat>, l: nat)
    requires IsTable(t) && 1 <= l <= 16
    ensures MinCode(t, l) + t[l] <= 255 * (Pow2(l) - 1) && 2 * (MinCode(t, l) + t[l]) < 0x8000_0000
    decreases l
  {
    if l > 1 {
      CodesFitInt(t, l - 1);
    }
    Pow2Monotone(l, 16);
    Pow2Of16();
  }

  lemma Pow2Of16()
    ensures Pow2(16) == 65536
  {
    assert Pow2(4) == 16;
    assert Pow2(8) == 16 * Pow2(4);
    assert Pow2(12) == 16 * Pow2(8);
    assert Pow2(16) == 16 * Pow2(12);
  }

  // ----- the encoder a table stands for -----

  /** The low `n` bits of `v`, highest first. */
  function Bits(v: nat, n: nat): (b: seq<bool>)
    ensures |b| == n
  {
    if n == 0 then [] else Bits(v / 2, n - 1) + [v % 2 == 1]
  }

  lemma {:induction false} ValueOfBits(v: nat, n: nat)
    requires v < Pow2(n)
    ensures Value(Bits(v, n)) == v
    decreases n
  {
    if n > 0 {
      ValueOfBits(v / 2, n - 1);
      assert Bits(v, n)[..n - 1] == Bits(v / 2, n - 1);
    }
  }

  /** The length whose block of values holds index `i`, from `l` up. */
  function LengthOf(t: seq<nat>, i: nat, l: nat): (r: nat)
    requires |t| == 17 && 1 <= l <= 16 && ValPtr(t, l) <= i < Total(t)
    ensures l <= r <= 16 && ValPtr(t, r) <= i < ValPtr(t, r) + t[r]
    decreases 17 - l
  {
    if i < ValPtr(t, l) + t[l] then l else LengthOf(t, i, l + 1)
  }

  /** No length has more codes than its bits can tell apart. */
  predicate Fits(t: seq<nat>)
    requires |t| == 17
  {
    forall l | 1 <= l <= 16 :: MinCode(t, l) + t[l] <= Pow2(l)
  }

  /** The code of value `i`. */
  function CodeOf(t: seq<nat>, i: nat): seq<bool>
    requires |t| == 17 && i < Total(t)
  {
    var l := LengthOf(t, i, 1);
    Bits(MinCode(t, l) + (i - ValPtr(t, l)), l)
  }

  lemma CodeDecodes(t: seq<nat>, i: nat, rest: seq<bool>)
    requires |t| == 17 && i < Total(t) && Fits(t)
    ensures Search(t, CodeOf(t, i) + rest, 1) == Found(|CodeOf(t, i)|, i)
  {
    hide Search, MinCode, Value, Bits, Pow2, Total;
    var l := LengthOf(t, i, 1);
    var b := CodeOf(t, i) + rest;
    assert MinCode(t, l) + t[l] <= Pow2(l);
    ValueOfBits(MinCode(t, l) + (i - ValPtr(t, l)), l);
    assert b[..l] == CodeOf(t, i);
    SearchReaches(t, b, 1, l, i);
  }

  lemma {:induction false} ValueBound(b: seq<bool>)
    ensures Value(b) < Pow2(|b|)
  {
    if |b| > 0 {
      ValueBound(b[..|b| - 1]);
    }
  }

  lemma {:induction false} BlocksInOrder(t: seq<nat>, k: nat, l: nat)
    requires |t| == 17 && 1 <= k < l <= 17
    ensures ValPtr(t, k) + t[k] <= ValPtr(t, l)
    decreases l
  {
    if k + 1 < l {
      BlocksInOrder(t, k, l - 1);
    }
  }

  /** The first overfull length has codes of its own, and the last of them does not fit. */
  lemma {:induction false} FirstOverfull(t: seq<nat>, l: nat) returns (k: nat)
    requires |t| == 17 && 1 <= l <= 16 && MinCode(t, l) + t[l] > Pow2(l)
    ensures 1 <= k <= 16 && t[k] > 0 && MinCode(t, k) + t[k] > Pow2(k)
    decreases l
  {
    k := l;
    if t[l] == 0 {
      assert l > 1;
      k := FirstOverfull(t, l - 1);
    }
  }

  /** No bit string decodes to value `i`. */
  ghost predicate Unreachable(t: seq<nat>, i: nat)
    requires |t| == 17
  {
    forall b, l: nat :: !StartsWithCode(t, b, l, i)
  }

  /** A table that does not fit has a value no bits can stand for, so fitting is exactly what decoding back needs. */
  lemma OverfullLosesAValue(t: seq<nat>)
    requires |t| == 17
    ensures Fits(t) <==> forall i: nat | i < Total(t) :: !Unreachable(t, i)
  {
    if Fits(t) {
      forall i: nat | i < Total(t) ensures !Unreachable(t, i) {
        CodeDecodes(t, i, []);
        SearchExact(t, CodeOf(t, i) + [], |CodeOf(t, i)|, i);
      }
    } else {
      var l :| 1 <= l <= 16 && MinCode(t, l) + t[l] > Pow2(l);
      var k := FirstOverfull(t, l);
      LastCodeUnreachable(t, k);
      BlocksInOrder(t, k, 17);
    }
  }

  lemma LastCodeUnreachable(t: seq<nat>, k: nat)
    requires |t| == 17 && 1 <= k <= 16 && t[k] > 0 && MinCode(t, k) + t[k] > Pow2(k)
    ensures Unreachable(t, ValPtr(t, k) + t[k] - 1)
  {
    hide MinCode, ValPtr, Value, Pow2;
    var i := ValPtr(t, k) + t[k] - 1;
    forall b, l: nat ensures !StartsWithCode(t, b, l, i) {
      if 1 <= l <= 16 && l <= |b| {
        ValueBound(b[..l]);
        if k < l {
          BlocksInOrder(t, k, l);
        } else if l < k {
          BlocksInOrder(t, l, k);
        }
      }
    }
  }

  // ----- which values can come back -----

  const VALUES: nat := 256

  /** The first length from `l` on whose codes use up all bit strings that get so far, or 17. */
  function FirstFull(t: seq<nat>, l: nat): (k: nat)
    requires |t| == 17 && 1 <= l <= 17
    ensures l <= k <= 17 && (k <= 16 ==> MinCode(t, k) + t[k] >= Pow2(k))
    ensures forall m | l <= m < k :: MinCode(t, m) + t[m] < Pow2(m)
    decreases 17 - l
  {
    if l == 17 || MinCode(t, l) + t[l] >= Pow2(l) then l else FirstFull(t, l + 1)
  }

  /** How many values the bits can stand for: at a full length only the codes that fit it. */
  function Reach(t: seq<nat>): nat
    requires |t| == 17
  {
    var k := FirstFull(t, 1);
    if k == 17 then Total(t) else FullStart(t, k); ValPtr(t, k) + Pow2(k) - MinCode(t, k)
  }

  lemma ReachWithinTotal(t: seq<nat>)
    requires |t| == 17
    ensures Reach(t) <= Total(t)
  {
    hide MinCode, Pow2;
    var k := FirstFull(t, 1);
    if k < 17 {
      BlocksInOrder(t, k, 17);
    }
  }

  /** No search goes beyond the first full length, and there it stays below the length's own limit. */
  lemma ReachBounds(t: seq<nat>, b: seq<bool>, l: nat, i: int)
    requires |t| == 17 && StartsWithCode(t, b, l, i)
    ensures 0 <= i < Reach(t)
  {
    hide MinCode, ValPtr, Value, Pow2, FirstFull;
    var k := FirstFull(t, 1);
    ValueBound(b[..l]);
    if k < l {
      ShorterMiss(t, b, k, l);
      ValueBound(b[..k]);
      assert false;
    } else if l < k {
      BlocksInOrder(t, l, k);
      if k < 17 {
        FullStart(t, k);
      }
    }
  }

  /** The codes before the first full length leave room for it. */
  lemma FullStart(t: seq<nat>, k: nat)
    requires |t| == 17 && k == FirstFull(t, 1) <= 16
    ensures MinCode(t, k) <= Pow2(k)
  {
    hide FirstFull;
    if k > 1 {
      assert MinCode(t, k - 1) + t[k - 1] < Pow2(k - 1);
    }
  }

  /** Below the reach every value has a code that fits its length. */
  lemma ReachFits(t: seq<nat>, i: nat)
    requires |t| == 17 && i < Reach(t) && i < Total(t)
    ensures var l := LengthOf(t, i, 1); MinCode(t, l) + (i - ValPtr(t, l)) < Pow2(l)
  {
    hide MinCode, ValPtr, Pow2, FirstFull, LengthOf;
    FirstPointer(t);
    var l := LengthOf(t, i, 1);
    var k := FirstFull(t, 1);
    if k < l {
      BlocksInOrder(t, k, l);
      assert false;
    }
  }

  lemma FirstPointer(t: seq<nat>)
    requires |t| == 17
    ensures ValPtr(t, 1) == 0
  {
  }

  lemma ReachAttained(t: seq<nat>, i: nat)
    requires |t| == 17 && i < Reach(t) && i < Total(t)
    ensures Search(t, CodeOf(t, i), 1) == Found(|CodeOf(t, i)|, i)
  {
    hide Search, MinCode, Value, Bits, Pow2, Reach, Total, LengthOf;
    ReachFits(t, i);
    var l := LengthOf(t, i, 1);
    ValueOfBits(MinCode(t, l) + (i - ValPtr(t, l)), l);
    var b := CodeOf(t, i);
    assert b[..l] == b;
    SearchReaches(t, b, 1, l, i);
  }

  /** Some bit string decodes to value `i`. */
  ghost predicate Decodable(t: seq<nat>, i: int)
    requires |t| == 17
  {
    exists b :: Search(t, b, 1).Found? && Search(t, b, 1).index == i
  }

  /** The values that can come back are exactly those below the reach. */
  lemma ReachExact(t: seq<nat>, i: int)
    requires |t| == 17
    ensures Decodable(t, i) <==> 0 <= i < Reach(t)
  {
    hide Search, Reach;
    if 0 <= i < Reach(t) {
      ReachWithinTotal(t);
      ReachAttained(t, i);
    }
    forall b | Search(t, b, 1).Found? && Search(t, b, 1).index == i ensures 0 <= i < Reach(t) {
      FoundStarts(t, b);
      ReachBounds(t, b, Search(t, b, 1).len, i);
    }
  }

  lemma FoundStarts(t: seq<nat>, b: seq<bool>)
    requires |t| == 17 && Search(t, b, 1).Found?
    ensures var r := Search(t, b, 1); StartsWithCode(t, b, r.len, r.index)
  {
    SearchSound(t, b, 1);
  }

  lemma InReach(t: seq<nat>, b: seq<bool>)
    requires |t| == 17
    ensures var r := Search(t, b, 1); r.Found? ==> 0 <= r.index < Reach(t) && 1 <= r.len <= 16 && r.len <= |b|
  {
    hide Search, Reach;
    if Search(t, b, 1).Found? {
      FoundStarts(t, b);
      ReachBounds(t, b, Search(t, b, 1).len, Search(t, b, 1).index);
    }
  }

  /** Decoding `b` reads inside the value array. */
  predicate InArray(t: seq<nat>, b: seq<bool>)
    requires |t| == 17
  {
    Search(t, b, 1).Found? ==> 0 <= Search(t, b, 1).index < VALUES
  }

  /**
   * The value array has 256 entries.  No bit string indexes outside it if and only if the
   * table's reach is at most 256; the counts alone decide that.
   */
  lemma IndexInRange(t: seq<nat>)
    requires |t| == 17
    ensures (forall b :: InArray(t, b)) <==> Reach(t) <= VALUES
  {
    hide Search, Reach;
    if Reach(t) <= VALUES {
      forall b ensures InArray(t, b) {
        InReach(t, b);
      }
    }
    if Reach(t) > VALUES {
      ReachExact(t, VALUES);
      var b :| Search(t, b, 1).Found? && Search(t, b, 1).index == VALUES;
      assert !InArray(t, b);
    }
  }

  /** For a table that fits, the reach is the number of values counted. */
  lemma FitsReachesAll(t: seq<nat>)
    requires |t| == 17
    ensures Fits(t) <==> Reach(t) == Total(t)
  {
    hide Search, Reach, Fits, Total;
    OverfullLosesAValue(t);
    ReachWithinTotal(t);
    forall i: nat | i < Total(t) ensures !Unreachable(t, i) <==> i < Reach(t) {
      ReachableExact(t, i);
    }
    if Fits(t) && Total(t) > 0 {
      assert !Unreachable(t, Total(t) - 1);
    }
  }

  lemma ReachableExact(t: seq<nat>, i: nat)
    requires |t| == 17 && i < Total(t)
    ensures !Unreachable(t, i) <==> i < Reach(t)
  {
    hide Search, Reach, StartsWithCode;
    if i < Reach(t) {
      ReachAttained(t, i);
      FoundStarts(t, CodeOf(t, i));
    } else {
      forall b, l: nat ensures !StartsWithCode(t, b, l, i) {
        if StartsWithCode(t, b, l, i) {
          ReachBounds(t, b, l, i);
        }
      }
    }
  }

  /** Nine- and ten-bit codes, 255 of each: more values than the array holds. */
  const LONG: seq<nat> := [0, 0, 0, 0, 0, 0, 0, 0, 0, 255, 255, 0, 0, 0, 0, 0, 0]

  lemma LongCodes()
    ensures MinCode(LONG, 9) == 0 && MinCode(LONG, 10) == 510 && MinCode(LONG, 11) == 1530
    ensures MinCode(LONG, 14) == 8 * 1530 && MinCode(LONG, 16) == 32 * 1530
    ensures ValPtr(LONG, 9) == 0 && ValPtr(LONG, 10) == 255 && ValPtr(LONG, 11) == 510 && Total(LONG) == 510
  {
    assert MinCode(LONG, 4) == 0 && MinCode(LONG, 7) == 0 && ValPtr(LONG, 4) == 0 && ValPtr(LONG, 7) == 0;
    assert MinCode(LONG, 12) == 2 * MinCode(LONG, 11) && MinCode(LONG, 13) == 2 * MinCode(LONG, 12);
    assert MinCode(LONG, 15) == 2 * MinCode(LONG, 14);
    assert ValPtr(LONG, 13) == 510 && ValPtr(LONG, 15) == 510;
  }

  lemma LongBits()
    ensures |Bits(555, 10)| == 10 && Value(Bits(555, 10)[..10]) == 555
  {
    assert Pow2(10) == 1024 by {
      assert Pow2(4) == 16;
      assert Pow2(7) == 8 * Pow2(4);
    }
    hide Value, Bits, Pow2;
    ValueOfBits(555, 10);
    assert Bits(555, 10)[..10] == Bits(555, 10);
  }

  /** A table the loader accepts can index outside the array: value 300 has a ten-bit code. */
  lemma LongTableOverruns()
    ensures IsTable(LONG) && Search(LONG, Bits(555, 10), 1) == Found(10, 300)
    ensures !InArray(LONG, Bits(555, 10)) && Reach(LONG) > VALUES
  {
    hide Search, Reach, Value, Bits, MinCode, ValPtr;
    LongCodes();
    LongBits();
    SearchReaches(LONG, Bits(555, 10), 1, 10, 300);
    ReachBounds(LONG, Bits(555, 10), 10, 300);
  }

  function Encode(t: seq<nat>, values: seq<nat>): seq<bool>
    requires |t| == 17 && forall k | 0 <= k < |values| :: values[k] < Total(t)
  {
    if |values| == 0 then [] else CodeOf(t, values[0]) + Encode(t, values[1..])
  }

  /** Decoding `n` values in a row; stops short on a string that is not a code. */
  function DecodeMany(t: seq<nat>, b: seq<bool>, n: nat): seq<int>
    requires |t| == 17
    decreases n
  {
    var r := Search(t, b, 1);
    if n == 0 || !r.Found? || r.len > |b| then [] else [r.index] + DecodeMany(t, b[r.len..], n - 1)
  }

  /** Whatever follows, decoding a coded run of values gives the values back. */
  lemma {:induction false} RoundTrip(t: seq<nat>, values: seq<nat>, tail: seq<bool>)
    requires |t| == 17 && Fits(t) && forall k | 0 <= k < |values| :: values[k] < Total(t)
    ensures DecodeMany(t, Encode(t, values) + tail, |values|) == values
    decreases |values|
  {
    hide Search, CodeOf, Total, Fits;
    if |values| > 0 {
      var code, rest := CodeOf(t, values[0]), Encode(t, values[1..]) + tail;
      assert Encode(t, values) + tail == code + rest;
      CodeDecodes(t, values[0], rest);
      assert (code + rest)[|code|..] == rest;
      RoundTrip(t, values[1..], tail);
    }
  }

  // ----- the code -----

  class Tables {
    const bits: seq<nat>
    var mincode: array<int>
    var maxcode: array<int>
    var valptr: array<int>

    ghost predicate Shaped()
      reads this
    {
      && IsTable(bits) && mincode.Length == maxcode.Length == valptr.Length == 17
      && mincode != maxcode && mincode != valptr && maxcode != valptr
    }

    ghost predicate BuiltUpTo(n: nat)
      requires Shaped() && n <= 17
      reads this, mincode, maxcode, valptr
    {
      forall l | 1 <= l < n ::
        mincode[l] == MinCode(bits, l) && maxcode[l] == MinCode(bits, l) + bits[l] - 1 && valptr[l] == ValPtr(bits, l)
    }

    constructor (counts: seq<nat>)
      requires IsTable(counts)
      ensures Shaped() && bits == counts && fresh(mincode) && fresh(maxcode) && fresh(valptr)
    {
      bits := counts;
      mincode, maxcode, valptr := new int[17], new int[17], new int[17];
    }

    /** The inner loop of `build_huffman`: count off the codes of one length. */
    method CountOff(code: int, index: int, n: nat) returns (code': int, index': int)
      ensures code' == code + n && index' == index + n
    {
      code', index' := code, index;
      var j := 0;
      while j < n
        invariant 0 <= j <= n && code' == code + j && index' == index + j
      {
        code', index' := code' + 1, index' + 1;
        j := j + 1;
      }
    }

    /** `build_huffman`: the running counters produce the canonical table. */
    method Build()
      requires Shaped()
      modifies mincode, maxcode, valptr
      ensures Shaped() && BuiltUpTo(17)
    {
      var code, index, i := 0, 0, 1;
      while i <= 16
        invariant 1 <= i <= 17 && Shaped()
        invariant code == MinCode(bits, i) && index == ValPtr(bits, i)
        invariant BuiltUpTo(i)
      {
        mincode[i], valptr[i] := code, index;
        code, index := CountOff(code, index, bits[i]);
        maxcode[i] := code - 1;
        code := 2 * code;
        i := i + 1;
      }
    }
  }

  class Reader {
    var rest: seq<bool>

    /**
     * `huff_decode` on a built table within the array's reach, while bits last: returns the
     * value `Search` finds and consumes exactly its code.
     */
    method Decode(table: Tables, vals: array<int>) returns (v: int)
      requires table.Shaped() && table.BuiltUpTo(17) && vals.Length == VALUES && Reach(table.bits) <= VALUES
      requires !Search(table.bits, rest, 1).Starved?
      modifies this
      ensures var r := Search(table.bits, old(rest), 1);
              match r
              case Found(l, i) =>
                1 <= l <= 16 && l <= |old(rest)| && 0 <= i < VALUES && v == vals[i] && rest == old(rest)[l..]
              case NoCode => v == -1 && rest == old(rest)
              case Starved => false
    {
      hide Reach;
      InReach(table.bits, rest);
      var len := 1;
      while len <= 16
        invariant 1 <= len <= 17 && rest == old(rest)
        invariant Search(table.bits, rest, 1) == Search(table.bits, rest, len)
        decreases 17 - len
      {
        var code := Value(rest[..len]);
        if code <= table.maxcode[len] {
          rest := rest[len..];
          return vals[table.valptr[len] + code - table.mincode[len]];
        }
        len := len + 1;
      }
      return -1;
    }
  }
}
