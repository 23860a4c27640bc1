/**
 * The deterministic character model of kernel/core/anxml/anxml.c: a bigram table reset
 * on every call, boosted from a corpus, the prompt and an adapter image, then sampled.
 * Characters are byte values.  The token ceiling of the calling cell
 * (anx_cell_cognitive_limit) is a parameter.
 */
module Anxml {
  import opened Results

  const PROMPT_MAX: nat := 1024
  const OUTPUT_MAX: nat := 2048
  const DEFAULT_MAX: nat := 128
  const DELTA_MAX: nat := 16

  datatype Result<+T> = Ok(value: T) | Err(error: Error)

  // ----- adapter images -----

  datatype Delta = Delta(previous: nat, next: nat, boost: nat)
  datatype Image = Image(format: nat, count: nat, deltas: seq<Delta>)

  /** The image is a bounded set of distinct, non-zero boosts; unused slots are zero. */
  ghost predicate ValidImage(m: Image) {
    && m.format == 1 && 1 <= m.count <= DELTA_MAX && |m.deltas| == DELTA_MAX
    && (forall i | 0 <= i < m.count ::
          m.deltas[i].previous < 128 && m.deltas[i].next < 128 && 1 <= m.deltas[i].boost <= 4096)
    && (forall i, j | 0 <= j < i < m.count ::
          !(m.deltas[j].previous == m.deltas[i].previous && m.deltas[j].next == m.deltas[i].next))
    && (forall i | m.count <= i < DELTA_MAX :: m.deltas[i] == Delta(0, 0, 0))
  }

  /** `anx_adapter_image_check`. */
  method ImageCheck(m: Image) returns (ok: bool)
    requires |m.deltas| == DELTA_MAX
    ensures ok <==> ValidImage(m)
  {
    if m.format != 1 || m.count == 0 || m.count > DELTA_MAX {
      return false;
    }
    var i := 0;
    while i < DELTA_MAX
      invariant 0 <= i <= DELTA_MAX
      invariant forall k | 0 <= k < i && k < m.count ::
        m.deltas[k].previous < 128 && m.deltas[k].next < 128 && 1 <= m.deltas[k].boost <= 4096
      invariant forall k, j | 0 <= j < k < i && k < m.count ::
        !(m.deltas[j].previous == m.deltas[k].previous && m.deltas[j].next == m.deltas[k].next)
      invariant forall k | m.count <= k < i :: m.deltas[k] == Delta(0, 0, 0)
    {
      var d := m.deltas[i];
      if i >= m.count {
        if d.previous != 0 || d.next != 0 || d.boost != 0 {
          return false;
        }
      } else {
        if d.previous >= 128 || d.next >= 128 || d.boost == 0 || d.boost > 4096 {
          return false;
        }
        var j := 0;
        while j < i
          invariant 0 <= j <= i
          invariant forall k | 0 <= k < j :: !(m.deltas[k].previous == d.previous && m.deltas[k].next == d.next)
        {
          if m.deltas[j].previous == d.previous && m.deltas[j].next == d.next {
            return false;
          }
          j := j + 1;
        }
      }
      i := i + 1;
    }
    ok := true;
  }

  // ----- the table as counts -----

  /** How often `j` follows `i` in a text read after the character `prev`. */
  function Count(prev: nat, text: seq<nat>, i: nat, j: nat): nat
    decreases text
  {
    if text == [] then 0
    else (if prev == i && text[0] % 128 == j then 1 else 0) + Count(text[0] % 128, text[1..], i, j)
  }

  function LastOf(prev: nat, text: seq<nat>): nat {
    if text == [] then prev else text[|text| - 1] % 128
  }

  lemma {:induction false} CountAppend(prev: nat, text: seq<nat>, c: nat, i: nat, j: nat)
    ensures Count(prev, text + [c], i, j)
         == Count(prev, text, i, j) + if LastOf(prev, text) == i && c % 128 == j then 1 else 0
    decreases text
  {
    if text == [] {
      assert text + [c] == [c] && [c][1..] == [];
    } else {
      CountAppend(text[0] % 128, text[1..], c, i, j);
      assert (text + [c])[1..] == text[1..] + [c];
      assert LastOf(text[0] % 128, text[1..]) == LastOf(prev, text);
    }
  }

  function Before(prev: nat, text: seq<nat>, k: nat): nat
    requires k < |text|
  {
    if k == 0 then prev else text[k - 1] % 128
  }

  /** The places of a text, read after `prev`, where `j` follows `i`. */
  ghost function Places(prev: nat, text: seq<nat>, i: nat, j: nat): set<nat> {
    set k | 0 <= k < |text| && text[k] % 128 == j && Before(prev, text, k) == i
  }

  lemma PlacesAppend(prev: nat, t: seq<nat>, c: nat, i: nat, j: nat)
    ensures |Places(prev, t + [c], i, j)|
         == |Places(prev, t, i, j)| + if LastOf(prev, t) == i && c % 128 == j then 1 else 0
  {
    var n, all, text := |t|, Places(prev, t, i, j), t + [c];
    var last := if LastOf(prev, t) == i && c % 128 == j then {n} else {};
    assert Before(prev, text, n) == LastOf(prev, t) && text[n] == c;
    assert forall k: nat | k < n :: text[k] == t[k] && Before(prev, text, k) == Before(prev, t, k);
    assert Places(prev, text, i, j) == all + last;
    assert n !in all;
  }

  lemma {:induction false} CountIsPlaces(prev: nat, text: seq<nat>, i: nat, j: nat)
    ensures Count(prev, text, i, j) == |Places(prev, text, i, j)|
    decreases |text|
  {
    hide LastOf;
    if text == [] {
      assert Places(prev, text, i, j) == {};
    } else {
      var n := |text| - 1;
      var t, c := text[..n], text[n];
      assert text == t + [c];
      CountIsPlaces(prev, t, i, j);
      CountAppend(prev, t, c, i, j);
      PlacesAppend(prev, t, c, i, j);
    }
  }

  function Bytes(s: string): seq<nat> {
    seq(|s|, i requires 0 <= i < |s| => s[i] as nat)
  }

  const CORPUS: seq<string> := [
    "the quick brown fox jumps over the lazy dog\n",
    "anunix is an ai native operating system\n",
    "state objects replace files. cells replace processes.\n",
    "workflows compose cells into directed graphs\n",
    "the inference runtime is anxml. the kernel is the control plane.\n",
    "to be or not to be that is the question\n",
    "hello world from the anxml toy model\n",
    "every object has an oid. every cell has a cid.\n",
    "the answer to the question is yes.\n",
    "a model is a namespace of state objects.\n"
  ]

  function CorpusCount(lines: seq<string>, i: nat, j: nat): nat {
    if lines == [] then 0
    else CorpusCount(lines[..|lines| - 1], i, j) + Count(32, Bytes(lines[|lines| - 1]), i, j)
  }

  /** The places of a corpus, by line, where `j` follows `i`. */
  ghost function CorpusPlaces(lines: seq<string>, i: nat, j: nat): set<(nat, nat)> {
    set l, k | 0 <= l < |lines| && k in Places(32, Bytes(lines[l]), i, j) :: (l, k)
  }

  ghost function Tagged(l: nat, s: set<nat>): set<(nat, nat)> {
    set k | k in s :: (l, k)
  }

  lemma {:induction false} TaggedSize(l: nat, s: set<nat>)
    ensures |Tagged(l, s)| == |s|
    decreases |s|
  {
    if s == {} {
      assert Tagged(l, s) == {};
    } else {
      var k :| k in s;
      TaggedSize(l, s - {k});
      assert Tagged(l, s) == Tagged(l, s - {k}) + {(l, k)};
    }
  }

  lemma {:induction false} CorpusCountIsPlaces(lines: seq<string>, i: nat, j: nat)
    ensures CorpusCount(lines, i, j) == |CorpusPlaces(lines, i, j)|
    decreases |lines|
  {
    hide Places;
    if lines == [] {
      assert CorpusPlaces(lines, i, j) == {};
    } else {
      var n := |lines| - 1;
      var here := Places(32, Bytes(lines[n]), i, j);
      CorpusCountIsPlaces(lines[..n], i, j);
      CountIsPlaces(32, Bytes(lines[n]), i, j);
      TaggedSize(n, here);
      assert CorpusPlaces(lines, i, j) == CorpusPlaces(lines[..n], i, j) + Tagged(n, here);
      assert CorpusPlaces(lines[..n], i, j) !! Tagged(n, here);
    }
  }

  function Boost(deltas: seq<Delta>, i: nat, j: nat): nat {
    if deltas == [] then 0
    else Boost(deltas[..|deltas| - 1], i, j) +
         var d := deltas[|deltas| - 1]; if d.previous == i && d.next == j then d.boost else 0
  }

  /** The table entry: 4 per corpus occurrence, 8 per prompt occurrence, plus the image. */
  function Weight(prompt: seq<nat>, deltas: seq<Delta>, i: nat, j: nat): nat {
    4 * CorpusCount(CORPUS, i, j) + 8 * Count(32, prompt, i, j) + Boost(deltas, i, j)
  }

  /** `b` is the boost of the one delta for the pair, or 0 when there is none. */
  ghost predicate BoostIs(deltas: seq<Delta>, i: nat, j: nat, b: nat) {
    || (exists k | 0 <= k < |deltas| :: deltas[k] == Delta(i, j, b))
    || (b == 0 && forall k | 0 <= k < |deltas| :: !(deltas[k].previous == i && deltas[k].next == j))
  }

  ghost predicate DistinctPairs(deltas: seq<Delta>) {
    forall k, n | 0 <= n < k < |deltas| ::
      !(deltas[n].previous == deltas[k].previous && deltas[n].next == deltas[k].next)
  }

  lemma {:induction false} BoostIsTheDelta(deltas: seq<Delta>, i: nat, j: nat)
    requires DistinctPairs(deltas)
    ensures BoostIs(deltas, i, j, Boost(deltas, i, j))
    ensures forall b: nat | BoostIs(deltas, i, j, b) :: b == Boost(deltas, i, j)
    decreases |deltas|
  {
    if deltas != [] {
      var n := |deltas| - 1;
      var front := deltas[..n];
      BoostIsTheDelta(front, i, j);
      assert deltas[n].previous == i && deltas[n].next == j ==> BoostIs(front, i, j, 0);
      var b := Boost(front, i, j);
      assert BoostIs(front, i, j, b);
      if deltas[n].previous == i && deltas[n].next == j {
        assert deltas[n] == Delta(i, j, Boost(deltas, i, j));
      } else if k :| 0 <= k < n && front[k] == Delta(i, j, b) {
        assert deltas[k] == Delta(i, j, b);
      }
      forall b': nat | BoostIs(deltas, i, j, b') ensures b' == Boost(deltas, i, j) {
        if k :| 0 <= k < |deltas| && deltas[k] == Delta(i, j, b') && k < n {
          assert front[k] == Delta(i, j, b') && BoostIs(front, i, j, b');
        }
      }
    }
  }

  /** What prompt and corpus alone give a pair. */
  ghost function Seen(prompt: seq<nat>, i: nat, j: nat): nat {
    4 * |CorpusPlaces(CORPUS, i, j)| + 8 * |Places(32, prompt, i, j)|
  }

  /** The table in terms of occurrences and of the image: no delta, no change; a delta, exactly its boost. */
  lemma WeightMeaning(prompt: seq<nat>, deltas: seq<Delta>, i: nat, j: nat)
    ensures Weight(prompt, [], i, j) == Seen(prompt, i, j) <= Weight(prompt, deltas, i, j)
    ensures DistinctPairs(deltas) ==> forall b: nat | BoostIs(deltas, i, j, b) ::
              Weight(prompt, deltas, i, j) == Seen(prompt, i, j) + b
    ensures DistinctPairs(deltas) ==> BoostIs(deltas, i, j, Weight(prompt, deltas, i, j) - Seen(prompt, i, j))
  {
    hide CorpusPlaces, Places;
    CorpusCountIsPlaces(CORPUS, i, j);
    CountIsPlaces(32, prompt, i, j);
    if DistinctPairs(deltas) {
      BoostIsTheDelta(deltas, i, j);
    }
  }

  function Row(prompt: seq<nat>, deltas: seq<Delta>, i: nat): (r: seq<nat>)
    ensures |r| == 128
  {
    seq(128, j requires 0 <= j < 128 => Weight(prompt, deltas, i, j))
  }

  // ----- sampling a row -----

  function Sum(row: seq<nat>): nat {
    if row == [] then 0 else Sum(row[..|row| - 1]) + row[|row| - 1]
  }

  /** The largest of the first `n` entries, and where it first stands. */
  function BestValue(row: seq<nat>, n: nat): nat
    requires n <= |row|
  {
    if n == 0 then 0
    else if row[n - 1] > BestValue(row, n - 1) then row[n - 1] else BestValue(row, n - 1)
  }

  function BestIndex(row: seq<nat>, n: nat): nat
    requires n <= |row|
  {
    if n == 0 then 32
    else if row[n - 1] > BestValue(row, n - 1) then n - 1 else BestIndex(row, n - 1)
  }

  /** The greedy choice: the first character of the largest weight. */
  lemma {:induction false} GreedyIsFirstLargest(row: seq<nat>, n: nat)
    requires n <= |row|
    ensures forall k | 0 <= k < n :: row[k] <= BestValue(row, n)
    ensures BestValue(row, n) == 0 ==> BestIndex(row, n) == 32
    ensures BestValue(row, n) > 0 ==>
              && BestIndex(row, n) < n && row[BestIndex(row, n)] == BestValue(row, n)
              && forall k | 0 <= k < BestIndex(row, n) :: row[k] < BestValue(row, n)
  {
    if n > 0 {
      GreedyIsFirstLargest(row, n - 1);
    }
  }

  /** The first entry from `n` on whose running total exceeds `r`. */
  function Draw(row: seq<nat>, r: nat, n: nat): nat
    requires n <= |row|
    decreases |row| - n
  {
    if n == |row| then 32
    else if r < Sum(row[..n + 1]) then n
    else Draw(row, r, n + 1)
  }

  lemma SumStep(row: seq<nat>, n: nat)
    requires n < |row|
    ensures Sum(row[..n + 1]) == Sum(row[..n]) + row[n]
  {
    assert row[..n + 1][..n] == row[..n];
  }

  /** A draw below the total lands in the interval of the character it returns. */
  lemma {:induction false} DrawLands(row: seq<nat>, r: nat, n: nat)
    requires n <= |row| && Sum(row[..n]) <= r < Sum(row)
    ensures n <= Draw(row, r, n) < |row|
    ensures Sum(row[..Draw(row, r, n)]) <= r < Sum(row[..Draw(row, r, n) + 1])
    decreases |row| - n
  {
    assert row[..|row|] == row;
    if r >= Sum(row[..n + 1]) {
      DrawLands(row, r, n + 1);
    }
  }

  /** xorshift32, with the source's replacement for a zero state. */
  function RngStep(state: bv32): bv32 {
    var x0 := if state == 0 then 0x1234_5678 else state;
    var x1 := x0 ^ (x0 << 13);
    var x2 := x1 ^ (x1 >> 17);
    x2 ^ (x2 << 5)
  }

  /** The step before a state. */
  function RngUndo(state: bv32): bv32 {
    var x2 := state ^ (state << 5) ^ (state << 10) ^ (state << 15) ^ (state << 20) ^ (state << 25) ^ (state << 30);
    var x1 := x2 ^ (x2 >> 17);
    x1 ^ (x1 << 13) ^ (x1 << 26)
  }

  lemma UndoLeft13(x: bv32)
    ensures var z := x ^ (x << 13); z ^ (z << 13) ^ (z << 26) == x
  {
  }

  lemma UndoRight17(x: bv32)
    ensures var z := x ^ (x >> 17); z ^ (z >> 17) == x
  {
  }

  lemma UndoLeft5(x: bv32)
    ensures var z := x ^ (x << 5); z ^ (z << 5) ^ (z << 10) ^ (z << 15) ^ (z << 20) ^ (z << 25) ^ (z << 30) == x
  {
  }

  /** The generator runs backwards, so no state is met again before the first one is, and 0 is never met. */
  lemma RngIsReversible(x: bv32)
    ensures RngUndo(RngStep(x)) == (if x == 0 then 0x1234_5678 else x) && RngStep(x) != 0
  {
    var x0 := if x == 0 then 0x1234_5678 else x;
    var x1 := x0 ^ (x0 << 13);
    var x2 := x1 ^ (x1 >> 17);
    UndoLeft13(x0);
    UndoRight17(x1);
    UndoLeft5(x2);
    UndoZero();
  }

  lemma UndoZero()
    ensures RngUndo(0) == 0
  {
  }

  datatype Sampler = Greedy | Seeded(state: bv32)

  /** The next character and the sampler afterwards. */
  function Sample(row: seq<nat>, s: Sampler): (nat, Sampler)
  {
    if Sum(row) == 0 then (32, s)
    else match s
      case Greedy => (BestIndex(row, |row|), s)
      case Seeded(state) =>
        var x := RngStep(state);
        (Draw(row, (x as nat) % Sum(row), 0), Seeded(x))
  }

  /** The first character of the largest weight, a space when every weight is 0. */
  ghost predicate FirstLargest(row: seq<nat>, c: nat) {
    if forall k | 0 <= k < |row| :: row[k] == 0 then c == 32
    else c < |row| && (forall k | 0 <= k < |row| :: row[k] <= row[c]) && forall k | 0 <= k < c :: row[k] < row[c]
  }

  /** `r` lies in the interval that the weight of `c` takes up. */
  ghost predicate LandsOn(row: seq<nat>, r: nat, c: nat) {
    c < |row| && Sum(row[..c]) <= r < Sum(row[..c]) + row[c]
  }

  lemma {:induction false} SumIsZero(row: seq<nat>)
    ensures Sum(row) == 0 <==> forall k | 0 <= k < |row| :: row[k] == 0
  {
    if row != [] {
      SumIsZero(row[..|row| - 1]);
    }
  }

  /** What a sample is, without the loops that find it. */
  lemma SampleMeaning(row: seq<nat>, s: Sampler)
    ensures var (c, s') := Sample(row, s);
            && (s == Greedy ==> s' == Greedy && FirstLargest(row, c))
            && (s.Seeded? && Sum(row) == 0 ==> c == 32 && s' == s)
            && (s.Seeded? && Sum(row) > 0 ==>
                  s' == Seeded(RngStep(s.state)) && LandsOn(row, (s'.state as nat) % Sum(row), c))
  {
    hide RngStep;
    SumIsZero(row);
    GreedyIsFirstLargest(row, |row|);
    if s.Seeded? && Sum(row) > 0 {
      var r := (RngStep(s.state) as nat) % Sum(row);
      DrawLands(row, r, 0);
      SumStep(row, Draw(row, r, 0));
    }
  }

  // ----- generation -----

  /** What is emitted for a sampled character: control characters become spaces. */
  function Shown(c: nat): nat {
    if c < 32 && c != 10 && c != 9 then 32 else c
  }

  /** The text generated from the character `prev` with `budget` tokens left. */
  function Emit(prompt: seq<nat>, deltas: seq<Delta>, prev: nat, s: Sampler, printed: bool, len: nat, budget: nat)
    : (out: seq<nat>)
    ensures |out| <= budget
    decreases budget
  {
    if budget == 0 then []
    else
      var (c, s') := Sample(Row(prompt, deltas, prev), s);
      if c == 10 && printed then [10]
      else if len >= OUTPUT_MAX - 1 then []
      else [Shown(c)] + Emit(prompt, deltas, Shown(c), s', printed || Shown(c) > 32, len + 1, budget - 1)
  }

  /** One round of the loop: stop on a newline, stop on a full buffer, or emit and go on. */
  lemma EmitStep(prompt: seq<nat>, deltas: seq<Delta>, prev: nat, s: Sampler, printed: bool, len: nat, budget: nat,
                 c: nat, s': Sampler, done: seq<nat>)
    requires budget > 0 && (c, s') == Sample(Row(prompt, deltas, prev), s)
    ensures done + Emit(prompt, deltas, prev, s, printed, len, budget) ==
            if c == 10 && printed then done + [10]
            else if len >= OUTPUT_MAX - 1 then done
            else (done + [Shown(c)])
                 + Emit(prompt, deltas, Shown(c), s', printed || Shown(c) > 32, len + 1, budget - 1)
  {
    hide Sample, Row, Shown;
  }

  lemma EmitNothing(prompt: seq<nat>, deltas: seq<Delta>, prev: nat, s: Sampler, printed: bool, len: nat)
    ensures Emit(prompt, deltas, prev, s, printed, len, 0) == []
  {
  }

  datatype Request = Request(named: bool, prompt: seq<nat>, maxTokens: nat, seed: bv32)
  datatype Response = Response(output: seq<nat>, tokens: nat)

  /** The output for a prompt, token budget, seed and image: nothing else matters. */
  function Output(prompt: seq<nat>, budget: nat, seed: bv32, deltas: seq<Delta>): (out: seq<nat>)
    ensures |out| <= budget
  {
    Emit(prompt, deltas, LastOf(32, prompt), if seed == 0 then Greedy else Seeded(seed), false, 0, budget)
  }

  /** A character that is shown as it is. */
  predicate Showable(c: nat) { c == 9 || c == 10 || c >= 32 }

  /** How an output ends: a full budget, a full buffer, or a newline after something printed. */
  ghost predicate Ended(out: seq<nat>, printed: bool, len: nat, budget: nat) {
    || |out| == budget
    || len + |out| >= OUTPUT_MAX - 1
    || (|out| > 0 && out[|out| - 1] == 10 && (printed || exists k | 0 <= k < |out| - 1 :: out[k] > 32))
  }

  /** A newline inside the output comes before anything printed. */
  ghost predicate NewlinesLead(out: seq<nat>, printed: bool) {
    forall k | 0 <= k < |out| - 1 && out[k] == 10 :: !printed && forall n | 0 <= n < k :: out[n] <= 32
  }

  ghost predicate Picked(row: seq<nat>, d: nat) {
    exists c: nat :: d == (if Showable(c) then c else 32) && FirstLargest(row, c)
  }

  /** Each greedy character is the first largest of the row of the one before it. */
  ghost predicate Chained(out: seq<nat>, prompt: seq<nat>, deltas: seq<Delta>, prev: nat) {
    && (|out| > 0 ==> Picked(Row(prompt, deltas, prev), out[0]))
    && forall k, n | 0 <= k < n < |out| && n == k + 1 :: Picked(Row(prompt, deltas, out[k]), out[n])
  }

  lemma {:induction false} EmitShape(prompt: seq<nat>, deltas: seq<Delta>, prev: nat, s: Sampler, printed: bool,
                                     len: nat, budget: nat)
    requires len <= OUTPUT_MAX - 1
    ensures var out := Emit(prompt, deltas, prev, s, printed, len, budget);
            && (forall k | 0 <= k < |out| :: Showable(out[k]))
            && NewlinesLead(out, printed) && Ended(out, printed, len, budget)
            && (|out| == 0 ==> budget == 0 || len == OUTPUT_MAX - 1)
    decreases budget
  {
    hide Sample, Row;
    if budget > 0 {
      var (c, s') := Sample(Row(prompt, deltas, prev), s);
      if !(c == 10 && printed) && len < OUTPUT_MAX - 1 {
        var d := Shown(c);
        EmitShape(prompt, deltas, d, s', printed || d > 32, len + 1, budget - 1);
        var rest := Emit(prompt, deltas, d, s', printed || d > 32, len + 1, budget - 1);
        var out := [d] + rest;
        assert Emit(prompt, deltas, prev, s, printed, len, budget) == out;
        NewlinesLeadStep(d, rest, printed);
        EndedStep(d, rest, printed, len, budget);
      }
    }
  }

  lemma NewlinesLeadStep(d: nat, rest: seq<nat>, printed: bool)
    requires NewlinesLead(rest, printed || d > 32) && (d == 10 ==> !printed)
    ensures NewlinesLead([d] + rest, printed)
  {
    var out := [d] + rest;
    forall k | 0 <= k < |out| - 1 && out[k] == 10 ensures !printed && forall n | 0 <= n < k :: out[n] <= 32 {
      if k > 0 {
        assert rest[k - 1] == 10;
        assert forall n | 0 < n < k :: out[n] == rest[n - 1];
      }
    }
  }

  lemma EndedStep(d: nat, rest: seq<nat>, printed: bool, len: nat, budget: nat)
    requires budget > 0 && Ended(rest, printed || d > 32, len + 1, budget - 1)
    ensures Ended([d] + rest, printed, len, budget)
  {
    var out := [d] + rest;
    assert out[0] == d;
    if k :| 0 <= k < |rest| - 1 && rest[k] > 32 {
      assert out[k + 1] > 32;
    }
  }

  /** What a generated text looks like, for every prompt, budget, seed and image. */
  lemma OutputShape(prompt: seq<nat>, budget: nat, seed: bv32, deltas: seq<Delta>)
    ensures var out := Output(prompt, budget, seed, deltas);
            && (forall k | 0 <= k < |out| :: Showable(out[k]))
            && NewlinesLead(out, false) && Ended(out, false, 0, budget)
            && (budget > 0 ==> |out| > 0)
            && (seed == 0 ==> Chained(out, prompt, deltas, LastOf(32, prompt)))
  {
    hide Emit, Sample, Row;
    EmitShape(prompt, deltas, LastOf(32, prompt), if seed == 0 then Greedy else Seeded(seed), false, 0, budget);
    GreedyChain(prompt, deltas, LastOf(32, prompt), false, 0, budget);
  }

  lemma {:induction false} GreedyChain(prompt: seq<nat>, deltas: seq<Delta>, prev: nat, printed: bool, len: nat,
                                       budget: nat)
    ensures Chained(Emit(prompt, deltas, prev, Greedy, printed, len, budget), prompt, deltas, prev)
    decreases budget
  {
    hide Sample, Row, FirstLargest, Shown;
    if budget > 0 {
      SampleMeaning(Row(prompt, deltas, prev), Greedy);
      var (c, s') := Sample(Row(prompt, deltas, prev), Greedy);
      if c == 10 && printed {
        assert Showable(10);
        assert Picked(Row(prompt, deltas, prev), 10);
      } else if len < OUTPUT_MAX - 1 {
        var d := Shown(c);
        GreedyChain(prompt, deltas, d, printed || d > 32, len + 1, budget - 1);
        ChainedStep(c, Emit(prompt, deltas, d, s', printed || d > 32, len + 1, budget - 1), prompt, deltas, prev);
      }
    }
  }

  lemma ChainedStep(c: nat, rest: seq<nat>, prompt: seq<nat>, deltas: seq<Delta>, prev: nat)
    requires FirstLargest(Row(prompt, deltas, prev), c) && Chained(rest, prompt, deltas, Shown(c))
    ensures Chained([Shown(c)] + rest, prompt, deltas, prev)
  {
    hide FirstLargest, Row;
    var out := [Shown(c)] + rest;
    assert out[0] == if Showable(c) then c else 32;
    assert Picked(Row(prompt, deltas, prev), out[0]);
    forall k, n | 0 <= k < n < |out| && n == k + 1 ensures Picked(Row(prompt, deltas, out[k]), out[n]) {
      assert out[n] == rest[k] && (k > 0 ==> out[k] == rest[k - 1]);
      if k > 0 {
        assert Picked(Row(prompt, deltas, rest[k - 1]), rest[k]);
      }
    }
  }

  lemma FirstLargestUnique(row: seq<nat>, c: nat, d: nat)
    requires FirstLargest(row, c) && d < |row| && row[d] > 0
    requires forall j | 0 <= j < |row| && j != d :: if j < d then row[j] < row[d] else row[j] <= row[d]
    ensures c == d
  {
    assert c < |row| && row[d] <= row[c];
  }

  /** The delta for `(i, j)` makes `j` the first largest of its row. */
  ghost predicate Tops(prompt: seq<nat>, deltas: seq<Delta>, d: Delta) {
    forall j: nat, b: nat | j < 128 && j != d.next && BoostIs(deltas, d.previous, j, b) ::
      if j < d.next then Seen(prompt, d.previous, j) + b < Seen(prompt, d.previous, d.next) + d.boost
      else Seen(prompt, d.previous, j) + b <= Seen(prompt, d.previous, d.next) + d.boost
  }

  /** With seed 0, a delta that tops the row of the prompt's last character decides the first one generated. */
  lemma DeltaDecides(prompt: seq<nat>, budget: nat, deltas: seq<Delta>, k: nat)
    requires DistinctPairs(deltas) && k < |deltas| && deltas[k].next < 128 && deltas[k].boost > 0 && budget > 0
    requires deltas[k].previous == LastOf(32, prompt) && Tops(prompt, deltas, deltas[k])
    ensures |Output(prompt, budget, 0, deltas)| > 0
    ensures var c := deltas[k].next;
            Output(prompt, budget, 0, deltas)[0] == if Showable(c) then c else 32
  {
    hide Seen, Output, BoostIs;
    OutputShape(prompt, budget, 0, deltas);
    var d, row := deltas[k], Row(prompt, deltas, LastOf(32, prompt));
    assert Picked(row, Output(prompt, budget, 0, deltas)[0]);
    var c: nat :| Output(prompt, budget, 0, deltas)[0] == (if Showable(c) then c else 32) && FirstLargest(row, c);
    DeltaWeight(prompt, deltas, k);
    forall j: nat | j < 128 && j != d.next ensures if j < d.next then row[j] < row[d.next] else row[j] <= row[d.next] {
      WeightMeaning(prompt, deltas, d.previous, j);
      var b := row[j] - Seen(prompt, d.previous, j);
      assert BoostIs(deltas, d.previous, j, b);
    }
    FirstLargestUnique(row, c, d.next);
  }

  lemma DeltaWeight(prompt: seq<nat>, deltas: seq<Delta>, k: nat)
    requires DistinctPairs(deltas) && k < |deltas|
    ensures Weight(prompt, deltas, deltas[k].previous, deltas[k].next)
         == Seen(prompt, deltas[k].previous, deltas[k].next) + deltas[k].boost
  {
    hide Weight, Seen;
    var d := deltas[k];
    assert deltas[k] == Delta(d.previous, d.next, d.boost);
    assert BoostIs(deltas, d.previous, d.next, d.boost);
    WeightMeaning(prompt, deltas, d.previous, d.next);
  }

  lemma {:induction false} EmitPrefix(prompt: seq<nat>, deltas: seq<Delta>, prev: nat, s: Sampler, printed: bool,
                                      len: nat, small: nat, large: nat)
    requires small <= large
    ensures Emit(prompt, deltas, prev, s, printed, len, small) <= Emit(prompt, deltas, prev, s, printed, len, large)
    decreases small
  {
    hide Sample, Row, Shown;
    if small > 0 {
      var (c, s') := Sample(Row(prompt, deltas, prev), s);
      EmitPrefix(prompt, deltas, Shown(c), s', printed || Shown(c) > 32, len + 1, small - 1, large - 1);
    }
  }

  /** A lower token limit gives a prefix of the longer output. */
  lemma LowerLimitIsPrefix(prompt: seq<nat>, seed: bv32, deltas: seq<Delta>, small: nat, large: nat)
    requires small <= large
    ensures Output(prompt, small, seed, deltas) <= Output(prompt, large, seed, deltas)
  {
    EmitPrefix(prompt, deltas, LastOf(32, prompt), if seed == 0 then Greedy else Seeded(seed), false, 0, small, large);
  }

  // ----- no counter wraps -----

  function RowCount(prev: nat, text: seq<nat>, i: nat, n: nat): nat {
    if n == 0 then 0 else RowCount(prev, text, i, n - 1) + Count(prev, text, i, n - 1)
  }

  lemma {:induction false} RowCountStep(prev: nat, text: seq<nat>, i: nat, n: nat)
    requires text != []
    ensures RowCount(prev, text, i, n) <= RowCount(text[0] % 128, text[1..], i, n)
            + if prev == i && text[0] % 128 < n then 1 else 0
  {
    if n > 0 {
      RowCountStep(prev, text, i, n - 1);
    }
  }

  /** All the bigrams of a text starting with `i` are no more than its characters. */
  lemma {:induction false} RowCountBound(prev: nat, text: seq<nat>, i: nat, n: nat)
    ensures RowCount(prev, text, i, n) <= |text|
    decreases text
  {
    if text == [] {
      EmptyRowCount(prev, i, n);
    } else {
      RowCountStep(prev, text, i, n);
      RowCountBound(text[0] % 128, text[1..], i, n);
    }
  }

  lemma {:induction false} EmptyRowCount(prev: nat, i: nat, n: nat)
    ensures RowCount(prev, [], i, n) == 0
  {
    if n > 0 {
      EmptyRowCount(prev, i, n - 1);
    }
  }

  function CorpusRow(lines: seq<string>, i: nat, n: nat): nat {
    if n == 0 then 0 else CorpusRow(lines, i, n - 1) + CorpusCount(lines, i, n - 1)
  }

  function Length(lines: seq<string>): nat {
    if lines == [] then 0 else Length(lines[..|lines| - 1]) + |lines[|lines| - 1]|
  }

  lemma {:induction false} CorpusRowStep(lines: seq<string>, i: nat, n: nat)
    requires lines != []
    ensures CorpusRow(lines, i, n)
         == CorpusRow(lines[..|lines| - 1], i, n) + RowCount(32, Bytes(lines[|lines| - 1]), i, n)
  {
    if n > 0 {
      CorpusRowStep(lines, i, n - 1);
    }
  }

  lemma {:induction false} CorpusRowBound(lines: seq<string>, i: nat, n: nat)
    ensures CorpusRow(lines, i, n) <= Length(lines)
    decreases lines
  {
    if lines == [] {
      EmptyCorpusRow(i, n);
    } else {
      CorpusRowStep(lines, i, n);
      CorpusRowBound(lines[..|lines| - 1], i, n);
      RowCountBound(32, Bytes(lines[|lines| - 1]), i, n);
    }
  }

  lemma {:induction false} EmptyCorpusRow(i: nat, n: nat)
    ensures CorpusRow([], i, n) == 0
  {
    if n > 0 {
      EmptyCorpusRow(i, n - 1);
    }
  }

  function BoostRow(deltas: seq<Delta>, i: nat, n: nat): nat {
    if n == 0 then 0 else BoostRow(deltas, i, n - 1) + Boost(deltas, i, n - 1)
  }

  lemma {:induction false} BoostRowStep(deltas: seq<Delta>, i: nat, n: nat)
    requires deltas != []
    ensures BoostRow(deltas, i, n) <= BoostRow(deltas[..|deltas| - 1], i, n)
            + var d := deltas[|deltas| - 1]; if d.next < n then d.boost else 0
  {
    if n > 0 {
      BoostRowStep(deltas, i, n - 1);
    }
  }

  lemma {:induction false} BoostRowBound(deltas: seq<Delta>, i: nat, n: nat)
    requires forall k | 0 <= k < |deltas| :: deltas[k].boost <= 4096
    ensures BoostRow(deltas, i, n) <= 4096 * |deltas|
    decreases deltas
  {
    if deltas == [] {
      EmptyBoostRow(i, n);
    } else {
      BoostRowStep(deltas, i, n);
      BoostRowBound(deltas[..|deltas| - 1], i, n);
    }
  }

  lemma {:induction false} EmptyBoostRow(i: nat, n: nat)
    ensures BoostRow([], i, n) == 0
  {
    if n > 0 {
      EmptyBoostRow(i, n - 1);
    }
  }

  lemma {:induction false} RowSum(prompt: seq<nat>, deltas: seq<Delta>, i: nat, n: nat)
    requires n <= 128
    ensures Sum(Row(prompt, deltas, i)[..n])
         == 4 * CorpusRow(CORPUS, i, n) + 8 * RowCount(32, prompt, i, n) + BoostRow(deltas, i, n)
  {
    if n > 0 {
      RowSum(prompt, deltas, i, n - 1);
      SumStep(Row(prompt, deltas, i), n - 1);
    }
  }

  /** The totals of every admissible call, with or without an image, fit the source's 32-bit counters. */
  lemma NoCounterWraps(prompt: seq<nat>, image: Option<Image>, i: nat)
    requires |prompt| <= PROMPT_MAX && (image.Some? ==> ValidImage(image.value))
    ensures var deltas := if image.Some? then image.value.deltas[..image.value.count] else [];
            Sum(Row(prompt, deltas, i)) < 0x1_0000_0000
  {
    var deltas := if image.Some? then image.value.deltas[..image.value.count] else [];
    RowSum(prompt, deltas, i, 128);
    assert Row(prompt, deltas, i)[..128] == Row(prompt, deltas, i);
    CorpusRowBound(CORPUS, i, 128);
    RowCountBound(32, prompt, i, 128);
    BoostRowBound(deltas, i, 128);
    CorpusLength();
  }

  lemma CorpusLength()
    ensures Length(CORPUS) <= 1000
  {
    LengthBound(CORPUS);
  }

  lemma {:induction false} LengthBound(lines: seq<string>)
    requires forall k | 0 <= k < |lines| :: |lines[k]| < 100
    ensures Length(lines) <= 100 * |lines|
  {
    if lines != [] {
      LengthBound(lines[..|lines| - 1]);
    }
  }

  // ----- admission and the whole call -----

  /** The token ceiling of the calling cell: a refusal, or a limit with 0 for none. */
  datatype Envelope = Denied(error: Error) | Ceiling(tokens: nat)

  function Admit(e: Envelope, requested: nat): (r: Result<nat>)
    ensures r.Ok? <==> requested > 0 && e.Ceiling?
    ensures requested > 0 && e.Denied? ==> r == Err(e.error)
    ensures r.Ok? ==>
      && r.value <= requested && (e.tokens == 0 || r.value <= e.tokens)
      && (r.value == requested || r.value == e.tokens > 0)
  {
    if requested == 0 then Err(EINVAL)
    else match e
      case Denied(error) => Err(error)
      case Ceiling(tokens) => Ok(if tokens != 0 && tokens < requested then tokens else requested)
  }

  /** A limit already applied is applied again without effect. */
  lemma AdmitIdempotent(e: Envelope, requested: nat)
    ensures Admit(e, requested).Ok? ==> Admit(e, Admit(e, requested).value) == Admit(e, requested)
  {
  }

  /** SHA-256 taken as injective: a digest is the value it was computed from. */
  datatype Hash =
    | OfImage(image: Image)
    | OfRequest(prompt: seq<nat>, maxTokens: nat, seed: bv32)
    | OfBytes(bytes: seq<nat>)

  /** The token budget a request asks for, before admission. */
  function Asked(r: Request): nat {
    var n := if r.maxTokens == 0 then DEFAULT_MAX else r.maxTokens;
    if n > OUTPUT_MAX - 1 then OUTPUT_MAX - 1 else n
  }

  function Deltas(image: Option<Image>): seq<Delta>
    requires image.Some? ==> image.value.count <= |image.value.deltas|
  {
    match image
    case None => []
    case Some(m) => m.deltas[..m.count]
  }

  /** `generate_image` as a function of its arguments and the caller's envelope. */
  ghost function Generated(r: Request, image: Option<Image>, expected: Option<Hash>, e: Envelope): Result<Response>
    requires image.Some? ==> |image.value.deltas| == DELTA_MAX
  {
    if |r.prompt| > PROMPT_MAX || (expected.Some? && r.named) then Err(EINVAL)
    else if Admit(e, Asked(r)).Err? then Err(Admit(e, Asked(r)).error)
    else
      var budget := Admit(e, Asked(r)).value;
      if expected.Some? && budget != r.maxTokens then Err(EPERM)
      else if image.Some? && !ValidImage(image.value) then Err(EINVAL)
      else if image.Some? && expected.Some? && expected.value != OfImage(image.value) then Err(EIO)
      else
        var out := Output(r.prompt, budget, r.seed, Deltas(image));
        Ok(Response(out, |out|))
  }

  /** When a call is answered: the prompt fits, the caller may, and a bound call carries its exact image and budget. */
  ghost predicate Answerable(r: Request, image: Option<Image>, expected: Option<Hash>, e: Envelope) {
    && |r.prompt| <= 1024 && e.Ceiling?
    && (image.Some? ==> ValidImage(image.value))
    && (expected.Some? ==>
          && !r.named && 1 <= r.maxTokens <= 2047 && (e.tokens == 0 || r.maxTokens <= e.tokens)
          && (image.Some? ==> expected.value == OfImage(image.value)))
  }

  /** What an answer is: within every limit, of the right shape, and led by a delta that tops its row. */
  ghost predicate Answers(r: Request, image: Option<Image>, e: Envelope, a: Response)
    requires e.Ceiling? && (image.Some? ==> ValidImage(image.value))
  {
    && a.tokens == |a.output| >= 1
    && a.tokens <= 2047 && a.tokens <= (if r.maxTokens == 0 then 128 else r.maxTokens)
    && (e.tokens == 0 || a.tokens <= e.tokens)
    && (forall k | 0 <= k < |a.output| :: Showable(a.output[k]))
    && NewlinesLead(a.output, false)
    && (r.seed == 0 ==> Chained(a.output, r.prompt, Deltas(image), LastOf(32, r.prompt)))
    && (image.Some? && r.seed == 0 ==> forall k | 0 <= k < image.value.count ::
          var c := image.value.deltas[k].next;
          Leads(r.prompt, Deltas(image), image.value.deltas[k]) ==> a.output[0] == if Showable(c) then c else 32)
  }

  ghost predicate Leads(prompt: seq<nat>, deltas: seq<Delta>, d: Delta) {
    d.previous == LastOf(32, prompt) && Tops(prompt, deltas, d)
  }

  lemma AdmitMeaning(r: Request, e: Envelope)
    ensures Admit(e, Asked(r)).Ok? <==> e.Ceiling?
    ensures e.Ceiling? ==>
      var n := Admit(e, Asked(r)).value;
      && 1 <= n <= 2047 && n <= (if r.maxTokens == 0 then 128 else r.maxTokens) && (e.tokens == 0 || n <= e.tokens)
      && (n == r.maxTokens <==> 1 <= r.maxTokens <= 2047 && (e.tokens == 0 || r.maxTokens <= e.tokens))
  {
  }

  lemma GeneratedMeaning(r: Request, image: Option<Image>, expected: Option<Hash>, e: Envelope)
    requires image.Some? ==> |image.value.deltas| == DELTA_MAX
    ensures Generated(r, image, expected, e).Ok? <==> Answerable(r, image, expected, e)
    ensures Generated(r, image, expected, e).Ok? ==> Answers(r, image, e, Generated(r, image, expected, e).value)
  {
    hide Admit, Asked, Output, LastOf, Chained, Tops, NewlinesLead;
    AdmitMeaning(r, e);
    if Generated(r, image, expected, e).Ok? {
      var n := Admit(e, Asked(r)).value;
      OutputShape(r.prompt, n, r.seed, Deltas(image));
      if image.Some? && r.seed == 0 {
        forall k | 0 <= k < image.value.count && Leads(r.prompt, Deltas(image), image.value.deltas[k])
          ensures var c := image.value.deltas[k].next;
                  Output(r.prompt, n, 0, Deltas(image))[0] == if Showable(c) then c else 32
        {
          assert Deltas(image)[k] == image.value.deltas[k];
          DeltaDecides(r.prompt, n, Deltas(image), k);
        }
      }
    }
  }

  class Generator {
    const bigram: array2<nat>

    ghost predicate Valid() {
      bigram.Length0 == 128 && bigram.Length1 == 128
    }

    constructor ()
      ensures Valid() && fresh(bigram)
    {
      bigram := new nat[128, 128];
    }

    /** Add `w` for each bigram of a text that follows a space. */
    method SeedText(text: seq<nat>, w: nat)
      requires Valid()
      modifies bigram
      ensures forall i, j | 0 <= i < 128 && 0 <= j < 128 ::
          bigram[i, j] == old(bigram[i, j]) + w * Count(32, text, i, j)
    {
      var prev := 32;
      var k := 0;
      while k < |text|
        invariant 0 <= k <= |text|
        invariant prev == LastOf(32, text[..k]) && prev < 128
        invariant forall i, j | 0 <= i < 128 && 0 <= j < 128 ::
          bigram[i, j] == old(bigram[i, j]) + w * Count(32, text[..k], i, j)
      {
        var c := text[k] % 128;
        ghost var done := text[..k];
        assert text[..k + 1] == done + [text[k]];
        forall i: nat, j: nat
          ensures w * Count(32, text[..k + 1], i, j)
               == w * Count(32, done, i, j) + if prev == i && c == j then w else 0
        {
          CountAppend(32, done, text[k], i, j);
        }
        bigram[prev, c] := bigram[prev, c] + w;
        prev := c;
        k := k + 1;
      }
      assert text[..|text|] == text;
    }

    method SeedCorpus()
      requires Valid()
      modifies bigram
      ensures forall i, j | 0 <= i < 128 && 0 <= j < 128 ::
          bigram[i, j] == old(bigram[i, j]) + 4 * CorpusCount(CORPUS, i, j)
    {
      var n := 0;
      while n < |CORPUS|
        invariant 0 <= n <= |CORPUS|
        invariant forall i, j | 0 <= i < 128 && 0 <= j < 128 ::
          bigram[i, j] == old(bigram[i, j]) + 4 * CorpusCount(CORPUS[..n], i, j)
      {
        assert CORPUS[..n + 1][..n] == CORPUS[..n];
        SeedText(Bytes(CORPUS[n]), 4);
        n := n + 1;
      }
      assert CORPUS[..|CORPUS|] == CORPUS;
    }

    method SeedImage(deltas: seq<Delta>)
      requires Valid() && forall k | 0 <= k < |deltas| :: deltas[k].previous < 128 && deltas[k].next < 128
      modifies bigram
      ensures forall i, j | 0 <= i < 128 && 0 <= j < 128 ::
          bigram[i, j] == old(bigram[i, j]) + Boost(deltas, i, j)
      ensures DistinctPairs(deltas) ==> forall i, j | 0 <= i < 128 && 0 <= j < 128 ::
          bigram[i, j] >= old(bigram[i, j]) && BoostIs(deltas, i, j, bigram[i, j] - old(bigram[i, j]))
    {
      var d := 0;
      while d < |deltas|
        invariant 0 <= d <= |deltas|
        invariant forall i, j | 0 <= i < 128 && 0 <= j < 128 ::
          bigram[i, j] == old(bigram[i, j]) + Boost(deltas[..d], i, j)
      {
        assert deltas[..d + 1][..d] == deltas[..d];
        var x := deltas[d];
        bigram[x.previous, x.next] := bigram[x.previous, x.next] + x.boost;
        d := d + 1;
      }
      assert deltas[..|deltas|] == deltas;
      if DistinctPairs(deltas) {
        forall i, j | 0 <= i < 128 && 0 <= j < 128 ensures BoostIs(deltas, i, j, Boost(deltas, i, j)) {
          BoostIsTheDelta(deltas, i, j);
        }
      }
    }

    /** The table holds exactly the weights of this prompt and image. */
    ghost predicate Holds(prompt: seq<nat>, deltas: seq<Delta>)
      reads bigram
      requires Valid()
    {
      forall i, j | 0 <= i < 128 && 0 <= j < 128 :: bigram[i, j] == Weight(prompt, deltas, i, j)
    }

    /** An entry is what prompt and corpus give, plus exactly the boost of the delta for its pair, if there is one. */
    ghost predicate Boosted(prompt: seq<nat>, deltas: seq<Delta>)
      reads bigram
      requires Valid()
    {
      forall i, j | 0 <= i < 128 && 0 <= j < 128 ::
        bigram[i, j] >= Seen(prompt, i, j) && BoostIs(deltas, i, j, bigram[i, j] - Seen(prompt, i, j))
    }

    /** Whatever earlier calls left in the table is gone. */
    method Reset(prompt: seq<nat>, deltas: seq<Delta>)
      requires Valid() && forall k | 0 <= k < |deltas| :: deltas[k].previous < 128 && deltas[k].next < 128
      modifies bigram
      ensures Holds(prompt, deltas)
      ensures DistinctPairs(deltas) ==> Boosted(prompt, deltas)
    {
      forall i, j | 0 <= i < 128 && 0 <= j < 128 {
        bigram[i, j] := 0;
      }
      SeedCorpus();
      SeedText(prompt, 8);
      SeedImage(deltas);
      assert Holds(prompt, deltas);
      HeldIsBoosted(prompt, deltas);
    }

    lemma HeldIsBoosted(prompt: seq<nat>, deltas: seq<Delta>)
      requires Valid() && Holds(prompt, deltas)
      ensures DistinctPairs(deltas) ==> Boosted(prompt, deltas)
    {
      hide Weight, Seen, BoostIs, DistinctPairs;
      if DistinctPairs(deltas) {
        forall i, j | 0 <= i < 128 && 0 <= j < 128
          ensures bigram[i, j] >= Seen(prompt, i, j) && BoostIs(deltas, i, j, bigram[i, j] - Seen(prompt, i, j))
        {
          WeightMeaning(prompt, deltas, i, j);
        }
      }
    }

    /** `sample_next`: total, then the first largest entry or a weighted draw. */
    method SampleNext(ghost prompt: seq<nat>, ghost deltas: seq<Delta>, prev: nat, s: Sampler)
      returns (c: nat, s': Sampler)
      requires Valid() && Holds(prompt, deltas) && prev < 128
      ensures (c, s') == Sample(Row(prompt, deltas, prev), s) && c < 128
    {
      hide Weight, RngStep;
      ghost var row := Row(prompt, deltas, prev);
      var total := 0;
      var i := 0;
      while i < 128
        invariant 0 <= i <= 128 && total == Sum(row[..i])
      {
        SumStep(row, i);
        total := total + bigram[prev, i];
        i := i + 1;
      }
      assert row[..128] == row;
      if total == 0 {
        return 32, s;
      }
      match s {
        case Greedy =>
          var best, besti := 0, 32;
          i := 0;
          while i < 128
            invariant 0 <= i <= 128 && best == BestValue(row, i) && besti == BestIndex(row, i) && besti < 128
          {
            if bigram[prev, i] > best {
              best, besti := bigram[prev, i], i;
            }
            i := i + 1;
          }
          return besti, s;
        case Seeded(state) =>
          var x := RngStep(state);
          var r := (x as nat) % total;
          var acc := 0;
          i := 0;
          while i < 128
            invariant 0 <= i <= 128 && acc == Sum(row[..i]) && Draw(row, r, 0) == Draw(row, r, i)
          {
            SumStep(row, i);
            acc := acc + bigram[prev, i];
            if r < acc {
              return i, Seeded(x);
            }
            i := i + 1;
          }
          return 32, Seeded(x);
      }
    }

    /** The sampling loop, after the table is set. */
    method Sampled(prompt: seq<nat>, ghost deltas: seq<Delta>, seed: bv32, budget: nat) returns (out: seq<nat>)
      requires Valid() && Holds(prompt, deltas)
      ensures out == Output(prompt, budget, seed, deltas)
    {
      hide Sample, Row, Holds, Emit;
      var prev := 32;
      if |prompt| > 0 {
        prev := prompt[|prompt| - 1] % 128;
      }
      var s := if seed == 0 then Greedy else Seeded(seed);
      var printed := false;
      out := [];
      var i := 0;
      while i < budget
        invariant 0 <= i <= budget && prev < 128
        invariant Output(prompt, budget, seed, deltas)
               == out + Emit(prompt, deltas, prev, s, printed, |out|, budget - i)
      {
        var c, s' := SampleNext(prompt, deltas, prev, s);
        EmitStep(prompt, deltas, prev, s, printed, |out|, budget - i, c, s', out);
        if c == 10 && printed {
          out := out + [10];
          return;
        }
        if c < 32 && c != 10 && c != 9 {
          c := 32;
        }
        if |out| >= OUTPUT_MAX - 1 {
          return;
        }
        out := out + [c];
        if c > 32 {
          printed := true;
        }
        prev, s := c, s';
        i := i + 1;
      }
      EmitNothing(prompt, deltas, prev, s, printed, |out|);
    }

    /**
     * `generate_image`.  The result is a function of the request, the image, the expected
     * digest and the caller's envelope, whatever the table held before.
     */
    method Generate(r: Request, image: Option<Image>, expected: Option<Hash>, e: Envelope)
      returns (result: Result<Response>)
      requires Valid() && (image.Some? ==> |image.value.deltas| == DELTA_MAX)
      modifies bigram
      ensures result == Generated(r, image, expected, e)
      ensures result.Ok? <==> Answerable(r, image, expected, e)
      ensures result.Ok? ==> Answers(r, image, e, result.value)
    {
      hide Admit, Asked, Answerable, Answers;
      GeneratedMeaning(r, image, expected, e);
      if |r.prompt| > PROMPT_MAX || (expected.Some? && r.named) {
        return Err(EINVAL);
      }
      var admission := Admit(e, Asked(r));
      if admission.Err? {
        return Err(admission.error);
      }
      var budget := admission.value;
      if expected.Some? && budget != r.maxTokens {
        return Err(EPERM);
      }
      if image.Some? {
        var ok := ImageCheck(image.value);
        if !ok {
          return Err(EINVAL);
        }
        if expected.Some? && expected.value != OfImage(image.value) {
          return Err(EIO);
        }
      }
      Reset(r.prompt, Deltas(image));
      var out := Sampled(r.prompt, Deltas(image), r.seed, budget);
      result := Ok(Response(out, |out|));
    }
  }
}
