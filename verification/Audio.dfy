/**
 * The software mixer of kernel/core/audio/audio.c: sample decoders, the two inner mixers
 * and the chunk that sums and clamps them.  Samples are integers, right shifts of signed
 * values round down, and the Q32.32 cursor wraps at 64 bits.
 */
module Audio {
  import opened Words

  const UNITY: int := 32767
  const ONE: nat := 0x1_0000_0000
  const DEFAULT_RATE: nat := 48000
  const MAX_STREAMS: nat := 16

  type Byte = b: nat | b < 256

  predicate Sample16(v: int) { -32768 <= v <= 32767 }

  function Saturate(v: int): (r: int)
    ensures Sample16(r)
    ensures Sample16(v) ==> r == v
    ensures v > 32767 ==> r == 32767
    ensures v < -32768 ==> r == -32768
  {
    if v > 32767 then 32767 else if v < -32768 then -32768 else v
  }

  /** The signed reading of an unsigned word of `modulus` values. */
  function Signed(u: nat, modulus: nat): (r: int)
    requires u < modulus
    ensures 0 - modulus <= 2 * r < modulus && (r == u || r == u - modulus)
  {
    if 2 * u >= modulus then u - modulus else u
  }

  /** The two bytes `lo` and `hi` as a signed 16-bit number. */
  ghost predicate Reads16(v: int, lo: Byte, hi: Byte) {
    Sample16(v) && (v - lo as int - 256 * hi as int) % 65536 == 0
  }

  function DecodeI8(b: Byte): (v: int)
    ensures Sample16(v) && v == 256 * (v / 256) && (v / 256 - b as int) % 256 == 0
  {
    Signed(b, 256) * 256
  }

  function DecodeLe16(b0: Byte, b1: Byte): (v: int)
    ensures Reads16(v, b0, b1)
  {
    Signed(b0 as nat + 256 * b1 as nat, 0x1_0000)
  }

  function DecodeLe24(b0: Byte, b1: Byte, b2: Byte): (v: int)
    ensures Reads16(v, b1, b2)
  {
    DropLow(b0, 256, b1 as nat + 256 * b2 as nat);
    Signed(b0 as nat + 256 * b1 as nat + 0x1_0000 * b2 as nat, 0x100_0000) / 256
  }

  function DecodeLe32(b0: Byte, b1: Byte, b2: Byte, b3: Byte): (v: int)
    ensures Reads16(v, b2, b3)
  {
    DropLow(b0 as nat + 256 * b1 as nat, 0x1_0000, b2 as nat + 256 * b3 as nat);
    Signed(b0 as nat + 256 * b1 as nat + 0x1_0000 * b2 as nat + 0x100_0000 * b3 as nat, ONE) / 0x1_0000
  }

  /** A signed shift right drops the low part and keeps the sign. */
  lemma DropLow(low: nat, unit: nat, high: nat)
    requires (unit == 256 || unit == 0x1_0000) && low < unit && high < 0x1_0000
    ensures Signed(low + unit * high, unit * 0x1_0000) / unit == Signed(high, 0x1_0000)
  {
    if unit == 256 {
      assert (low + 256 * high) / 256 == high;
      assert (low + 256 * high - 256 * 0x1_0000) / 256 == high - 0x1_0000;
    } else {
      assert (low + 0x1_0000 * high) / 0x1_0000 == high;
      assert (low + 0x1_0000 * high - 0x1_0000 * 0x1_0000) / 0x1_0000 == high - 0x1_0000;
    }
  }

  /** One little-endian sample, scaled to 16 bits by the source's shifts; other widths read 0. */
  function Decode(bytes: seq<Byte>, off: nat, bps: nat): (v: int)
    requires off + bps / 8 <= |bytes|
    ensures Sample16(v)
    ensures bps == 8 ==> v == 256 * (v / 256) && (v / 256 - bytes[off] as int) % 256 == 0
    ensures bps == 16 ==> Reads16(v, bytes[off], bytes[off + 1])
    ensures bps == 24 ==> Reads16(v, bytes[off + 1], bytes[off + 2])
    ensures bps == 32 ==> Reads16(v, bytes[off + 2], bytes[off + 3])
    ensures bps !in {8, 16, 24, 32} ==> v == 0
  {
    if bps == 8 then DecodeI8(bytes[off])
    else if bps == 16 then DecodeLe16(bytes[off], bytes[off + 1])
    else if bps == 24 then DecodeLe24(bytes[off], bytes[off + 1], bytes[off + 2])
    else if bps == 32 then DecodeLe32(bytes[off], bytes[off + 1], bytes[off + 2], bytes[off + 3])
    else 0
  }

  datatype Frame = Frame(l: int, r: int)

  predicate Frame16(f: Frame) { Sample16(f.l) && Sample16(f.r) }

  datatype Stream = Stream(bytes: seq<Byte>, bps: nat, channels: nat, volume: int, loop: bool, total: nat, step: nat)

  /** What a validated clip guarantees: its size is a 32-bit number, so it has fewer than 2^32 frames. */
  ghost predicate Playable(s: Stream) {
    && s.bps % 8 == 0 && s.bps > 0 && s.channels > 0
    && s.total < ONE && (s.loop ==> s.total > 0) && s.total * (s.channels * (s.bps / 8)) <= |s.bytes|
    && 0 <= s.volume <= UNITY && s.step < TWO64
  }

  lemma FrameInside(s: Stream, idx: nat)
    requires Playable(s) && idx < s.total
    ensures idx * (s.channels * (s.bps / 8)) + s.bps / 8 <= |s.bytes|
    ensures s.channels >= 2 ==> idx * (s.channels * (s.bps / 8)) + 2 * (s.bps / 8) <= |s.bytes|
  {
    var w := s.bps / 8;
    var size := s.channels * w;
    assert size >= w && (s.channels >= 2 ==> size >= 2 * w) by {
      assert s.channels * w >= 1 * w;
      assert s.channels >= 2 ==> s.channels * w >= 2 * w;
    }
    assert (idx + 1) * size <= s.total * size;
    assert (idx + 1) * size == idx * size + size;
  }

  lemma SampleOffset(idx: nat, channels: nat, w: nat)
    ensures 0 <= idx * channels && idx * (channels * w) == idx * channels * w
    ensures idx * (channels * w) + w == (idx * channels + 1) * w
  {
  }

  /** `v` is sample `k` of the clip, counting the samples of every channel. */
  ghost predicate IsSample(s: Stream, k: nat, v: int) {
    exists off: nat :: off == k * (s.bps / 8) && off + s.bps / 8 <= |s.bytes| && v == Decode(s.bytes, off, s.bps)
  }

  /** `read_frame_i`: mono is copied to both sides. */
  function ReadFrame(s: Stream, idx: nat): (f: Frame)
    requires Playable(s) && idx < s.total
    ensures Frame16(f)
    ensures IsSample(s, idx * s.channels, f.l)
    ensures if s.channels == 1 then f.r == f.l else IsSample(s, idx * s.channels + 1, f.r)
  {
    FrameInside(s, idx);
    SampleOffset(idx, s.channels, s.bps / 8);
    var off := idx * (s.channels * (s.bps / 8));
    var l := Decode(s.bytes, off, s.bps);
    Frame(l, if s.channels >= 2 then Decode(s.bytes, off + s.bps / 8, s.bps) else l)
  }

  /** Linear interpolation by a 32-bit fraction. */
  function Blend(a: int, b: int, frac: nat): (v: int)
    requires Sample16(a) && Sample16(b) && frac < ONE
    ensures a <= b ==> a <= v <= b
    ensures b <= a ==> b <= v <= a
    ensures 0 <= (b - a) * frac - ONE * (v - a) < ONE
  {
    BlendBounds(a, b, frac);
    a + (b - a) * frac / ONE
  }

  lemma BlendBounds(a: int, b: int, frac: nat)
    requires frac < ONE
    ensures a <= b ==> 0 <= (b - a) * frac / ONE <= b - a
    ensures b <= a ==> b - a <= (b - a) * frac / ONE <= 0
  {
    var d := b - a;
    if d >= 0 {
      assert 0 <= d * frac <= d * ONE;
    } else {
      assert d * ONE <= d * frac <= 0;
    }
  }

  /** The Q15 volume, rounded; unity is left alone. */
  function Scale(v: int, volume: int): (r: int)
    requires Sample16(v) && 0 <= volume <= UNITY
    ensures Sample16(r)
    ensures volume == 32767 ==> r == v
    ensures volume < 32767 ==> 32768 * r <= v * volume + 16384 < 32768 * (r + 1)
  {
    ScaleBounds(v, volume);
    if volume == UNITY then v else (v * volume + 16384) / 32768
  }

  lemma ScaleBounds(v: int, volume: int)
    requires Sample16(v) && 0 <= volume <= UNITY
    ensures -32768 * 32768 <= v * volume <= 32767 * 32767
  {
    if v >= 0 {
      Product(v, 32767, volume);
    } else {
      Product(-v, 32768, volume);
      assert -v * volume == -(v * volume);
    }
  }

  lemma Product(x: nat, bound: nat, volume: nat)
    requires x <= bound && volume <= 32767
    ensures 0 <= x * volume <= bound * 32767
  {
    assert x * volume <= bound * volume;
    assert bound * volume <= bound * 32767;
  }

  // ----- the general mixer -----

  /** The first cursor position past the source. */
  function EndOf(s: Stream): nat { s.total * ONE }

  /** The cursor after one output frame; it is a 64-bit word. */
  function Advance(s: Stream, pos: nat): nat { (pos + s.step) % TWO64 }

  /** The contribution of the cursor position `pos`. */
  function GeneralFrame(s: Stream, pos: nat): (f: Frame)
    requires Playable(s) && pos < EndOf(s)
    ensures Frame16(f)
  {
    var i, frac := pos / ONE, pos % ONE;
    var a := ReadFrame(s, i);
    var f := if frac != 0 && i + 1 < s.total
             then var b := ReadFrame(s, i + 1); Frame(Blend(a.l, b.l, frac), Blend(a.r, b.r, frac))
             else a;
    Frame(Scale(f.l, s.volume), Scale(f.r, s.volume))
  }

  /** `v` is the rounded-down point at `frac` on the line from `a` to `b`. */
  ghost predicate OnLine(a: int, b: int, frac: nat, v: int) {
    0 <= (b - a) * frac - ONE * (v - a) < ONE
  }

  /** `r` is `v` at a Q15 volume, rounded to the nearest; unity leaves it alone. */
  ghost predicate AtVolume(v: int, volume: int, r: int) {
    if volume == 32767 then r == v else 32768 * r <= v * volume + 16384 < 32768 * (r + 1)
  }

  /**
   * What a cursor position contributes: the source frame there, moved on a line towards the next
   * one by the fraction (the last frame is held), and then scaled by the volume.
   */
  lemma GeneralFrameMeaning(s: Stream, pos: nat) returns (f: Frame)
    requires Playable(s) && pos < EndOf(s)
    ensures AtVolume(f.l, s.volume, GeneralFrame(s, pos).l) && AtVolume(f.r, s.volume, GeneralFrame(s, pos).r)
    ensures var i := pos / ONE;
            i < s.total &&
            if i + 1 < s.total
            then var a, b := ReadFrame(s, i), ReadFrame(s, i + 1);
                 OnLine(a.l, b.l, pos % ONE, f.l) && OnLine(a.r, b.r, pos % ONE, f.r)
            else f == ReadFrame(s, i)
  {
    hide ReadFrame, Decode;
    var i, frac := pos / ONE, pos % ONE;
    var a := ReadFrame(s, i);
    if frac != 0 && i + 1 < s.total {
      var b := ReadFrame(s, i + 1);
      f := Frame(Blend(a.l, b.l, frac), Blend(a.r, b.r, frac));
    } else {
      f := a;
    }
  }

  datatype Run = Run(frames: seq<Frame>, pos: nat, ended: bool)

  /** `mix_general` as a function: the frames produced, the cursor and whether it ran out. */
  function General(s: Stream, pos: nat, n: nat): (r: Run)
    requires Playable(s)
    ensures |r.frames| <= n && (r.ended <==> |r.frames| < n)
    ensures forall k | 0 <= k < |r.frames| :: Frame16(r.frames[k])
    decreases n
  {
    if n == 0 then Run([], pos, false)
    else if pos >= EndOf(s) && !s.loop then Run([], pos, true)
    else
      var p := if pos >= EndOf(s) then 0 else pos;
      var rest := General(s, Advance(s, p), n - 1);
      Run([GeneralFrame(s, p)] + rest.frames, rest.pos, rest.ended)
  }

  /**
   * A run without a loop in closed form: frame `k` is read at cursor `pos + k * step`, and the run
   * ends at the first `k` whose cursor is past the source.
   */
  lemma {:induction false} GeneralClosed(s: Stream, pos: nat, n: nat)
    requires Playable(s) && !s.loop && 0 <= n * s.step && pos + n * s.step < TWO64
    ensures var r := General(s, pos, n);
            && (forall k | 0 <= k < |r.frames| ::
                  0 <= k * s.step && pos + k * s.step < EndOf(s) && r.frames[k] == GeneralFrame(s, pos + k * s.step))
            && (r.ended ==> 0 <= |r.frames| * s.step && pos + |r.frames| * s.step >= EndOf(s))
            && r.pos == pos + |r.frames| * s.step
    decreases n
  {
    hide GeneralFrame, Playable, EndOf;
    if n > 0 && pos < EndOf(s) {
      StepInWord(s, pos, n);
      GeneralClosed(s, pos + s.step, n - 1);
      var r, rest := General(s, pos, n), General(s, pos + s.step, n - 1);
      forall k | 0 <= k < |r.frames|
        ensures 0 <= k * s.step && pos + k * s.step < EndOf(s) && r.frames[k] == GeneralFrame(s, pos + k * s.step)
      {
        if k > 0 {
          OneStep(k, s.step, pos);
          assert r.frames[k] == rest.frames[k - 1];
        }
      }
      OneStep(|r.frames|, s.step, pos);
    }
  }

  lemma OneStep(k: nat, step: nat, pos: nat)
    requires k > 0
    ensures 0 <= k * step && pos + step + (k - 1) * step == pos + k * step
  {
  }

  lemma StepInWord(s: Stream, pos: nat, n: nat)
    requires n > 0 && 0 <= n * s.step && pos + n * s.step < TWO64
    ensures Advance(s, pos) == pos + s.step && 0 <= (n - 1) * s.step && pos + s.step + (n - 1) * s.step < TWO64
  {
    OneStep(n, s.step, pos);
  }

  /** A looping run never ends, and past the end of the source it goes on from its start. */
  lemma {:induction false} LoopRestarts(s: Stream, pos: nat, n: nat)
    requires Playable(s) && s.loop
    ensures |General(s, pos, n).frames| == n
    ensures n > 0 && pos >= EndOf(s) ==> General(s, pos, n) == General(s, 0, n)
    decreases n
  {
    hide GeneralFrame, Playable, EndOf, Advance;
    if n > 0 {
      SomeSource(s, pos);
      LoopRestarts(s, Advance(s, if pos >= EndOf(s) then 0 else pos), n - 1);
    }
  }

  // ----- the fast mixer: 16-bit stereo at the output rate -----

  function FastFrame(s: Stream, pos: nat): (f: Frame)
    requires Playable(s) && s.bps == 16 && s.channels == 2 && pos < s.total
    ensures Frame16(f)
  {
    var l := Decode(s.bytes, 4 * pos, 16);
    var r := Decode(s.bytes, 4 * pos + 2, 16);
    Frame(Scale(l, s.volume), Scale(r, s.volume))
  }

  function Fast(s: Stream, pos: nat, n: nat): (r: Run)
    requires Playable(s) && s.bps == 16 && s.channels == 2
    ensures |r.frames| <= n && (r.ended <==> |r.frames| < n)
    ensures forall k | 0 <= k < |r.frames| :: Frame16(r.frames[k])
    decreases n
  {
    if n == 0 then Run([], pos, false)
    else if pos >= s.total && !s.loop then Run([], pos, true)
    else
      var p := if pos >= s.total then 0 else pos;
      var rest := Fast(s, p + 1, n - 1);
      Run([FastFrame(s, p)] + rest.frames, rest.pos, rest.ended)
  }

  lemma AlignedCursor(s: Stream, p: nat)
    requires Playable(s) && p < s.total
    ensures p * ONE + ONE == (p + 1) * ONE < TWO64
    ensures p * ONE / ONE == p && p * ONE % ONE == 0 && p * ONE < s.total * ONE
  {
  }

  /** At a whole position the general mixer reads what the fast one reads. */
  lemma FastFrameIsGeneral(s: Stream, p: nat)
    requires Playable(s) && s.bps == 16 && s.channels == 2 && p < s.total
    ensures p * ONE < EndOf(s) && GeneralFrame(s, p * ONE) == FastFrame(s, p)
  {
    hide Decode, Scale, Blend;
    AlignedCursor(s, p);
    assert p * (2 * (16 / 8)) == 4 * p;
  }

  /** The fast path refines the general one: same frames, same cursor, same end. */
  lemma {:induction false} FastIsGeneral(s: Stream, pos: nat, n: nat)
    requires Playable(s) && s.bps == 16 && s.channels == 2 && s.step == ONE
    ensures General(s, pos * ONE, n) == Fast(s, pos, n).(pos := Fast(s, pos, n).pos * ONE)
    ensures Fast(s, pos, n).pos <= s.total || Fast(s, pos, n).pos == pos
    decreases n
  {
    hide GeneralFrame, FastFrame, Playable, EndOf, Advance;
    PastEnd(s, pos);
    if n > 0 && (pos < s.total || s.loop) {
      NotEmpty(s, pos);
      var p := if pos >= s.total then 0 else pos;
      AlignedStep(s, p);
      FastFrameIsGeneral(s, p);
      FastIsGeneral(s, p + 1, n - 1);
    }
  }

  lemma NotEmpty(s: Stream, pos: nat)
    requires Playable(s) && (pos < s.total || s.loop)
    ensures 0 < s.total
  {
  }

  lemma SomeSource(s: Stream, pos: nat)
    requires Playable(s) && (pos < EndOf(s) || s.loop)
    ensures 0 < EndOf(s)
  {
  }

  lemma PastEnd(s: Stream, pos: nat)
    ensures pos >= s.total <==> pos * ONE >= EndOf(s)
  {
  }

  lemma AlignedStep(s: Stream, p: nat)
    requires Playable(s) && s.step == ONE && p < s.total
    ensures Advance(s, p * ONE) == (p + 1) * ONE
  {
    AlignedCursor(s, p);
  }

  /** Mixing in two calls is mixing in one. */
  lemma {:induction false} GeneralSplits(s: Stream, pos: nat, n: nat, m: nat)
    requires Playable(s)
    ensures var a := General(s, pos, n);
            General(s, pos, n + m) ==
            if a.ended then a
            else var b := General(s, a.pos, m); Run(a.frames + b.frames, b.pos, b.ended)
    decreases n
  {
    hide GeneralFrame, Playable;
    if n > 0 && (pos < EndOf(s) || s.loop) {
      SomeSource(s, pos);
      var p := if pos >= EndOf(s) then 0 else pos;
      GeneralSplits(s, Advance(s, p), n - 1, m);
      var rest := General(s, Advance(s, p), n - 1);
      var b := General(s, rest.pos, m);
      assert [GeneralFrame(s, p)] + (rest.frames + b.frames) == [GeneralFrame(s, p)] + rest.frames + b.frames;
    } else if n == 0 {
      assert [] + General(s, pos, m).frames == General(s, pos, m).frames;
    }
  }

  // ----- the mixers in place -----

  /** `acc` is `before` with the frames added at its start. */
  ghost predicate Added(acc: seq<int>, before: seq<int>, frames: seq<Frame>) {
    && |acc| == |before| && 2 * |frames| <= |acc|
    && (forall f | 0 <= f < |frames| ::
          acc[2 * f] == before[2 * f] + frames[f].l && acc[2 * f + 1] == before[2 * f + 1] + frames[f].r)
    && (forall k | 2 * |frames| <= k < |acc| :: acc[k] == before[k])
  }

  lemma AddedOne(acc: seq<int>, before: seq<int>, frames: seq<Frame>, x: Frame)
    requires Added(acc, before, frames) && 2 * |frames| + 1 < |acc|
    ensures var n := 2 * |frames|;
            Added(acc[n := acc[n] + x.l][n + 1 := acc[n + 1] + x.r], before, frames + [x])
  {
  }

  lemma GeneralStep(s: Stream, pos: nat, n: nat, done: seq<Frame>)
    requires Playable(s) && n > 0 && (pos < EndOf(s) || s.loop)
    ensures 0 < EndOf(s)
    ensures var p := if pos >= EndOf(s) then 0 else pos;
            var r, rest := General(s, pos, n), General(s, Advance(s, p), n - 1);
            done + r.frames == (done + [GeneralFrame(s, p)]) + rest.frames && r.pos == rest.pos && r.ended == rest.ended
  {
    hide GeneralFrame;
  }

  method MixGeneral(acc: array<int>, frames: nat, s: Stream, start: nat) returns (produced: nat, pos: nat, ended: bool)
    requires Playable(s) && 2 * frames <= acc.Length
    modifies acc
    ensures var r := General(s, start, frames);
            produced == |r.frames| && pos == r.pos && ended == r.ended && Added(acc[..], old(acc[..]), r.frames)
  {
    hide Playable, GeneralFrame, General, Added, EndOf, Advance;
    ghost var whole := General(s, start, frames);
    ghost var done: seq<Frame> := [];
    pos, produced, ended := start, 0, false;
    NothingAdded(acc[..]);
    GeneralNone(s, pos);
    assert [] + whole.frames == whole.frames;
    while produced < frames
      invariant produced == |done| <= frames && !ended
      invariant var r := General(s, pos, frames - produced);
                whole.frames == done + r.frames && whole.pos == r.pos && whole.ended == r.ended
      invariant Added(acc[..], old(acc[..]), done)
      decreases frames - produced
    {
      if pos >= EndOf(s) {
        if s.loop {
          GeneralStep(s, pos, frames - produced, done);
          pos := 0;
        } else {
          GeneralOut(s, pos, frames - produced);
          assert done + [] == done;
          ended := true;
          return;
        }
      } else {
        GeneralStep(s, pos, frames - produced, done);
      }
      var x := GeneralFrame(s, pos);
      AddFrame(acc, produced, x, old(acc[..]), done);
      done := done + [x];
      pos := Advance(s, pos);
      produced := produced + 1;
    }
    GeneralNone(s, pos);
    assert done + [] == done;
  }

  /** One frame of either mixer: add it where the run has got to. */
  method AddFrame(acc: array<int>, f: nat, x: Frame, ghost before: seq<int>, ghost done: seq<Frame>)
    requires f == |done| && 2 * f + 1 < acc.Length && Added(acc[..], before, done)
    modifies acc
    ensures Added(acc[..], before, done + [x])
  {
    hide Added;
    AddedOne(acc[..], before, done, x);
    ghost var was := acc[..];
    acc[2 * f] := acc[2 * f] + x.l;
    acc[2 * f + 1] := acc[2 * f + 1] + x.r;
    assert acc[..] == was[2 * f := was[2 * f] + x.l][2 * f + 1 := was[2 * f + 1] + x.r];
  }

  lemma NothingAdded(acc: seq<int>)
    ensures Added(acc, acc, [])
  {
  }

  lemma GeneralNone(s: Stream, pos: nat)
    requires Playable(s)
    ensures General(s, pos, 0) == Run([], pos, false)
  {
  }

  lemma GeneralOut(s: Stream, pos: nat, n: nat)
    requires Playable(s) && n > 0 && pos >= EndOf(s) && !s.loop
    ensures General(s, pos, n) == Run([], pos, true)
  {
  }

  lemma FastStep(s: Stream, pos: nat, n: nat, done: seq<Frame>)
    requires Playable(s) && s.bps == 16 && s.channels == 2 && n > 0 && (pos < s.total || s.loop)
    ensures var p := if pos >= s.total then 0 else pos;
            p < s.total &&
            var r, rest := Fast(s, pos, n), Fast(s, p + 1, n - 1);
            done + r.frames == (done + [FastFrame(s, p)]) + rest.frames && r.pos == rest.pos && r.ended == rest.ended
  {
    hide FastFrame;
  }

  lemma FastEnds(s: Stream, pos: nat, n: nat)
    requires Playable(s) && s.bps == 16 && s.channels == 2
    ensures Fast(s, pos, 0) == Run([], pos, false)
    ensures n > 0 && pos >= s.total && !s.loop ==> Fast(s, pos, n) == Run([], pos, true)
  {
  }

  method MixFast(acc: array<int>, frames: nat, s: Stream, start: nat) returns (produced: nat, pos: nat, ended: bool)
    requires Playable(s) && s.bps == 16 && s.channels == 2 && 2 * frames <= acc.Length
    modifies acc
    ensures var r := Fast(s, start, frames);
            produced == |r.frames| && pos == r.pos && ended == r.ended && Added(acc[..], old(acc[..]), r.frames)
  {
    hide Playable, FastFrame, Fast, Added;
    ghost var whole := Fast(s, start, frames);
    ghost var done: seq<Frame> := [];
    pos, produced, ended := start, 0, false;
    NothingAdded(acc[..]);
    assert [] + whole.frames == whole.frames;
    while produced < frames
      invariant produced == |done| <= frames && !ended
      invariant var r := Fast(s, pos, frames - produced);
                whole.frames == done + r.frames && whole.pos == r.pos && whole.ended == r.ended
      invariant Added(acc[..], old(acc[..]), done)
      decreases frames - produced
    {
      FastEnds(s, pos, frames - produced);
      if pos >= s.total && !s.loop {
        assert done + [] == done;
        ended := true;
        return;
      }
      FastStep(s, pos, frames - produced, done);
      if pos >= s.total {
        pos := 0;
      }
      var x := FastFrame(s, pos);
      AddFrame(acc, produced, x, old(acc[..]), done);
      done := done + [x];
      pos := pos + 1;
      produced := produced + 1;
    }
    FastEnds(s, pos, 0);
    assert done + [] == done;
  }

  /** The fast path is taken for 16-bit stereo at the output rate. */
  predicate TakesFast(s: Stream) { s.bps == 16 && s.channels == 2 && s.step == ONE }

  /**
   * `mix_one`: from a whole position, and the fast path is always at one, either path gives the
   * general mixer's run.
   */
  method MixOne(acc: array<int>, frames: nat, s: Stream, start: nat) returns (produced: nat, pos: nat, ended: bool)
    requires Playable(s) && 2 * frames <= acc.Length && start < TWO64
    modifies acc
    ensures var r := General(s, if TakesFast(s) then start / ONE * ONE else start, frames);
            produced == |r.frames| && pos == r.pos && ended == r.ended && Added(acc[..], old(acc[..]), r.frames)
    ensures pos < TWO64 && (TakesFast(s) ==> pos % ONE == 0)
  {
    hide General, Fast, Added;
    if TakesFast(s) {
      FastIsGeneral(s, start / ONE, frames);
      var whole;
      produced, whole, ended := MixFast(acc, frames, s, start / ONE);
      WholeCursor(s, start, whole);
      pos := whole * ONE % TWO64;
    } else {
      produced, pos, ended := MixGeneral(acc, frames, s, start);
      CursorIsWord(s, start, frames);
    }
  }

  lemma WholeCursor(s: Stream, start: nat, whole: nat)
    requires Playable(s) && start < TWO64 && (whole <= s.total || whole == start / ONE)
    ensures whole * ONE < TWO64 && whole * ONE % TWO64 == whole * ONE && whole * ONE % ONE == 0
  {
    assert whole < ONE;
  }

  lemma {:induction false} CursorIsWord(s: Stream, pos: nat, n: nat)
    requires Playable(s) && pos < TWO64
    ensures General(s, pos, n).pos < TWO64
    decreases n
  {
    hide Playable, GeneralFrame, EndOf;
    if n > 0 && (pos < EndOf(s) || s.loop) {
      SomeSource(s, pos);
      var p := if pos >= EndOf(s) then 0 else pos;
      CursorIsWord(s, Advance(s, p), n - 1);
    }
  }

  // ----- one chunk: sum the streams, clamp once, drop the streams that ended -----

  datatype Voice = Voice(stream: Stream, pos: nat)

  /** A playing stream: a 64-bit cursor, whole on the fast path. */
  ghost predicate VoiceOk(v: Voice) {
    Playable(v.stream) && v.pos < TWO64 && (TakesFast(v.stream) ==> v.pos % ONE == 0)
  }

  ghost predicate AllOk(voices: seq<Voice>) { forall i | 0 <= i < |voices| :: VoiceOk(voices[i]) }

  /** The run one voice contributes to a chunk of `n` frames, and the voice afterwards. */
  ghost function RunOf(v: Voice, n: nat): (r: Run)
    requires VoiceOk(v)
    ensures |r.frames| <= n && (r.ended <==> |r.frames| < n)
    ensures forall k | 0 <= k < |r.frames| :: Frame16(r.frames[k])
  {
    General(v.stream, v.pos, n)
  }

  ghost function Moved(v: Voice, n: nat): Voice
    requires VoiceOk(v)
  {
    v.(pos := RunOf(v, n).pos)
  }

  /** What a run adds to interleaved sample `j`. */
  function SampleOf(frames: seq<Frame>, j: nat): int {
    if j / 2 < |frames| then (if j % 2 == 0 then frames[j / 2].l else frames[j / 2].r) else 0
  }

  /** The exact sum of the voices at sample `j`. */
  ghost function Mix(voices: seq<Voice>, n: nat, j: nat): int
    requires AllOk(voices)
  {
    if |voices| == 0 then 0
    else Mix(voices[..|voices| - 1], n, j) + SampleOf(RunOf(voices[|voices| - 1], n).frames, j)
  }

  /** The longest run of any voice. */
  ghost function Longest(voices: seq<Voice>, n: nat): (most: nat)
    requires AllOk(voices)
    ensures most <= n
  {
    if |voices| == 0 then 0
    else
      var rest, last := Longest(voices[..|voices| - 1], n), |RunOf(voices[|voices| - 1], n).frames|;
      if last > rest then last else rest
  }

  /** The voices that have not ended after `n` frames, where they then are. */
  ghost function Live(voices: seq<Voice>, n: nat): (live: seq<Voice>)
    requires AllOk(voices)
  {
    if |voices| == 0 then []
    else
      var rest, last := Live(voices[..|voices| - 1], n), voices[|voices| - 1];
      if RunOf(last, n).ended then rest else rest + [Moved(last, n)]
  }

  lemma {:induction false} LongestMeaning(voices: seq<Voice>, n: nat)
    requires AllOk(voices)
    ensures forall i | 0 <= i < |voices| :: |RunOf(voices[i], n).frames| <= Longest(voices, n)
    ensures var most := Longest(voices, n);
            most == 0 || exists i | 0 <= i < |voices| :: |RunOf(voices[i], n).frames| == most
    decreases |voices|
  {
    hide RunOf, VoiceOk;
    if |voices| > 0 {
      var last := |voices| - 1;
      LongestMeaning(voices[..last], n);
      if Longest(voices, n) == Longest(voices[..last], n) && Longest(voices, n) != 0 {
        var i :| 0 <= i < last && |RunOf(voices[..last][i], n).frames| == Longest(voices, n);
        assert |RunOf(voices[i], n).frames| == Longest(voices, n);
      }
    }
  }

  /** The live voices are exactly those whose run did not end, moved on, in their order. */
  lemma {:induction false} LiveMeaning(voices: seq<Voice>, n: nat) returns (from: seq<nat>)
    requires AllOk(voices)
    ensures |from| == |Live(voices, n)|
    ensures forall k | 0 <= k < |from| ::
              from[k] < |voices| && !RunOf(voices[from[k]], n).ended && Live(voices, n)[k] == Moved(voices[from[k]], n)
    ensures forall i | 0 <= i < |voices| && !RunOf(voices[i], n).ended :: i in from
    ensures forall k, m | 0 <= k < m < |from| :: from[k] < from[m]
    decreases |voices|
  {
    hide RunOf, VoiceOk;
    if |voices| == 0 {
      from := [];
    } else {
      var last := |voices| - 1;
      from := LiveMeaning(voices[..last], n);
      if !RunOf(voices[last], n).ended {
        from := from + [last];
      }
    }
  }

  /** The sums stay far inside 32 bits, so the accumulator cannot overflow. */
  lemma {:induction false} MixBound(voices: seq<Voice>, n: nat, j: nat)
    requires AllOk(voices)
    ensures -32768 * |voices| <= Mix(voices, n, j) <= 32767 * |voices|
    ensures |voices| <= MAX_STREAMS ==> -0x8000_0000 <= Mix(voices, n, j) <= 0x7fff_ffff
    decreases |voices|
  {
    hide RunOf, VoiceOk;
    if |voices| > 0 {
      var last := |voices| - 1;
      MixBound(voices[..last], n, j);
      var frames := RunOf(voices[last], n).frames;
      if j / 2 < |frames| {
        assert Frame16(frames[j / 2]);
      }
    }
  }

  lemma AddedSample(acc: seq<int>, before: seq<int>, frames: seq<Frame>, j: nat)
    requires Added(acc, before, frames) && j < |acc|
    ensures acc[j] == before[j] + SampleOf(frames, j)
  {
    var f := j / 2;
    assert j == 2 * f || j == 2 * f + 1;
  }

  /** One voice more at the end of the list. */
  lemma OneMore(voices: seq<Voice>, v: Voice, n: nat, j: nat)
    requires AllOk(voices) && VoiceOk(v)
    ensures AllOk(voices + [v])
    ensures Mix(voices + [v], n, j) == Mix(voices, n, j) + SampleOf(RunOf(v, n).frames, j)
    ensures var last := |RunOf(v, n).frames|;
            Longest(voices + [v], n) == if last > Longest(voices, n) then last else Longest(voices, n)
    ensures Live(voices + [v], n) == if RunOf(v, n).ended then Live(voices, n) else Live(voices, n) + [Moved(v, n)]
  {
    hide RunOf, SampleOf, VoiceOk;
    assert (voices + [v])[..|voices|] == voices;
  }

  /** A voice keeps what it needs: its cursor stays a word, whole on the fast path. */
  lemma MovedOk(v: Voice, n: nat)
    requires VoiceOk(v)
    ensures VoiceOk(Moved(v, n))
  {
    hide General, Fast;
    CursorIsWord(v.stream, v.pos, n);
    if TakesFast(v.stream) {
      assert v.pos == v.pos / ONE * ONE;
      FastIsGeneral(v.stream, v.pos / ONE, n);
    }
  }

  lemma {:induction false} LiveOk(voices: seq<Voice>, n: nat)
    requires AllOk(voices)
    ensures AllOk(Live(voices, n)) && |Live(voices, n)| <= |voices|
    decreases |voices|
  {
    hide VoiceOk, RunOf;
    if |voices| > 0 {
      LiveOk(voices[..|voices| - 1], n);
      MovedOk(voices[|voices| - 1], n);
    }
  }

  /** One voice of the mix phase: the accumulator gains its run. */
  method AddVoice(acc: array<int>, n: nat, ghost voices: seq<Voice>, v: Voice)
    returns (produced: nat, pos: nat, ended: bool)
    requires AllOk(voices) && VoiceOk(v) && acc.Length == 2 * n
    requires forall j | 0 <= j < 2 * n :: acc[j] == Mix(voices, n, j)
    modifies acc
    ensures AllOk(voices + [v])
    ensures forall j | 0 <= j < 2 * n :: acc[j] == Mix(voices + [v], n, j)
    ensures var r := RunOf(v, n); produced == |r.frames| && pos == r.pos && ended == r.ended
  {
    hide General, Added, SampleOf, Mix;
    ghost var before := acc[..];
    assert TakesFast(v.stream) ==> v.pos / ONE * ONE == v.pos;
    produced, pos, ended := MixOne(acc, n, v.stream, v.pos);
    OneMore(voices, v, n, 0);
    forall j | 0 <= j < 2 * n ensures acc[j] == Mix(voices + [v], n, j) {
      AddedSample(acc[..], before, RunOf(v, n).frames, j);
      OneMore(voices, v, n, j);
      assert acc[..][j] == acc[j];
    }
  }

  /**
   * `pull_chunk` over the playing streams: each output sample is the clamped exact sum of all of
   * them, the longest run is reported, and the streams that go on are left at their new cursors.
   */
  method PullChunk(voices: seq<Voice>, n: nat) returns (dst: array<int>, live: seq<Voice>, most: nat)
    requires |voices| <= MAX_STREAMS && AllOk(voices)
    ensures fresh(dst) && dst.Length == 2 * n
    ensures forall j | 0 <= j < 2 * n :: dst[j] == Saturate(Mix(voices, n, j))
    ensures live == Live(voices, n) && AllOk(live) && |live| <= |voices| && most == Longest(voices, n)
  {
    hide General, Saturate, RunOf, Mix, Longest, Live, VoiceOk;
    var acc := new int[2 * n](i => 0);
    live, most := [], 0;
    NoVoice(n);
    var k := 0;
    while k < |voices|
      invariant 0 <= k <= |voices| && AllOk(voices[..k])
      invariant forall j | 0 <= j < 2 * n :: acc[j] == Mix(voices[..k], n, j)
      invariant live == Live(voices[..k], n) && most == Longest(voices[..k], n)
    {
      var v := voices[k];
      OneMore(voices[..k], v, n, 0);
      var produced, pos, ended := AddVoice(acc, n, voices[..k], v);
      assert voices[..k] + [v] == voices[..k + 1];
      if !ended {
        live := live + [v.(pos := pos)];
      }
      if produced > most {
        most := produced;
      }
      k := k + 1;
    }
    assert voices[..k] == voices;
    LiveOk(voices, n);
    dst := ClampAll(acc);
  }

  lemma NoVoice(n: nat)
    ensures AllOk([]) && Live([], n) == [] && Longest([], n) == 0
    ensures forall j: nat :: Mix([], n, j) == 0
  {
  }

  method ClampAll(acc: array<int>) returns (dst: array<int>)
    ensures fresh(dst) && dst.Length == acc.Length
    ensures forall j | 0 <= j < acc.Length :: dst[j] == Saturate(acc[j])
  {
    dst := new int[acc.Length];
    var j := 0;
    while j < acc.Length
      invariant 0 <= j <= acc.Length
      invariant forall i | 0 <= i < j :: dst[i] == Saturate(acc[i])
    {
      dst[j] := Saturate(acc[j]);
      j := j + 1;
    }
  }

  // ----- many chunks are one -----

  /** One voice over two chunks, by `GeneralSplits`. */
  lemma VoiceSplits(v: Voice, c: nat, m: nat)
    requires VoiceOk(v)
    ensures VoiceOk(Moved(v, c))
    ensures var a, b := RunOf(v, c), RunOf(Moved(v, c), m);
            RunOf(v, c + m) == if a.ended then a else Run(a.frames + b.frames, b.pos, b.ended)
  {
    MovedOk(v, c);
    GeneralSplits(v.stream, v.pos, c, m);
  }

  lemma SampleSplits(a: seq<Frame>, b: seq<Frame>, c: nat, j: nat)
    requires |a| <= c
    ensures j < 2 * c && |a| == c ==> SampleOf(a + b, j) == SampleOf(a, j)
    ensures |a| == c ==> SampleOf(a + b, 2 * c + j) == SampleOf(b, j)
    ensures SampleOf(a, 2 * c + j) == 0
  {
    assert (2 * c + j) / 2 == c + j / 2 && (2 * c + j) % 2 == j % 2;
  }

  /** The sum over a long stretch is the sum over its first chunk, then that of the streams still live. */
  lemma {:induction false} MixSplits(voices: seq<Voice>, c: nat, m: nat, j: nat)
    requires AllOk(voices) && AllOk(Live(voices, c))
    ensures j < 2 * c ==> Mix(voices, c + m, j) == Mix(voices, c, j)
    ensures Mix(voices, c + m, 2 * c + j) == Mix(Live(voices, c), m, j)
    decreases |voices|
  {
    hide RunOf, VoiceOk, SampleOf, Mix, Longest, Live;
    if |voices| == 0 {
      NoVoice(c);
      NoVoice(m);
      NoVoice(c + m);
    } else {
      var init, v := voices[..|voices| - 1], voices[|voices| - 1];
      assert voices == init + [v];
      OneMore(init, v, c, j);
      OneMore(init, v, c + m, j);
      OneMore(init, v, c + m, 2 * c + j);
      LiveOk(init, c);
      MixSplits(init, c, m, j);
      VoiceSplits(v, c, m);
      var a := RunOf(v, c);
      SampleSplits(a.frames, RunOf(Moved(v, c), m).frames, c, j);
      if !a.ended {
        OneMore(Live(init, c), Moved(v, c), m, j);
      }
    }
  }

  /** The longest run goes on exactly as long as some stream is still live. */
  lemma {:induction false} LongestSplits(voices: seq<Voice>, c: nat, m: nat)
    requires AllOk(voices) && AllOk(Live(voices, c))
    ensures c > 0 ==> (Longest(voices, c) == c <==> Live(voices, c) != [])
    ensures Longest(voices, c + m) ==
            if Live(voices, c) == [] then Longest(voices, c) else c + Longest(Live(voices, c), m)
    decreases |voices|
  {
    hide RunOf, VoiceOk, Mix, Longest, Live;
    if |voices| == 0 {
      NoVoice(c);
      NoVoice(c + m);
    } else {
      var init, v := voices[..|voices| - 1], voices[|voices| - 1];
      assert voices == init + [v];
      OneMore(init, v, c, 0);
      OneMore(init, v, c + m, 0);
      LiveOk(init, c);
      LongestSplits(init, c, m);
      VoiceSplits(v, c, m);
      NoVoice(m);
      if !RunOf(v, c).ended {
        OneMore(Live(init, c), Moved(v, c), m, 0);
      }
    }
  }

  /** The voices live after a long stretch are those live after its chunks. */
  lemma {:induction false} LiveSplits(voices: seq<Voice>, c: nat, m: nat)
    requires AllOk(voices) && AllOk(Live(voices, c))
    ensures Live(voices, c + m) == Live(Live(voices, c), m)
    decreases |voices|
  {
    hide RunOf, VoiceOk, Mix, Longest, Live;
    if |voices| == 0 {
      NoVoice(c);
      NoVoice(m);
      NoVoice(c + m);
    } else {
      var init, v := voices[..|voices| - 1], voices[|voices| - 1];
      assert voices == init + [v];
      OneMore(init, v, c, 0);
      OneMore(init, v, c + m, 0);
      LiveOk(init, c);
      LiveSplits(init, c, m);
      VoiceSplits(v, c, m);
      if !RunOf(v, c).ended {
        OneMore(Live(init, c), Moved(v, c), m, 0);
      }
    }
  }

  const PULL_CHUNK: nat := 1024

  /** The first `n` samples of `dst` are the clamped mix of the voices over `frames` frames. */
  ghost predicate Written(dst: seq<int>, n: nat, voices: seq<Voice>, frames: nat)
    requires AllOk(voices)
  {
    n <= |dst| && forall j | 0 <= j < n :: dst[j] == Saturate(Mix(voices, frames, j))
  }

  /** What is left to do: the streams still live, over the frames still wanted, continue the whole mix. */
  ghost predicate Continues(voices: seq<Voice>, frames: nat, done: nat, cur: seq<Voice>, left: nat)
    requires AllOk(voices) && AllOk(cur)
  {
    && done + left == frames && Longest(voices, frames) == done + Longest(cur, left)
    && Live(voices, frames) == Live(cur, left)
    && forall j: nat :: Mix(cur, left, j) == Mix(voices, frames, 2 * done + j)
  }

  lemma ChunkContinues(voices: seq<Voice>, frames: nat, done: nat, cur: seq<Voice>, want: nat)
    requires AllOk(voices) && AllOk(cur) && done + want <= frames && 0 < want
        && Continues(voices, frames, done, cur, frames - done)
    ensures AllOk(Live(cur, want))
    ensures Longest(cur, want) == want ==> Continues(voices, frames, done + want, Live(cur, want), frames - done - want)
    ensures Longest(cur, want) < want ==>
              Longest(voices, frames) == done + Longest(cur, want) && Live(voices, frames) == Live(cur, want) == []
    ensures forall j | 0 <= j < 2 * want :: Mix(voices, frames, 2 * done + j) == Mix(cur, want, j)
  {
    hide Mix, Longest, Live, VoiceOk;
    var m := frames - done - want;
    assert want + m == frames - done;
    LiveOk(cur, want);
    LongestSplits(cur, want, m);
    LiveSplits(cur, want, m);
    NoVoice(m);
    forall j: nat ensures j < 2 * want ==> Mix(voices, frames, 2 * done + j) == Mix(cur, want, j)
      ensures Mix(voices, frames, 2 * (done + want) + j) == Mix(Live(cur, want), m, j)
    {
      MixSplits(cur, want, m, j);
      assert Mix(voices, frames, 2 * done + j) == Mix(cur, want + m, j);
      assert 2 * (done + want) + j == 2 * done + (2 * want + j);
      assert Mix(voices, frames, 2 * done + (2 * want + j)) == Mix(cur, want + m, 2 * want + j);
    }
    assert frames - (done + want) == m;
  }

  /** Puts a chunk behind what is written. */
  method WriteChunk(dst: array<int>, off: nat, chunk: array<int>)
    requires dst != chunk && off + chunk.Length <= dst.Length
    modifies dst
    ensures forall j | 0 <= j < off :: dst[j] == old(dst[j])
    ensures forall j | 0 <= j < chunk.Length :: dst[off + j] == chunk[j]
  {
    var i := 0;
    while i < chunk.Length
      invariant 0 <= i <= chunk.Length
      invariant forall j | 0 <= j < off :: dst[j] == old(dst[j])
      invariant forall j | 0 <= j < i :: dst[off + j] == chunk[j]
    {
      dst[off + i] := chunk[i];
      i := i + 1;
    }
  }

  /** One turn of the pull loop: the next chunk is written where it belongs. */
  method PullNext(voices: seq<Voice>, frames: nat, done: nat, cur: seq<Voice>, want: nat, dst: array<int>)
    returns (got: nat, live: seq<Voice>)
    requires AllOk(voices) && AllOk(cur) && |cur| <= MAX_STREAMS && 0 < want && done + want <= frames
    requires 2 * frames <= dst.Length && Continues(voices, frames, done, cur, frames - done)
        && Written(dst[..], 2 * done, voices, frames)
    modifies dst
    ensures live == Live(cur, want) && AllOk(live) && |live| <= |cur| && got == Longest(cur, want)
    ensures Written(dst[..], 2 * (done + want), voices, frames)
  {
    hide Mix, Longest, Live, VoiceOk, Continues, Saturate;
    var chunk;
    chunk, live, got := PullChunk(cur, want);
    ChunkContinues(voices, frames, done, cur, want);
    ghost var before := dst[..];
    WriteChunk(dst, 2 * done, chunk);
    forall j | 0 <= j < 2 * (done + want) ensures dst[..][j] == Saturate(Mix(voices, frames, j)) {
      if j < 2 * done {
        assert dst[j] == before[j];
      } else {
        var i := j - 2 * done;
        assert dst[2 * done + i] == chunk[i];
        assert Mix(voices, frames, 2 * done + i) == Mix(cur, want, i);
      }
    }
  }

  /**
   * `anx_audio_mix_pull`: pulling in chunks of 1024 gives the frames of one long mix, as many as
   * the longest stream has.
   */
  method MixPull(voices: seq<Voice>, dst: array<int>, frames: nat) returns (produced: nat, live: seq<Voice>)
    requires AllOk(voices) && |voices| <= MAX_STREAMS && 2 * frames <= dst.Length
    modifies dst
    ensures produced == Longest(voices, frames) && live == Live(voices, frames) && AllOk(live) && |live| <= |voices|
    ensures Written(dst[..], 2 * produced, voices, frames)
  {
    hide Mix, Longest, Live, VoiceOk, Continues, Written;
    live, produced := voices, 0;
    NothingPulled(voices, frames, dst[..]);
    while produced < frames
      invariant produced <= frames && AllOk(live) && |live| <= |voices|
      invariant Continues(voices, frames, produced, live, frames - produced)
        && Written(dst[..], 2 * produced, voices, frames)
      decreases frames - produced
    {
      var want := if frames - produced < PULL_CHUNK then frames - produced else PULL_CHUNK;
      ChunkContinues(voices, frames, produced, live, want);
      var got, next := PullNext(voices, frames, produced, live, want, dst);
      if got < want {
        WrittenLess(dst[..], 2 * (produced + want), 2 * (produced + got), voices, frames);
        return produced + got, next;
      }
      produced, live := produced + want, next;
    }
    AllPulled(voices, frames, live);
  }

  lemma NothingPulled(voices: seq<Voice>, frames: nat, dst: seq<int>)
    requires AllOk(voices)
    ensures Continues(voices, frames, 0, voices, frames) && Written(dst, 0, voices, frames)
  {
  }

  lemma WrittenLess(dst: seq<int>, n: nat, m: nat, voices: seq<Voice>, frames: nat)
    requires AllOk(voices) && Written(dst, n, voices, frames) && m <= n
    ensures Written(dst, m, voices, frames)
  {
  }

  lemma AllPulled(voices: seq<Voice>, frames: nat, cur: seq<Voice>)
    requires AllOk(voices) && AllOk(cur) && Continues(voices, frames, frames, cur, 0)
    ensures Longest(voices, frames) == frames && Live(voices, frames) == cur
  {
    NothingMoves(cur);
  }

  lemma {:induction false} NothingMoves(voices: seq<Voice>)
    requires AllOk(voices)
    ensures Live(voices, 0) == voices
  {
    if |voices| > 0 {
      NothingMoves(voices[..|voices| - 1]);
    }
  }

  // ----- cell.c: how many frames to play -----

  /** `compute_step_q32`. */
  function StepOf(rate: nat): (step: nat)
    ensures 0 <= RateOf(rate) * ONE - 48000 * step < 48000
  {
    if rate == 0 || rate == DEFAULT_RATE then ONE else rate * ONE / DEFAULT_RATE
  }

  function RateOf(rate: nat): (r: nat)
    ensures r > 0
  {
    if rate == 0 then DEFAULT_RATE else rate
  }

  /** The frame count of `do_play`, before its 32-bit clamp: the clip's length at the output rate, rounded up. */
  function FramesToPlay(total: nat, rate: nat): (n: nat)
    ensures n * RateOf(rate) >= total * DEFAULT_RATE
    ensures forall k: nat | k < n :: k * RateOf(rate) < total * DEFAULT_RATE
  {
    CeilingBound(total * DEFAULT_RATE, RateOf(rate));
    (total * DEFAULT_RATE + RateOf(rate) - 1) / RateOf(rate)
  }

  lemma CeilingBound(x: nat, r: nat)
    requires r > 0
    ensures (x + r - 1) / r * r >= x
    ensures forall k: nat | k < (x + r - 1) / r :: k * r < x
  {
    var q := (x + r - 1) / r;
    assert x + r - 1 == q * r + (x + r - 1) % r;
    forall k: nat | k < q ensures k * r < x {
      assert (k + 1) * r <= q * r;
      assert (k + 1) * r == k * r + r;
    }
  }

  /** Before the last planned frame the cursor is still inside the source, because the step rounds down. */
  lemma CursorInside(total: nat, rate: nat, k: nat)
    requires k < FramesToPlay(total, rate)
    ensures 0 <= k * StepOf(rate) < total * ONE
  {
    hide FramesToPlay;
    var r, step := RateOf(rate), StepOf(rate);
    assert step * DEFAULT_RATE <= r * ONE;
    assert k * r < total * DEFAULT_RATE;
    assert k * (step * DEFAULT_RATE) <= k * (r * ONE);
    assert k * (r * ONE) == (k * r) * ONE;
    assert k * (step * DEFAULT_RATE) == (k * step) * DEFAULT_RATE;
  }

  /** The cursor of planned frame `k`. */
  function CursorAt(s: Stream, k: nat): (pos: nat) {
    MulNat(k, s.step);
    k * s.step
  }

  lemma MulNat(a: nat, b: nat)
    ensures 0 <= a * b
  {
  }

  lemma CursorStep(s: Stream, rate: nat, n: nat, k: nat)
    requires Playable(s) && s.step == StepOf(rate) && k < n <= FramesToPlay(s.total, rate)
    ensures CursorAt(s, k) < EndOf(s)
    ensures k + 1 < n ==> Advance(s, CursorAt(s, k)) == CursorAt(s, k + 1)
  {
    hide FramesToPlay, StepOf;
    CursorInside(s.total, rate, k);
    assert (k + 1) * s.step == k * s.step + s.step;
    if k + 1 < n {
      CursorInside(s.total, rate, k + 1);
      assert s.total * ONE < TWO64;
    }
  }

  /**
   * Played from the start, a clip yields every frame planned for it, or any clamped number of
   * them: frame `k` is read at cursor `k * step`, which has neither passed the end, looped nor wrapped.
   */
  lemma {:induction false} PlaysInFull(s: Stream, rate: nat, n: nat, k: nat)
    requires Playable(s) && s.step == StepOf(rate) && k < n <= FramesToPlay(s.total, rate)
    ensures var r := General(s, CursorAt(s, k), n - k);
            |r.frames| == n - k && !r.ended &&
            forall i | 0 <= i < n - k :: CursorAt(s, k + i) < EndOf(s)
              && r.frames[i] == GeneralFrame(s, CursorAt(s, k + i))
    decreases n - k
  {
    hide FramesToPlay, StepOf, GeneralFrame, CursorAt, EndOf, Advance, Playable;
    CursorStep(s, rate, n, k);
    var r := General(s, CursorAt(s, k), n - k);
    assert CursorAt(s, k + 0) == CursorAt(s, k);
    if k + 1 < n {
      PlaysInFull(s, rate, n, k + 1);
      var rest := General(s, CursorAt(s, k + 1), n - k - 1);
      forall i | 0 < i < n - k
        ensures CursorAt(s, k + i) < EndOf(s) && r.frames[i] == GeneralFrame(s, CursorAt(s, k + i))
      {
        assert k + 1 + (i - 1) == k + i;
        assert r.frames[i] == rest.frames[i - 1];
      }
    }
  }
}
