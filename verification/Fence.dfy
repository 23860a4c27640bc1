/**
 * Effect fences and the protected-effect protocol: kernel/core/cap/effect_fence.c and
 * kernel/core/cap/effect.c.  Each section held under the fence lock is one method, so a
 * run is any interleaving of them; `Prepare` strings three of them together.  Time, the
 * caller's authority and cell creation are parameters.  Ghost state records what was read
 * under each fence, which control revisions were used up, and how each effect was dispatched.
 */
module Fence {
  import opened Results

  const FENCE_MAX: nat := 256
  const CHILDREN_MAX: nat := 1024
  const U64_MAX: nat := 0xFFFF_FFFF_FFFF_FFFF
  const RESTRICTED: nat := 3

  datatype State = Running | Held | Rejected | Cancelled | TimedOut

  predicate Closed(s: State) { s.Rejected? || s.Cancelled? || s.TimedOut? }

  datatype FenceView = FenceView(epoch: nat, generation: nat, state: State, readSensitivity: nat, readOrigin: nat,
                                 readCount: nat, childLimit: nat, childCreations: nat, expiresAt: nat)

  const FRESH: FenceView := FenceView(1, 1, Running, 0, 0, 0, 0, 0, 0)

  /** `change_state`: which moves are allowed, and what they do. */
  function MoveError(f: FenceView, s: State): Option<Error> {
    if Closed(f.state) then Some(EPERM)
    else if s == f.state || (s.Running? && !f.state.Held?) || (s.Rejected? && !f.state.Held?) then Some(EINVAL)
    else if f.generation == U64_MAX && !Closed(s) then Some(EFULL)
    else None
  }

  function Moved(f: FenceView, s: State): FenceView {
    f.(state := s,
       generation := if f.generation != U64_MAX then f.generation + 1 else f.generation,
       epoch := if Closed(s) then f.epoch + 1 else f.epoch)
  }

  predicate Expired(f: FenceView, now: nat) {
    !Closed(f.state) && f.expiresAt != 0 && now >= f.expiresAt
  }

  /** `state_check`: expiry closes the fence for good before it is looked at. */
  function Checked(f: FenceView, now: nat): FenceView {
    if Expired(f, now) then Moved(f, TimedOut) else f
  }

  function Standing(f: FenceView): Option<Error> {
    if f.state.Held? then Some(EBUSY) else if Closed(f.state) then Some(EPERM) else None
  }

  /** `sink_check`: a sink must be cleared for everything read under the fence. */
  function SinkError(f: FenceView, sink: Option<int>): Option<Error> {
    match sink
    case None => if f.readSensitivity == 0 then None else Some(EPERM)
    case Some(clearance) =>
      if clearance < 0 || clearance > RESTRICTED then Some(EINVAL)
      else if f.readSensitivity <= clearance then None else Some(EPERM)
  }

  /** What a sink may receive: nothing but public data without one. */
  function Clearance(sink: Option<int>): int {
    match sink
    case None => 0
    case Some(c) => c
  }

  // ----- what these mean -----

  /** Only these two states can be left. */
  ghost predicate Open(s: State) { s.Running? || s.Held? }

  ghost predicate Legal(from: State, s: State) {
    || (from.Running? && (s.Held? || s.Cancelled? || s.TimedOut?))
    || (from.Held? && (s.Running? || s.Rejected? || s.Cancelled? || s.TimedOut?))
  }

  /** A move is legal, and the last revision is kept for closing. */
  ghost predicate MayMove(f: FenceView, s: State) {
    Legal(f.state, s) && (f.generation != U64_MAX || !Open(s))
  }

  /** The new state is `s`; a revision is used, and closing starts a new epoch. */
  ghost predicate MovedTo(f: FenceView, f': FenceView, s: State) {
    && f'.state == s
    && f'.generation == (if f.generation == U64_MAX then U64_MAX else f.generation + 1)
    && f'.epoch == (if Open(s) then f.epoch else f.epoch + 1)
    && f' == f.(state := f'.state, generation := f'.generation, epoch := f'.epoch)
  }

  ghost predicate Late(f: FenceView, now: nat) {
    Open(f.state) && f.expiresAt != 0 && f.expiresAt <= now
  }

  /** Running, and before its deadline if it has one. */
  ghost predicate Passable(f: FenceView, now: nat) {
    f.state.Running? && (f.expiresAt == 0 || now < f.expiresAt)
  }

  lemma MoveMeaning(f: FenceView, s: State)
    ensures MoveError(f, s).None? <==> MayMove(f, s)
    ensures MoveError(f, s) == Some(EPERM) <==> !Open(f.state)
    ensures MoveError(f, s) == Some(EFULL) <==> Legal(f.state, s) && Open(s) && f.generation == U64_MAX
    ensures MoveError(f, s).None? ==> MovedTo(f, Moved(f, s), s)
  {
  }

  lemma CheckMeaning(f: FenceView, now: nat)
    ensures if Late(f, now) then MovedTo(f, Checked(f, now), TimedOut) else Checked(f, now) == f
    ensures Expired(f, now) <==> Late(f, now)
    ensures Standing(f) == if f.state.Running? then None else Some(if f.state.Held? then EBUSY else EPERM)
  {
  }

  /** A sink may receive every one of the reads: public ones only, when there is no sink. */
  ghost predicate Cleared(sink: Option<int>, seen: seq<nat>) {
    match sink
    case None => forall k | 0 <= k < |seen| :: seen[k] == 0
    case Some(c) => 0 <= c <= 3 && forall k | 0 <= k < |seen| :: seen[k] <= c
  }

  // ----- what happened to the fences -----

  datatype Entry = Moves(fence: nat, to: State) | Admits(fence: nat)

  /** The state a log leaves a fence in. */
  ghost function StateOf(log: seq<Entry>, i: nat): State {
    if log == [] then Running
    else
      var e := log[|log| - 1];
      if e.Moves? && e.fence == i then e.to else StateOf(log[..|log| - 1], i)
  }

  /** Each admission found its fence running, and each move was legal where it was made. */
  ghost predicate EntryOk(log: seq<Entry>, b: nat)
    requires b < |log|
  {
    match log[b]
    case Moves(i, s) => Legal(StateOf(log[..b], i), s)
    case Admits(i) => StateOf(log[..b], i).Running?
  }

  /** The log accounts for the state of every fence. */
  ghost predicate LogOk(fences: seq<FenceView>, log: seq<Entry>) {
    && (forall i | 0 <= i < |fences| :: fences[i].state == StateOf(log, i))
    && (forall b | 0 <= b < |log| :: log[b].fence < |fences| && EntryOk(log, b))
  }

  lemma LogAppend(fences: seq<FenceView>, log: seq<Entry>, e: Entry, i: nat, f: FenceView)
    requires LogOk(fences, log) && i < |fences| && e.fence == i
    requires if e.Moves? then Legal(fences[i].state, e.to) && f.state == e.to
             else fences[i].state.Running? && f.state.Running?
    ensures LogOk(fences[i := f], log + [e])
  {
    var log' := log + [e];
    assert log'[..|log|] == log;
    forall b | 0 <= b < |log'| ensures log'[b].fence < |fences| && EntryOk(log', b) {
      if b < |log| {
        assert log'[..b] == log[..b] && EntryOk(log, b);
      }
    }
  }

  lemma {:induction false} NotMentioned(log: seq<Entry>, i: nat)
    requires forall b | 0 <= b < |log| :: log[b].fence < i
    ensures StateOf(log, i).Running?
  {
    if log != [] {
      NotMentioned(log[..|log| - 1], i);
    }
  }

  /** A log that leaves a held fence running has a move back to running after the hold. */
  lemma {:induction false} RunningAgain(log: seq<Entry>, i: nat, a: nat) returns (c: nat)
    requires a < |log| && log[a] == Moves(i, Held) && StateOf(log, i).Running?
    ensures a < c < |log| && log[c] == Moves(i, Running)
    decreases |log|
  {
    var n := |log| - 1;
    if log[n] == Moves(i, Running) {
      c := n;
    } else {
      c := RunningAgain(log[..n], i, a);
    }
  }

  /** From an accepted hold until an accepted move back to running, nothing passes the fence. */
  lemma HoldHolds(fences: seq<FenceView>, log: seq<Entry>, i: nat, a: nat, b: nat)
    requires LogOk(fences, log) && a < b < |log|
    requires log[a] == Moves(i, Held) && log[b] == Admits(i)
    ensures exists c | a < c < b :: log[c] == Moves(i, Running)
  {
    assert EntryOk(log, b);
    var c := RunningAgain(log[..b], i, a);
  }

  lemma {:induction false} StaysClosed(log: seq<Entry>, i: nat, a: nat)
    requires a < |log| && log[a].Moves? && log[a].fence == i && !Open(log[a].to)
    requires forall b | 0 <= b < |log| :: EntryOk(log, b)
    ensures StateOf(log, i) == log[a].to
    ensures forall b | a < b < |log| :: log[b].fence != i
    decreases |log|
  {
    var n := |log| - 1;
    if a < n {
      var front := log[..n];
      forall b | 0 <= b < n ensures EntryOk(front, b) {
        assert front[..b] == log[..b] && EntryOk(log, b);
      }
      StaysClosed(front, i, a);
      assert EntryOk(log, n);
    }
  }

  /** After a fence closes nothing passes it, and it never moves again. */
  lemma ClosedIsClosed(fences: seq<FenceView>, log: seq<Entry>, i: nat, a: nat, b: nat)
    requires LogOk(fences, log) && a < b < |log|
    requires log[a].Moves? && log[a].fence == i && !Open(log[a].to)
    ensures log[b].fence != i
  {
    StaysClosed(log, i, a);
  }

  // ----- invariants of one fence -----

  /** The most sensitive of the reads observed so far. */
  ghost function Highest(seen: seq<nat>): (m: nat)
    ensures forall k | 0 <= k < |seen| :: seen[k] <= m
    ensures m == 0 || m in seen
  {
    if seen == [] then 0
    else
      var m := Highest(seen[..|seen| - 1]);
      assert seen == seen[..|seen| - 1] + [seen[|seen| - 1]];
      if seen[|seen| - 1] > m then seen[|seen| - 1] else m
  }

  lemma SinkMeaning(f: FenceView, sink: Option<int>, seen: seq<nat>)
    requires f.readSensitivity == Highest(seen)
    ensures SinkError(f, sink).None? <==> Cleared(sink, seen)
    ensures Cleared(sink, seen) ==>
      && 0 <= Clearance(sink) && Highest(seen) <= Clearance(sink)
      && forall k | 0 <= k < |seen| :: seen[k] <= Clearance(sink)
  {
    if Highest(seen) != 0 {
      var k :| 0 <= k < |seen| && seen[k] == Highest(seen);
    }
  }

  /** `used`: the control revisions at which a change was accepted. */
  ghost predicate FenceOk(f: FenceView, seen: seq<nat>, used: set<nat>) {
    && f.epoch == (if Closed(f.state) then 2 else 1)
    && 1 <= f.generation <= U64_MAX
    && f.readSensitivity == Highest(seen) && f.readCount <= |seen|
    && f.childCreations <= U64_MAX && (f.childLimit != 0 ==> f.childCreations <= f.childLimit)
    && forall g | g in used :: g < f.generation || (g == f.generation == U64_MAX && Closed(f.state))
  }

  /**
   * Control is linear: a change that is accepted finds its revision unused and uses it
   * up, at the saturated revision too, where only the final closing is accepted.
   */
  lemma MoveUsesRevision(f: FenceView, s: State, seen: seq<nat>, used: set<nat>)
    requires FenceOk(f, seen, used) && MoveError(f, s).None?
    ensures f.generation !in used
    ensures FenceOk(Moved(f, s), seen, used + {f.generation})
  {
  }

  lemma CheckedOk(f: FenceView, now: nat, seen: seq<nat>, used: set<nat>)
    requires FenceOk(f, seen, used)
    ensures MoveError(f, TimedOut).None? || Closed(f.state)
    ensures FenceOk(Checked(f, now), seen, if Expired(f, now) then used + {f.generation} else used)
    ensures Closed(f.state) ==> Checked(f, now) == f
  {
    if Expired(f, now) {
      MoveUsesRevision(f, TimedOut, seen, used);
    }
  }

  /** A closed fence stays as it is: no state, epoch or revision change is accepted. */
  lemma ClosedForGood(f: FenceView, now: nat, s: State)
    requires Closed(f.state)
    ensures Checked(f, now) == f && MoveError(f, s) == Some(EPERM) && Standing(f) == Some(EPERM)
  {
  }

  // ----- effects -----

  datatype Phase = Prepared | Dispatching | Committed | Restored | Unknown

  /** The one-way transition table; settled phases go nowhere. */
  predicate Allowed(p: Phase, q: Phase) {
    (p.Prepared? && q.Dispatching?) || (p.Dispatching? && (q.Committed? || q.Restored? || q.Unknown?))
  }

  datatype Effect = Effect(cell: nat, sink: Option<int>, phase: Phase, fence: Option<nat>, epoch: nat)

  /** How a fenced effect was let through: the fence, the time, and the reads so far. */
  datatype Dispatch = Dispatch(fence: FenceView, now: nat, seen: nat)

  /** What the ghost state remembers of a fence. */
  datatype Trail = Trail(seen: seq<nat>, used: set<nat>, born: nat)

  ghost predicate TrailOk(f: FenceView, t: Trail) {
    FenceOk(f, t.seen, t.used) && f.childCreations == t.born
  }

  /** The fence was running, unexpired, at the prepared epoch, and the sink cleared for all reads. */
  ghost predicate LetThrough(x: Effect, d: Dispatch, t: Trail) {
    && d.fence.state.Running? && !Expired(d.fence, d.now)
    && d.fence.epoch == x.epoch == 1
    && d.seen <= |t.seen| && 0 <= Clearance(x.sink)
    && forall k | 0 <= k < d.seen :: t.seen[k] <= Clearance(x.sink)
  }

  ghost predicate EffectOk(x: Effect, k: nat, trails: seq<Trail>, sent: map<nat, Dispatch>) {
    x.fence.Some? ==>
      && x.fence.value < |trails| && x.epoch == 1
      && (!x.phase.Prepared? ==> k in sent && LetThrough(x, sent[k], trails[x.fence.value]))
  }

  ghost predicate WorldOk(fences: seq<FenceView>, trails: seq<Trail>, effects: seq<Effect>, sent: map<nat, Dispatch>) {
    && |trails| == |fences| <= FENCE_MAX
    && (forall i | 0 <= i < |fences| :: TrailOk(fences[i], trails[i]))
    && (forall k | 0 <= k < |effects| :: EffectOk(effects[k], k, trails, sent))
  }

  /** How a fence may change in any step. */
  ghost predicate Evolves(f: FenceView, f': FenceView) {
    && (Closed(f.state) ==> f'.state == f.state && f'.epoch == f.epoch && f'.generation == f.generation
                            && f'.childCreations == f.childCreations && f'.childLimit == f.childLimit)
    && f.epoch <= f'.epoch && f.generation <= f'.generation
    && f.readSensitivity <= f'.readSensitivity && f.childCreations <= f'.childCreations
    && (f'.epoch != f.epoch <==> !Closed(f.state) && Closed(f'.state))
  }

  lemma EvolvesTransitive(f: FenceView, g: FenceView, h: FenceView)
    requires Evolves(f, g) && Evolves(g, h)
    ensures Evolves(f, h)
  {
  }

  ghost predicate AllEvolve(fences: seq<FenceView>, fences': seq<FenceView>) {
    |fences| <= |fences'| && forall i | 0 <= i < |fences| :: Evolves(fences[i], fences'[i])
  }

  /** What is remembered is never forgotten. */
  ghost predicate TrailsGrow(trails: seq<Trail>, trails': seq<Trail>) {
    |trails| <= |trails'| &&
    forall i | 0 <= i < |trails| ::
      trails[i].seen <= trails'[i].seen && trails[i].used <= trails'[i].used && trails[i].born <= trails'[i].born
  }

  lemma AllEvolveTransitive(a: seq<FenceView>, b: seq<FenceView>, c: seq<FenceView>)
    requires AllEvolve(a, b) && AllEvolve(b, c)
    ensures AllEvolve(a, c)
  {
    forall i | 0 <= i < |a| ensures Evolves(a[i], c[i]) {
      EvolvesTransitive(a[i], b[i], c[i]);
    }
  }

  /** The life of one fence: what each step of a run does to it. */
  ghost predicate Life(run: seq<FenceView>) {
    forall k | 0 <= k < |run| - 1 :: Evolves(run[k], run[k + 1])
  }

  lemma {:induction false} LifeEvolves(run: seq<FenceView>, a: nat, b: nat)
    requires Life(run) && a <= b < |run|
    ensures Evolves(run[a], run[b])
    decreases b - a
  {
    if a < b {
      LifeEvolves(run, a, b - 1);
      EvolvesTransitive(run[a], run[b - 1], run[b]);
    }
  }

  /** In a whole run a fence closes at most once, never reopens, and its epoch moves only then. */
  lemma ClosesOnce(run: seq<FenceView>, a: nat, b: nat)
    requires Life(run) && a <= b < |run| - 1 && Closed(run[a + 1].state)
    ensures run[b + 1].state == run[a + 1].state && run[b + 1].epoch == run[a + 1].epoch
    ensures run[b + 1].epoch != run[b].epoch ==> a == b
  {
    LifeEvolves(run, a + 1, b + 1);
    if a < b {
      LifeEvolves(run, a + 1, b);
    }
  }

  /** More reads after a dispatch do not change what it was allowed on. */
  lemma TrailGrows(effects: seq<Effect>, sent: map<nat, Dispatch>, trails: seq<Trail>, trails': seq<Trail>)
    requires |trails| <= |trails'|
    requires forall i | 0 <= i < |trails| :: trails[i].seen <= trails'[i].seen
    requires forall k | 0 <= k < |effects| :: EffectOk(effects[k], k, trails, sent)
    ensures forall k | 0 <= k < |effects| :: EffectOk(effects[k], k, trails', sent)
  {
    forall k | 0 <= k < |effects| ensures EffectOk(effects[k], k, trails', sent) {
      assert EffectOk(effects[k], k, trails, sent);
    }
  }

  lemma HighestAppend(seen: seq<nat>, x: nat)
    ensures Highest(seen + [x]) == if x > Highest(seen) then x else Highest(seen)
  {
    assert (seen + [x])[..|seen|] == seen;
  }

  /**
   * Safety of every run: an effect that ever left PREPARED under a fence was let through
   * while the fence was running and unexpired, at epoch 1, to a sink cleared for all the
   * reads made by then.
   */
  lemma DispatchedSafely(fences: seq<FenceView>, trails: seq<Trail>, effects: seq<Effect>, sent: map<nat, Dispatch>,
           k: nat)
    requires WorldOk(fences, trails, effects, sent) && k < |effects|
    requires effects[k].fence.Some? && !effects[k].phase.Prepared?
    ensures k in sent
    ensures var x, d := effects[k], sent[k];
            && x.fence.value < |trails|
            && d.fence.state.Running? && !Expired(d.fence, d.now) && d.fence.epoch == x.epoch
            && d.seen <= |trails[x.fence.value].seen|
            && Highest(trails[x.fence.value].seen[..d.seen]) <= Clearance(x.sink)
  {
    var x := effects[k];
    assert EffectOk(x, k, trails, sent);
    var part := trails[x.fence.value].seen[..sent[k].seen];
    if Highest(part) != 0 {
      var j :| 0 <= j < |part| && part[j] == Highest(part);
    }
  }

  class Fences {
    var fences: seq<FenceView>
    var bound: map<nat, nat>          // the fence of each cell that has one
    var effects: seq<Effect>
    ghost var trails: seq<Trail>
    ghost var sent: map<nat, Dispatch>
    ghost var log: seq<Entry>

    ghost predicate Valid()
      reads this
    {
      WorldOk(fences, trails, effects, sent) && LogOk(fences, log)
    }

    constructor ()
      ensures Valid() && fences == [] && bound == map[] && effects == [] && log == []
    {
      fences, bound, effects, trails, sent, log := [], map[], [], [], map[], [];
    }

    method Create(caller: bool) returns (r: Option<Error>)
      requires Valid()
      modifies `fences, `trails
      ensures Valid() && AllEvolve(old(fences), fences) && TrailsGrow(old(trails), trails)
      ensures r.None? <==> !caller && |old(fences)| < FENCE_MAX
      ensures fences == old(fences) + if r.None? then [FenceView(1, 1, Running, 0, 0, 0, 0, 0, 0)] else []
    {
      if caller {
        return Some(EPERM);
      }
      if |fences| == FENCE_MAX {
        return Some(EFULL);
      }
      TrailGrows(effects, sent, trails, trails + [Trail([], {}, 0)]);
      NotMentioned(log, |fences|);
      fences := fences + [FRESH];
      trails := trails + [Trail([], {}, 0)];
      r := None;
    }

    /** Put fence `i` in a new state, its trail following. */
    method Store(i: nat, f: FenceView, ghost t: Trail)
      requires Valid() && i < |fences| && TrailOk(f, t) && Evolves(fences[i], f)
      requires trails[i].seen <= t.seen && trails[i].used <= t.used && trails[i].born <= t.born
      requires f.state == fences[i].state || Legal(fences[i].state, f.state)
      modifies `fences, `trails, `log
      ensures Valid() && fences == old(fences)[i := f] && trails == old(trails)[i := t]
      ensures log == if f.state == old(fences)[i].state then old(log) else old(log) + [Moves(i, f.state)]
      ensures AllEvolve(old(fences), fences) && TrailsGrow(old(trails), trails)
    {
      TrailGrows(effects, sent, trails, trails[i := t]);
      if f.state != fences[i].state {
        LogAppend(fences, log, Moves(i, f.state), i, f);
        log := log + [Moves(i, f.state)];
      }
      fences := fences[i := f];
      trails := trails[i := t];
    }

    /** `state_check`: close the fence when its lease has expired, then report its standing. */
    method StateCheck(i: nat, now: nat) returns (r: Option<Error>)
      requires Valid() && i < |fences|
      modifies `fences, `trails, `log
      ensures Valid() && AllEvolve(old(fences), fences) && TrailsGrow(old(trails), trails)
      ensures fences == old(fences)[i := Checked(old(fences)[i], now)]
      ensures trails == old(trails)[i := trails[i]] && trails[i].seen == old(trails)[i].seen
      ensures r == Standing(fences[i])
      ensures r.None? ==> fences[i] == old(fences)[i] && fences[i].state.Running? && !Expired(fences[i], now)
      ensures r.None? <==> Passable(old(fences)[i], now)
      ensures r == Some(EBUSY) <==> fences[i].state.Held?
      ensures if Late(old(fences)[i], now)
              then MovedTo(old(fences)[i], fences[i], TimedOut) && log == old(log) + [Moves(i, TimedOut)]
              else fences == old(fences) && trails == old(trails) && log == old(log)
    {
      var f := fences[i];
      CheckMeaning(f, now);
      CheckMeaning(Checked(f, now), now);
      ghost var t := trails[i];
      CheckedOk(f, now, t.seen, t.used);
      Store(i, Checked(f, now), t.(used := if Expired(f, now) then t.used + {f.generation} else t.used));
      r := Standing(fences[i]);
    }

    /** `change_state` on fence `i`. */
    method ChangeState(i: nat, s: State) returns (r: Option<Error>)
      requires Valid() && i < |fences|
      modifies `fences, `trails, `log
      ensures Valid() && AllEvolve(old(fences), fences) && TrailsGrow(old(trails), trails)
      ensures r.None? <==> MayMove(old(fences)[i], s)
      ensures r.None? ==> MovedTo(old(fences)[i], fences[i], s) && log == old(log) + [Moves(i, s)]
      ensures r.Some? ==> log == old(log)
      ensures r == MoveError(old(fences)[i], s)
      ensures fences == if r.None? then old(fences)[i := Moved(old(fences)[i], s)] else old(fences)
      ensures r.None? ==> old(fences)[i].generation !in old(trails)[i].used
      ensures trails == old(trails)[i := trails[i]]
      ensures trails[i].used == if r.None? then old(trails)[i].used + {old(fences)[i].generation}
          else old(trails)[i].used
    {
      var f := fences[i];
      MoveMeaning(f, s);
      r := MoveError(f, s);
      if r.None? {
        MoveUsesRevision(f, s, trails[i].seen, trails[i].used);
        Store(i, Moved(f, s), trails[i].(used := trails[i].used + {f.generation}));
      }
    }

    /**
     * A controller's state change against an expected revision.  It is accepted only at
     * the current revision, which it uses up.
     */
    method Transition(i: nat, generation: nat, s: State, caller: bool, now: nat) returns (r: Option<Error>)
      requires Valid()
      modifies `fences, `trails, `log
      ensures Valid() && AllEvolve(old(fences), fences) && TrailsGrow(old(trails), trails)
      ensures r.None? <==>
          && !caller && generation != 0 && i < |old(fences)| && !Late(old(fences)[i], now)
          && old(fences)[i].generation == generation && MayMove(old(fences)[i], s)
      ensures r.None? ==>
          && fences == old(fences)[i := fences[i]] && MovedTo(old(fences)[i], fences[i], s)
          && log == old(log) + [Moves(i, s)]
          && generation !in old(trails)[i].used && generation in trails[i].used
      ensures r.Some? ==>
          fences == old(fences) || (i < |old(fences)| && fences == old(fences)[i := Checked(old(fences)[i], now)])
    {
      if caller {
        return Some(EPERM);
      }
      if generation == 0 {
        return Some(EINVAL);
      }
      if i >= |fences| {
        return Some(ENOENT);
      }
      CheckMeaning(fences[i], now);
      ghost var before := fences;
      var _ := StateCheck(i, now);
      if fences[i].generation != generation {
        return Some(EBUSY);
      }
      ghost var middle := fences;
      r := ChangeState(i, s);
      AllEvolveTransitive(before, middle, fences);
    }

    /** A finite child budget and an optional deadline, against an expected revision. */
    method SetLease(i: nat, generation: nat, childLimit: nat, expiresAt: nat, caller: bool, now: nat)
      returns (r: Option<Error>)
      requires Valid()
      modifies `fences, `trails, `log
      ensures Valid() && AllEvolve(old(fences), fences) && TrailsGrow(old(trails), trails)
      ensures r.None? <==>
          && !caller && generation != 0 && 1 <= childLimit <= CHILDREN_MAX && (expiresAt != 0 ==> expiresAt > now)
          && i < |old(fences)| && Passable(old(fences)[i], now)
          && old(fences)[i].generation == generation < U64_MAX && old(fences)[i].childCreations <= childLimit
      ensures r.None? ==>
          && fences == old(fences)[i := old(fences)[i].(childLimit := childLimit, expiresAt := expiresAt,
             generation := generation + 1)]
          && generation !in old(trails)[i].used && generation in trails[i].used
      ensures r.Some? ==>
          fences == old(fences) || (i < |old(fences)| && fences == old(fences)[i := Checked(old(fences)[i], now)])
    {
      if caller {
        return Some(EPERM);
      }
      if generation == 0 || childLimit == 0 || childLimit > CHILDREN_MAX || (expiresAt != 0 && expiresAt <= now) {
        return Some(EINVAL);
      }
      if i >= |fences| {
        return Some(ENOENT);
      }
      r := StateCheck(i, now);
      if r.Some? {
        return;
      }
      var f := fences[i];
      if f.generation != generation {
        return Some(EBUSY);
      }
      if childLimit < f.childCreations {
        return Some(EINVAL);
      }
      if f.generation == U64_MAX {
        return Some(EFULL);
      }
      assert fences == old(fences);
      ghost var t := trails[i];
      Store(i, f.(childLimit := childLimit, expiresAt := expiresAt, generation := f.generation + 1),
        t.(used := t.used + {f.generation}));
    }

    /** Create a child cell under its parent's fence; only a success is counted. */
    method CreateChild(parent: nat, creation: Option<Error>, now: nat) returns (r: Option<Error>)
      requires Valid()
      modifies `fences, `trails, `log
      ensures Valid() && AllEvolve(old(fences), fences) && TrailsGrow(old(trails), trails)
      ensures parent !in bound ==> r == creation && fences == old(fences)
      ensures parent in bound && bound[parent] < |old(fences)| ==>
          var i := bound[parent];
          var f := Checked(old(fences)[i], now);
          && (r.None? <==> Open(old(fences)[i].state) && !Late(old(fences)[i], now) && f.childCreations < U64_MAX
                           && (f.childLimit != 0 ==> f.childCreations < f.childLimit) && creation.None?)
          && fences == old(fences)[i := if r.None? then f.(childCreations := f.childCreations + 1) else f]
          && trails[i].born == old(trails)[i].born + if r.None? then 1 else 0
    {
      if parent !in bound {
        return creation;
      }
      var i := bound[parent];
      if i >= |fences| {
        return Some(ENOENT);
      }
      CheckMeaning(fences[i], now);
      ghost var before, trailsBefore := fences, trails;
      r := StateCheck(i, now);
      assert trails[i].born == trailsBefore[i].born by {
        assert TrailOk(fences[i], trails[i]) && TrailOk(before[i], trailsBefore[i]);
      }
      if r == Some(EBUSY) {
        r := None;
      }
      var f := fences[i];
      if r.None? && (f.childCreations == U64_MAX || (f.childLimit != 0 && f.childCreations >= f.childLimit)) {
        r := Some(EFULL);
      }
      if r.None? {
        r := creation;
        if r.None? {
          ghost var middle := fences;
          Store(i, f.(childCreations := f.childCreations + 1), trails[i].(born := trails[i].born + 1));
          AllEvolveTransitive(before, middle, fences);
        }
      }
    }

    /** A derived cell inherits its parent's fence, and with it every check and the watermark. */
    method Inherit(parent: nat, child: nat)
      requires Valid() && child !in bound
      modifies `bound
      ensures Valid()
      ensures bound == if parent in old(bound) then old(bound)[child := old(bound)[parent]] else old(bound)
    {
      if parent in bound {
        bound := bound[child := bound[parent]];
      }
    }

    /** A cell asks for its own fence to be held or cancelled. */
    method RequestState(cell: nat, s: State, refusal: Option<Error>, now: nat) returns (r: Option<Error>)
      requires Valid() && (s.Held? || s.Cancelled?)
      modifies `fences, `trails, `log
      ensures Valid() && AllEvolve(old(fences), fences) && TrailsGrow(old(trails), trails)
      ensures cell !in bound ==> (r.None? <==> s.Cancelled?)
      ensures cell !in bound || refusal.Some? || bound[cell] >= |old(fences)| ==> fences == old(fences)
      ensures cell in bound && refusal.Some? ==> r == refusal
      ensures cell in bound && refusal.None? ==>
          if bound[cell] >= |old(fences)| then r == Some(ENOENT)
          else
            var i := bound[cell];
            var f := Checked(old(fences)[i], now);
            if f.state == s || (s.Cancelled? && Closed(f.state)) then r.None? && fences == old(fences)[i := f]
            else r == MoveError(f, s) && fences == old(fences)[i := if r.None? then Moved(f, s) else f]
      ensures cell in bound && refusal.None? && bound[cell] < |old(fences)| ==>
          var i := bound[cell];
          var f := old(fences)[i];
          && (r.None? <==> (s.Held? ==> !Late(f, now) && (f.state.Held? || MayMove(f, Held))))
          && (r.None? ==> if s.Held? then fences[i].state.Held? else !Open(fences[i].state))
          && (r.None? && !Late(f, now) && MayMove(f, s) ==> MovedTo(f, fences[i], s) && log == old(log) + [Moves(i, s)])
    {
      if cell !in bound {
        return if s.Cancelled? then None else Some(ENOENT);
      }
      if refusal.Some? {
        return refusal;
      }
      var i := bound[cell];
      if i >= |fences| {
        return Some(ENOENT);
      }
      CheckMeaning(fences[i], now);
      ghost var before := fences;
      var _ := StateCheck(i, now);
      MoveMeaning(fences[i], s);
      if fences[i].state == s || (s.Cancelled? && Closed(fences[i].state)) {
        return None;
      }
      ghost var middle := fences;
      r := ChangeState(i, s);
      AllEvolveTransitive(before, middle, fences);
    }

    /** Every payload read by a bound cell raises the fence's watermark, closed or not. */
    method ObserveRead(cell: Option<nat>, oid: nat, sensitivity: int) returns (r: Option<Error>)
      requires Valid()
      modifies `fences, `trails, `log
      ensures Valid() && AllEvolve(old(fences), fences) && TrailsGrow(old(trails), trails)
      ensures r.None? <==> (cell.Some? && cell.value in bound ==>
          oid != 0 && 0 <= sensitivity <= RESTRICTED && bound[cell.value] < |old(fences)|)
      ensures cell.None? || cell.value !in bound ==> fences == old(fences) && trails == old(trails)
      ensures r.None? && cell.Some? && cell.value in bound ==>
          var i := bound[cell.value];
          && i < |fences| && i < |old(trails)| && i < |old(fences)|
          && fences == old(fences)[i := old(fences)[i].(readSensitivity := fences[i].readSensitivity,
                                                        readOrigin := fences[i].readOrigin,
                                                          readCount := fences[i].readCount)]
          && fences[i].readCount == (if old(fences)[i].readCount == U64_MAX then U64_MAX
             else old(fences)[i].readCount + 1)
          && (fences[i].readSensitivity == old(fences)[i].readSensitivity ==>
             fences[i].readOrigin == old(fences)[i].readOrigin)
          && trails[i].seen == old(trails)[i].seen + [sensitivity]
          && fences[i].readSensitivity == Highest(trails[i].seen)
          && (fences[i].readSensitivity != old(fences)[i].readSensitivity ==> fences[i].readOrigin == oid)
      ensures r.Some? ==> fences == old(fences) && trails == old(trails)
    {
      if cell.None? || cell.value !in bound {
        return None;
      }
      if oid == 0 || sensitivity < 0 || sensitivity > RESTRICTED {
        return Some(EINVAL);
      }
      var i := bound[cell.value];
      if i >= |fences| {
        return Some(ENOENT);
      }
      var f := fences[i];
      ghost var t := trails[i];
      HighestAppend(t.seen, sensitivity);
      if sensitivity > f.readSensitivity {
        f := f.(readSensitivity := sensitivity, readOrigin := oid);
      }
      if f.readCount != U64_MAX {
        f := f.(readCount := f.readCount + 1);
      }
      Store(i, f, t.(seen := t.seen + [sensitivity]));
      r := None;
    }

    /** The clearance check of `effect_check_authority`, under the lock for itself. */
    method CheckSink(cell: nat, sink: Option<int>) returns (r: Option<Error>)
      requires Valid()
      ensures r == if cell !in bound then None
                   else if bound[cell] >= |fences| then Some(ENOENT)
                   else SinkError(fences[bound[cell]], sink)
      ensures cell in bound && bound[cell] < |fences| ==> (r.None? <==> Cleared(sink, trails[bound[cell]].seen))
    {
      if cell !in bound {
        return None;
      }
      if bound[cell] >= |fences| {
        return Some(ENOENT);
      }
      r := SinkError(fences[bound[cell]], sink);
      assert TrailOk(fences[bound[cell]], trails[bound[cell]]);
      SinkMeaning(fences[bound[cell]], sink, trails[bound[cell]].seen);
    }

    /** `anx_effect_fence_check`: the cell's fence, its epoch and its standing, in one locked step. */
    method FenceCheck(cell: nat, now: nat) returns (r: Option<Error>, fence: Option<nat>, epoch: nat)
      requires Valid()
      modifies `fences, `trails, `log
      ensures Valid() && AllEvolve(old(fences), fences) && TrailsGrow(old(trails), trails)
      ensures cell !in bound ==> r.None? && fence.None? && epoch == 0 && fences == old(fences) && log == old(log)
      ensures cell in bound ==>
          (r.None? <==> bound[cell] < |old(fences)| && Passable(old(fences)[bound[cell]], now))
      ensures cell in bound && r.None? ==> log == old(log) + [Admits(bound[cell])] && trails == old(trails)
      ensures cell in bound && r.None? ==>
          fence == Some(bound[cell]) && epoch == fences[bound[cell]].epoch == 1 && fences == old(fences)
    {
      r, fence, epoch := None, None, 0;
      if cell in bound {
        var i := bound[cell];
        if i >= |fences| {
          return Some(ENOENT), None, 0;
        }
        fence, epoch := Some(i), fences[i].epoch;
        r := StateCheck(i, now);
        assert TrailOk(fences[i], trails[i]);
        if r.None? {
          LogAppend(fences, log, Admits(i), i, fences[i]);
          assert fences[i := fences[i]] == fences;
          log := log + [Admits(i)];
        }
      }
    }

    /** The effect comes into being with the fence and the epoch found by `FenceCheck`, however long ago. */
    method Record(cell: nat, sink: Option<int>, fence: Option<nat>, epoch: nat, memory: bool)
      returns (r: Option<Error>, k: nat)
      requires Valid() && (fence.Some? ==> fence.value < |fences| && epoch == 1)
      modifies `effects
      ensures Valid() && k == |old(effects)| && (r.None? <==> memory)
      ensures effects == if r.None? then old(effects) + [Effect(cell, sink, Prepared, fence, epoch)] else old(effects)
    {
      k := |effects|;
      if !memory {
        return Some(ENOMEM), k;
      }
      effects := effects + [Effect(cell, sink, Prepared, fence, epoch)];
      r := None;
    }

    /** `anx_effect_prepare` when nothing comes between its steps. */
    method Prepare(cell: nat, sink: Option<int>, authority: Option<Error>, memory: bool, now: nat)
      returns (r: Option<Error>, k: nat)
      requires Valid()
      modifies `fences, `trails, `effects, `log
      ensures Valid() && AllEvolve(old(fences), fences) && TrailsGrow(old(trails), trails)
      ensures r.None? <==>
          && authority.None? && memory
          && (cell in bound ==>
             && bound[cell] < |old(fences)| && Cleared(sink, old(trails)[bound[cell]].seen)
             && Passable(old(fences)[bound[cell]], now))
      ensures r.None? && cell in bound ==> log == old(log) + [Admits(bound[cell])]
      ensures r.Some? ==> effects == old(effects)
      ensures r.None? ==>
          && fences == old(fences) && k == |old(effects)|
          && var x := if cell in bound then Effect(cell, sink, Prepared, Some(bound[cell]), fences[bound[cell]].epoch)
                      else Effect(cell, sink, Prepared, None, 0);
          effects == old(effects) + [x]
    {
      k := |effects|;
      if authority.Some? {
        return authority, k;
      }
      r := CheckSink(cell, sink);
      if r.Some? {
        return;
      }
      var fence, epoch;
      r, fence, epoch := FenceCheck(cell, now);
      if r.Some? {
        return;
      }
      r, k := Record(cell, sink, fence, epoch, memory);
    }

    /** What a fence asks of an effect at dispatch, in one locked step. */
    method Gate(i: nat, sink: Option<int>, epoch: nat, now: nat) returns (r: Option<Error>)
      requires Valid() && i < |fences|
      modifies `fences, `trails, `log
      ensures Valid() && AllEvolve(old(fences), fences) && TrailsGrow(old(trails), trails)
      ensures r.None? <==>
          && old(fences)[i].epoch == epoch && Passable(old(fences)[i], now) && Cleared(sink, old(trails)[i].seen)
      ensures r.None? ==>
          && fences == old(fences) && trails == old(trails) && log == old(log) + [Admits(i)]
          && 0 <= Clearance(sink) && Highest(trails[i].seen) <= Clearance(sink)
          && forall k | 0 <= k < |trails[i].seen| :: trails[i].seen[k] <= Clearance(sink)
    {
      hide LogOk, SinkError, Cleared, MovedTo, Late;
      if fences[i].epoch != epoch {
        return Some(EPERM);
      }
      r := StateCheck(i, now);
      if r.Some? {
        return;
      }
      r := SinkError(fences[i], sink);
      assert TrailOk(fences[i], trails[i]);
      SinkMeaning(fences[i], sink, trails[i].seen);
      if r.Some? {
        return;
      }
      LogAppend(fences, log, Admits(i), i, fences[i]);
      assert fences[i := fences[i]] == fences;
      log := log + [Admits(i)];
    }

    /**
     * The gate: PREPARED to DISPATCHING, only through a running, unexpired fence at the
     * prepared epoch, and only to a sink cleared for every read made under it so far.
     */
    method DispatchEffect(k: nat, authority: Option<Error>, now: nat) returns (r: Option<Error>)
      requires Valid() && k < |effects|
      modifies `fences, `trails, `effects, `sent, `log
      ensures Valid() && AllEvolve(old(fences), fences) && TrailsGrow(old(trails), trails)
      ensures effects == if r.None? then old(effects)[k := old(effects)[k].(phase := Dispatching)] else old(effects)
      ensures var x := old(effects)[k];
          r.None? <==>
            && x.phase.Prepared? && authority.None?
               && x.fence == (if x.cell in bound then Some(bound[x.cell]) else None)
            && (x.fence.None? ==> x.epoch == 0)
            && (x.fence.Some? ==>
                  && x.fence.value < |old(fences)|
                  && var f := old(fences)[x.fence.value];
                  f.epoch == x.epoch && Passable(f, now) && Cleared(x.sink, old(trails)[x.fence.value].seen))
      ensures r.None? ==>
          && fences == old(fences) && trails == old(trails)
          && log == old(log) + if effects[k].fence.Some? then [Admits(effects[k].fence.value)] else []
      ensures forall j | j in old(sent) && j != k :: j in sent && sent[j] == old(sent)[j]
      ensures r.None? && effects[k].fence.Some? ==>
          var i := effects[k].fence.value;
          && i < |fences| && fences[i].state.Running? && !Expired(fences[i], now) && fences[i].epoch == effects[k].epoch
          && sent[k] == Dispatch(fences[i], now, |trails[i].seen|)
          && Highest(trails[i].seen) <= Clearance(effects[k].sink)
    {
      hide LogOk, Cleared;
      var x := effects[k];
      if !x.phase.Prepared? {
        return Some(EINVAL);
      }
      if authority.Some? {
        return authority;
      }
      if (if x.cell in bound then Some(bound[x.cell]) else None) != x.fence {
        return Some(EPERM);
      }
      if x.fence.None? {
        if x.epoch != 0 {
          return Some(EPERM);
        }
      } else {
        var i := x.fence.value;
        assert EffectOk(x, k, trails, sent);
        r := Gate(i, x.sink, x.epoch, now);
        if r.Some? {
          return;
        }
        sent := sent[k := Dispatch(fences[i], now, |trails[i].seen|)];
      }
      effects := effects[k := x.(phase := Dispatching)];
      r := None;
    }

    /** Commit, restore or mark unknown: only from DISPATCHING, and only once. */
    method Settle(k: nat, p: Phase) returns (r: Option<Error>)
      requires Valid() && k < |effects| && (p.Committed? || p.Restored? || p.Unknown?)
      modifies `effects
      ensures Valid()
      ensures r.None? <==> old(effects)[k].phase.Dispatching?
      ensures effects == if r.None? then old(effects)[k := old(effects)[k].(phase := p)] else old(effects)
    {
      if !Allowed(effects[k].phase, p) {
        return Some(EINVAL);
      }
      assert EffectOk(effects[k], k, trails, sent);
      effects := effects[k := effects[k].(phase := p)];
      r := None;
    }

    /** Bind a fresh root cell to a fence, once. */
    method Bind(cell: nat, i: nat, caller: bool, now: nat, refusal: Option<Error>) returns (r: Option<Error>)
      requires Valid()
      modifies `fences, `trails, `log, `bound
      ensures Valid() && AllEvolve(old(fences), fences) && TrailsGrow(old(trails), trails)
      ensures r.None? <==> !caller && i < |old(fences)| && refusal.None? && cell !in old(bound)
      ensures fences == if !caller && i < |old(fences)| then old(fences)[i := Checked(old(fences)[i], now)]
          else old(fences)
      ensures r.None? ==> bound == old(bound)[cell := i]
      ensures r.Some? ==> bound == old(bound)
    {
      if caller {
        return Some(EPERM);
      }
      if i >= |fences| {
        return Some(ENOENT);
      }
      var _ := StateCheck(i, now);
      if refusal.Some? {
        return refusal;
      }
      if cell in bound {
        return Some(EBUSY);
      }
      bound := bound[cell := i];
      r := None;
    }
  }
}
