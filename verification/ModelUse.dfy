/**
 * Recorded uses of a model: kernel/core/anxml/model_use.c.  A use is READY, BUSY while
 * its generation runs unlocked, then COMPLETED; a completed use can lend its output to
 * an identical one.  The object store, the owner's standing and the resource view are
 * parameters of each step; a read of a source is one step.
 */
module ModelUse {
  import opened Results
  import opened Anxml

  const USE_MAX: nat := 16
  const SEQUENCE_MAX: nat := 0xFFFF_FFFF_FFFF_FFFF

  datatype State = Ready | Busy | Completed
  datatype Source = Source(oid: nat, version: nat, size: nat, sensitivity: nat, digest: Hash)

  datatype Use = Use(id: nat, epoch: nat, reusedFrom: nat, owner: nat, parent: nat, identity: nat, image: Source,
      prompt: Source, state: State, maxTokens: nat, seed: bv32, requestDigest: Hash,
                     tokens: nat, outputSize: nat, outputDigest: Hash, consumedDigest: Hash, response: Response)

  /** A sealed object as a reader finds it: refused, an image, or bytes. */
  datatype Payload = ImageBytes(image: Image) | Plain(bytes: seq<nat>)
  datatype Object = Refused(error: Error) | Sealed(version: nat, size: nat, sensitivity: nat, payload: Payload)
  type Objects = map<nat, Object>

  /**
   * The owner's standing: whether it is terminal or replaced, its parent, the scope, contract, domain
   * and identity checks, and its token ceiling.
   */
  datatype Owner = Owner(gone: bool, parent: nat, refusal: Option<Error>, identity: nat, ceiling: nat)

  /** A resource view named by the caller: refused, or an owner's bytes. */
  datatype View = NoView(error: Error) | ViewOf(viewer: nat, bytes: Image)

  /** Some object refuses its reader with this error. */
  ghost predicate Refusing(objects: Objects, e: Error) {
    exists o :: o in objects && objects[o] == Refused(e)
  }

  const NO_RESPONSE: Response := Response([], 0)

  function DigestOf(p: Payload): Hash {
    match p
    case ImageBytes(m) => OfImage(m)
    case Plain(b) => OfBytes(b)
  }

  /** `source_read`: the payload, if the object is readable and still the one recorded. */
  function ReadSource(objects: Objects, s: Source, model: bool, capture: bool): Result<(Source, Payload)> {
    if s.oid !in objects then Err(ENOENT)
    else match objects[s.oid]
      case Refused(error) => Err(error)
      case Sealed(version, size, sensitivity, payload) =>
        if payload.ImageBytes? != model || (payload.ImageBytes? && |payload.image.deltas| != DELTA_MAX)
           || (payload.Plain? && (size != |payload.bytes| || size == 0 || size > PROMPT_MAX)) then Err(EINVAL)
        else
          var now := Source(s.oid, version, size, sensitivity, DigestOf(payload));
          if !capture && now != s then Err(EBUSY) else Ok((now, payload))
  }

  /** A sealed object with a valid image, and one with the bytes of a prompt. */
  ghost predicate HoldsImage(objects: Objects, oid: nat) {
    && oid in objects && objects[oid].Sealed? && objects[oid].payload.ImageBytes?
    && |objects[oid].payload.image.deltas| == 16 && ValidImage(objects[oid].payload.image)
  }

  ghost predicate HoldsPrompt(objects: Objects, oid: nat) {
    && oid in objects && objects[oid].Sealed? && objects[oid].payload.Plain?
    && 1 <= |objects[oid].payload.bytes| == objects[oid].size <= 1024
  }

  /** `owner_check`. */
  function OwnerCheck(o: Owner, parent: nat, identity: nat, maxTokens: nat, capture: bool): Option<Error> {
    if o.gone || o.parent != parent then Some(EPERM)
    else if o.refusal.Some? then o.refusal
    else if !capture && o.identity != identity then Some(EBUSY)
    else if o.ceiling != 0 && maxTokens > o.ceiling then Some(EPERM)
    else None
  }

  datatype Material = Material(image: Image, request: Request)

  /** Both sources can still be read and are the ones recorded. */
  predicate Intact(u: Use, objects: Objects) {
    ReadSource(objects, u.image, true, false).Ok? && ReadSource(objects, u.prompt, false, false).Ok?
  }

  /** `materialize` with the recorded sources: what the use was prepared from, or an error. */
  method Materialize(u: Use, objects: Objects) returns (r: Result<Material>)
    requires Recorded(u)
    ensures r.Ok? <==> Unchanged(u, objects)
    ensures r.Ok? ==> r.value == Material(u.image.digest.image, RequestOf(u))
    ensures r.Err? && r.error == EIO ==> Refusing(objects, EIO)
  {
    IntactMeaning(u, objects);
    var a := ReadSource(objects, u.image, true, false);
    if a.Err? {
      return Err(a.error);
    }
    var ok := ImageCheck(a.value.1.image);
    if !ok {
      return Err(EINVAL);
    }
    var b := ReadSource(objects, u.prompt, false, false);
    if b.Err? {
      return Err(b.error);
    }
    var request := Request(false, b.value.1.bytes, u.maxTokens, u.seed);
    if OfRequest(request.prompt, request.maxTokens, request.seed) != u.requestDigest {
      return Err(EBUSY);
    }
    r := Ok(Material(a.value.1.image, request));
  }

  // ----- what every record keeps -----

  /** The digests are those of a valid image, a prompt, and the request they make. */
  ghost predicate Recorded(u: Use) {
    && u.image.digest.OfImage? && ValidImage(u.image.digest.image)
    && u.prompt.digest.OfBytes? && 0 < |u.prompt.digest.bytes| == u.prompt.size <= PROMPT_MAX
    && 1 <= u.maxTokens <= 128
    && u.requestDigest == OfRequest(u.prompt.digest.bytes, u.maxTokens, u.seed)
  }

  function RequestOf(u: Use): Request
    requires u.prompt.digest.OfBytes?
  {
    Request(false, u.prompt.digest.bytes, u.maxTokens, u.seed)
  }

  /** Both sources are in the store as they were recorded, to the byte. */
  ghost predicate Unchanged(u: Use, objects: Objects)
    requires Recorded(u)
  {
    && u.image.oid in objects && u.prompt.oid in objects
    && objects[u.image.oid] ==
       Sealed(u.image.version, u.image.size, u.image.sensitivity, ImageBytes(u.image.digest.image))
    && objects[u.prompt.oid] ==
       Sealed(u.prompt.version, u.prompt.size, u.prompt.sensitivity, Plain(u.prompt.digest.bytes))
  }

  lemma IntactMeaning(u: Use, objects: Objects)
    requires Recorded(u)
    ensures Intact(u, objects) <==> Unchanged(u, objects)
  {
  }

  /** The owner is the one recorded, not terminal, admitted under the recorded identity and allowed the tokens. */
  ghost predicate InOrder(o: Owner, u: Use) {
    && !o.gone && o.parent == u.parent && o.refusal.None? && o.identity == u.identity
    && (o.ceiling == 0 || u.maxTokens <= o.ceiling)
  }

  lemma OwnerMeaning(o: Owner, u: Use)
    ensures OwnerCheck(o, u.parent, u.identity, u.maxTokens, false).None? <==> InOrder(o, u)
  {
  }

  /** The output the generator gives for the recorded image, prompt, token limit and seed. */
  ghost function Expected(u: Use): (out: seq<nat>)
    requires Recorded(u)
  {
    var m := u.image.digest.image;
    Output(u.prompt.digest.bytes, u.maxTokens, u.seed, m.deltas[..m.count])
  }

  /** A completed use holds exactly that output; any other use exposes nothing. */
  ghost predicate UseOk(u: Use) {
    && Recorded(u) && u.epoch == (if u.state.Completed? then 2 else 1)
    && (!u.state.Completed? ==>
          u.response == NO_RESPONSE && u.outputSize == 0 && u.tokens == 0 && u.reusedFrom == 0)
    && (u.state.Completed? ==>
          && u.response.output == Expected(u) && u.outputSize == |Expected(u)|
          && u.outputDigest == OfBytes(Expected(u)) && u.consumedDigest == u.image.digest
          && u.tokens == u.response.tokens && u.tokens == (if u.reusedFrom == 0 then |Expected(u)| else 0))
  }

  /** Something is always generated, so an output is never empty. */
  lemma OutputNotEmpty(prompt: seq<nat>, budget: nat, seed: bv32, deltas: seq<Delta>)
    requires budget > 0
    ensures |Output(prompt, budget, seed, deltas)| > 0
  {
    hide Sample, Row, Shown;
  }

  /** `anx_model_use_same_request`. */
  predicate SameRequest(a: Use, b: Use) {
    && a.owner == b.owner && a.identity == b.identity && a.maxTokens == b.maxTokens && a.seed == b.seed
    && a.image == b.image && a.prompt == b.prompt && a.requestDigest == b.requestDigest
  }

  /** `response_check`. */
  predicate ResponseOk(u: Use) {
    && 0 < |u.response.output| < OUTPUT_MAX && |u.response.output| == u.outputSize
    && OfBytes(u.response.output) == u.outputDigest
  }

  /** The integrity check of a stored response never fails. */
  lemma CompletedResponseOk(u: Use)
    requires UseOk(u) && u.state.Completed?
    ensures ResponseOk(u)
  {
    var m := u.image.digest.image;
    OutputNotEmpty(u.prompt.digest.bytes, u.maxTokens, u.seed, m.deltas[..m.count]);
  }

  /** Reuse equals execution: what an identical completed use holds is what running would give. */
  lemma ReuseEqualsExecution(u: Use, s: Use)
    requires UseOk(u) && UseOk(s) && s.state.Completed? && SameRequest(u, s)
    ensures s.response.output == Expected(u) && s.outputDigest == OfBytes(Expected(u))
    ensures s.consumedDigest == u.image.digest
  {
  }

  /** A verified run of a recorded use, when it succeeds, gives the expected output. */
  lemma VerifiedRun(u: Use, image: Image, e: Envelope)
    requires Recorded(u) && |image.deltas| == DELTA_MAX
    ensures var g := Generated(RequestOf(u), Some(image), Some(u.image.digest), e);
            g.Ok? ==> g.value == Response(Expected(u), |Expected(u)|)
  {
  }

  /** The image a run uses: the recorded one, or the caller's view of it. */
  ghost function Chosen(u: Use, view: Option<View>): Option<Image>
    requires Recorded(u)
  {
    if view.None? then Some(u.image.digest.image)
    else if view.value.ViewOf? && view.value.viewer == u.owner && |view.value.bytes.deltas| == DELTA_MAX
    then Some(view.value.bytes)
    else None
  }

  /**
   * When a run succeeds: the sources are unchanged before and after, a view named by the caller is the
   * owner's and shows the recorded image, the token limit is within the caller's, and the owner is in order.
   */
  ghost predicate Runs(u: Use, before: Objects, view: Option<View>, envelope: Envelope, owner: Owner, after: Objects)
    requires Recorded(u)
  {
    && Unchanged(u, before) && Unchanged(u, after) && InOrder(owner, u)
    && (view.None? || view.value == ViewOf(u.owner, u.image.digest.image))
    && envelope.Ceiling? && (envelope.tokens == 0 || u.maxTokens <= envelope.tokens)
  }

  lemma RunMeaning(u: Use, view: Option<View>, envelope: Envelope)
    requires Recorded(u)
    ensures (Chosen(u, view).Some?
             && Generated(RequestOf(u), Chosen(u, view), Some(u.image.digest), envelope).Ok?) <==>
            && (view.None? || view.value == ViewOf(u.owner, u.image.digest.image))
            && envelope.Ceiling? && (envelope.tokens == 0 || u.maxTokens <= envelope.tokens)
  {
    hide Generated, Answers;
    if Chosen(u, view).Some? {
      GeneratedMeaning(RequestOf(u), Chosen(u, view), Some(u.image.digest), envelope);
    }
  }

  function CompletedWith(u: Use, r: Response): Use {
    u.(state := Completed, epoch := u.epoch + 1, outputSize := |r.output|, tokens := r.tokens,
       consumedDigest := u.image.digest, outputDigest := OfBytes(r.output), response := r)
  }

  function LentBy(u: Use, s: Use): Use {
    u.(state := Completed, epoch := u.epoch + 1, reusedFrom := s.id, outputSize := s.outputSize, tokens := 0,
       consumedDigest := s.consumedDigest, outputDigest := s.outputDigest, response := s.response.(tokens := 0))
  }

  lemma CompletedUseOk(u: Use)
    requires UseOk(u) && !u.state.Completed?
    ensures UseOk(CompletedWith(u, Response(Expected(u), |Expected(u)|)))
    ensures UseOk(u.(state := Ready)) && UseOk(u.(state := Busy))
  {
    hide Output, ValidImage;
  }

  lemma LentUseOk(u: Use, s: Use)
    requires UseOk(u) && UseOk(s) && u.state.Ready? && s.state.Completed? && SameRequest(u, s) && s.id != 0
    ensures UseOk(LentBy(u, s))
    ensures var out := Expected(u);
            LentBy(u, s) == u.(state := Completed, epoch := 2, reusedFrom := s.id, outputSize := |out|, tokens := 0,
                               consumedDigest := u.image.digest, outputDigest := OfBytes(out),
                               response := Response(out, 0))
  {
    ReuseEqualsExecution(u, s);
    hide Output, ValidImage;
  }

  /** A table of uses, each under its own number, the busy ones listed. */
  ghost predicate TableOk(records: map<nat, Use>, sequence: nat, running: set<nat>) {
    && |records| <= USE_MAX && sequence <= SEQUENCE_MAX
    && (forall id | id in records :: 0 < id <= sequence && records[id].id == id && UseOk(records[id]))
    && (forall id :: id in running <==> id in records && records[id].state.Busy?)
  }

  /** Replacing one record by another with the same number. */
  lemma Replace(records: map<nat, Use>, sequence: nat, running: set<nat>, u: Use)
    requires TableOk(records, sequence, running) && u.id in records && UseOk(u)
    ensures TableOk(records[u.id := u], sequence, if u.state.Busy? then running + {u.id} else running - {u.id})
  {
    hide UseOk;
    assert records[u.id := u].Keys == records.Keys;
    assert |records[u.id := u].Keys| == |records.Keys|;
  }

  lemma Add(records: map<nat, Use>, sequence: nat, running: set<nat>, u: Use)
    requires TableOk(records, sequence, running) && |records| < USE_MAX && sequence < SEQUENCE_MAX
    requires u.id == sequence + 1 && UseOk(u) && !u.state.Busy?
    ensures TableOk(records[u.id := u], sequence + 1, running) && u.id !in records
  {
    hide UseOk;
    assert u.id !in records;
    assert records[u.id := u].Keys == records.Keys + {u.id};
    assert |records[u.id := u].Keys| == |records.Keys| + 1;
  }

  class Uses {
    const generator: Generator
    var records: map<nat, Use>
    var sequence: nat
    ghost var running: set<nat>   // uses between the two locked halves of execute

    ghost predicate Valid()
      reads this
    {
      generator.Valid() && TableOk(records, sequence, running)
    }

    constructor ()
      ensures Valid() && records == map[] && fresh(generator) && fresh(generator.bigram)
    {
      generator := new Generator();
      records, sequence, running := map[], 0, {};
    }

    /** `access`: the exact owner, or the controller. */
    method Access(id: nat, caller: Option<nat>) returns (r: Option<Error>)
      ensures r.None? <==> id in records && (caller.Some? ==> caller.value == records[id].owner)
      ensures r.Some? ==> r.value == ENOENT || r.value == EPERM
    {
      if id !in records {
        return Some(ENOENT);
      }
      if caller.Some? && caller.value != records[id].owner {
        return Some(EPERM);
      }
      r := None;
    }

    /** The first locked half of `execute`: a ready use becomes busy. */
    method Begin(id: nat, epoch: nat, caller: Option<nat>, owner: Owner) returns (r: Option<Error>)
      requires Valid()
      modifies `records, `running
      ensures Valid()
      ensures r.None? <==>
          && id in old(records) && id != 0 && (caller.Some? ==> caller.value == old(records)[id].owner)
          && old(records)[id].epoch == epoch && old(records)[id].state.Ready?
          && InOrder(owner, old(records)[id])
      ensures records == if r.None? then old(records)[id := old(records)[id].(state := Busy)] else old(records)
      ensures running == if r.None? then old(running) + {id} else old(running)
    {
      hide Output, ValidImage, Expected;
      if id == 0 || epoch == 0 {
        return Some(EINVAL);
      }
      var denied := Access(id, caller);
      if denied.Some? {
        return denied;
      }
      var u := records[id];
      if u.epoch != epoch || !u.state.Ready? {
        return Some(EBUSY);
      }
      OwnerMeaning(owner, u);
      r := OwnerCheck(owner, u.parent, u.identity, u.maxTokens, false);
      if r.Some? {
        return;
      }
      CompletedUseOk(u);
      Replace(records, sequence, running, u.(state := Busy));
      records := records[id := u.(state := Busy)];
      running := running + {id};
    }

    /** The unlocked middle of `execute`: read, run the checked image, and check everything again. */
    method Run(u: Use, memory: bool, before: Objects, view: Option<View>, envelope: Envelope, owner: Owner,
        after: Objects)
      returns (r: Result<Response>)
      requires generator.Valid() && Recorded(u)
      modifies generator.bigram
      ensures r.Ok? <==> memory && Runs(u, before, view, envelope, owner, after)
      ensures r.Ok? ==> r.value == Response(Expected(u), |Expected(u)|)
    {
      RunMeaning(u, view, envelope);
      OwnerMeaning(owner, u);
      hide Unchanged, Generated, Expected, InOrder, OwnerCheck, Answers, Answerable;
      if !memory {
        return Err(ENOMEM);
      }
      var m := Materialize(u, before);
      if m.Err? {
        return Err(m.error);
      }
      var image := m.value.image;
      if view.Some? {
        match view.value {
          case NoView(error) => return Err(error);
          case ViewOf(viewer, bytes) =>
            if viewer != u.owner || |bytes.deltas| != DELTA_MAX {
              return Err(EPERM);
            }
            image := bytes;
        }
      }
      VerifiedRun(u, image, envelope);
      var g := generator.Generate(m.value.request, Some(image), Some(u.image.digest), envelope);
      if g.Err? {
        return Err(g.error);
      }
      var refused := OwnerCheck(owner, u.parent, u.identity, u.maxTokens, false);
      if refused.Some? {
        return Err(refused.value);
      }
      var again := Materialize(u, after);
      if again.Err? {
        return Err(again.error);
      }
      r := Ok(g.value);
    }

    /**
     * The rest of `execute` for a busy use.  The record is still there, since nothing
     * destroys a busy use.  It ends completed with the generator's output, or ready
     * again, exactly as it was before it began.
     */
    method Finish(id: nat, memory: bool, before: Objects, view: Option<View>, envelope: Envelope, owner: Owner,
        after: Objects)
      returns (r: Result<Response>)
      requires Valid() && id in running
      modifies `records, `running, generator.bigram
      ensures Valid() && id in old(records) && running == old(running) - {id}
      ensures r.Ok? <==> memory && Runs(old(records)[id], before, view, envelope, owner, after)
      ensures r.Ok? ==> r.value == Response(Expected(old(records)[id]), |Expected(old(records)[id])|)
      ensures r.Ok? ==>
          var u, out := old(records)[id], r.value.output;
          records == old(records)[id := u.(state := Completed, epoch := 2, outputSize := |out|, tokens := |out|,
            consumedDigest := u.image.digest, outputDigest := OfBytes(out), response := r.value)]
      ensures r.Err? ==> records == old(records)[id := old(records)[id].(state := Ready)]
      ensures owner.gone || owner.parent != old(records)[id].parent ==> r.Err?
    {
      var u := records[id];
      assert UseOk(u) && u.epoch == 1;
      hide Output, ValidImage, Expected, Runs;
      CompletedUseOk(u);
      r := Run(u, memory, before, view, envelope, owner, after);
      if r.Ok? {
        Replace(records, sequence, running, CompletedWith(u, r.value));
        records := records[id := CompletedWith(u, r.value)];
      } else {
        Replace(records, sequence, running, u.(state := Ready));
        records := records[id := u.(state := Ready)];
      }
      running := running - {id};
    }

    /** Record a use of two sealed sources, with their digests. */
    method Prepare(owner: nat, image: nat, prompt: nat, maxTokens: nat, seed: bv32, caller: Option<nat>, memory: bool,
                   standing: Option<Owner>, objects: Objects) returns (r: Result<Use>)
      requires Valid()
      modifies `records, `sequence
      ensures Valid()
      ensures r.Err? ==> records == old(records) && sequence == old(sequence)
      ensures r.Ok? <==>
          && caller.None? && 1 <= maxTokens <= 128 && image != 0 && prompt != 0 && memory
          && standing.Some? && !standing.value.gone && standing.value.refusal.None?
          && (standing.value.ceiling == 0 || maxTokens <= standing.value.ceiling)
          && HoldsImage(objects, image) && HoldsPrompt(objects, prompt)
          && |old(records)| < USE_MAX && old(sequence) < SEQUENCE_MAX
      ensures r.Ok? ==>
          && sequence == old(sequence) + 1 && r.value.id == sequence && sequence !in old(records)
          && records == old(records)[sequence := r.value] && r.value.state.Ready?
          && r.value.owner == owner && r.value.parent == standing.value.parent && r.value.maxTokens == maxTokens
          && r.value.seed == seed && r.value.identity == standing.value.identity
          && r.value.image.oid == image && r.value.prompt.oid == prompt && Recorded(r.value)
          && Unchanged(r.value, objects) && InOrder(standing.value, r.value)
    {
      hide Output, ValidImage, Expected;
      if caller.Some? {
        return Err(EPERM);
      }
      if maxTokens == 0 || maxTokens > 128 || image == 0 || prompt == 0 {
        return Err(EINVAL);
      }
      if !memory {
        return Err(ENOMEM);
      }
      if standing.None? {
        return Err(ENOENT);
      }
      var refused := OwnerCheck(standing.value, standing.value.parent, 0, maxTokens, true);
      if refused.Some? {
        return Err(refused.value);
      }
      var blank := OfBytes([]);
      var a := ReadSource(objects, Source(image, 0, 0, 0, blank), true, true);
      if a.Err? {
        return Err(a.error);
      }
      var ok := ImageCheck(a.value.1.image);
      if !ok {
        return Err(EINVAL);
      }
      var b := ReadSource(objects, Source(prompt, 0, 0, 0, blank), false, true);
      if b.Err? {
        return Err(b.error);
      }
      if |records| == USE_MAX || sequence == SEQUENCE_MAX {
        return Err(EFULL);
      }
      sequence := sequence + 1;
      var u := Use(sequence, 1, 0, owner, standing.value.parent, standing.value.identity, a.value.0, b.value.0, Ready,
        maxTokens, seed, OfRequest(b.value.1.bytes, maxTokens, seed), 0, 0, blank, blank, NO_RESPONSE);
      Add(records, sequence - 1, running, u);
      records := records[sequence := u];
      r := Ok(u);
    }

    /**
     * Complete a ready use with the output of an identical completed one.  The output is
     * what executing the use itself would have given.
     */
    method Reuse(id: nat, epoch: nat, source: nat, caller: Option<nat>, memory: bool, owner: Owner, objects: Objects)
      returns (r: Result<Response>)
      requires Valid()
      modifies `records
      ensures Valid()
      ensures r.Err? ==> records == old(records)
      ensures r.Ok? <==> old(Reusable(id, epoch, source, caller, memory, owner, objects))
      ensures r.Ok? ==>
          && r.value == Response(Expected(old(records)[id]), 0)
          && records == old(records)[id := old(records)[id].(state := Completed, epoch := 2, reusedFrom := source,
               outputSize := |r.value.output|, tokens := 0, consumedDigest := old(records)[id].image.digest,
               outputDigest := OfBytes(r.value.output), response := r.value)]
      ensures owner.gone ==> r.Err?
      ensures r.Ok? ==>
          var u, s := old(records)[id], old(records)[source];
          u.owner == s.owner && u.identity == s.identity && owner.parent == u.parent && owner.identity == u.identity
    {
      hide UseOk, Expected, SameRequest, Recorded, Output, ValidImage, Unchanged;
      var denied := ReuseCheck(id, epoch, source, caller, memory, owner, objects);
      if denied.Some? {
        return Err(denied.value);
      }
      var u, s := records[id], records[source];
      LentUseOk(u, s);
      Replace(records, sequence, running, LentBy(u, s));
      records := records[id := LentBy(u, s)];
      r := Ok(s.response.(tokens := 0));
    }

    /** May `source` lend its output to `id`? */
    ghost predicate Reusable(id: nat, epoch: nat, source: nat, caller: Option<nat>, memory: bool, owner: Owner,
      objects: Objects)
      reads this
    {
      && id != 0 && epoch != 0 && source != 0 && id != source && id in records && source in records
      && (caller.Some? ==> caller.value == records[id].owner && caller.value == records[source].owner)
      && records[id].state.Ready? && records[id].epoch == epoch && records[source].state.Completed?
      && var u, s := records[id], records[source];
      && u.owner == s.owner && u.identity == s.identity && u.maxTokens == s.maxTokens && u.seed == s.seed == 0
      && u.image == s.image && u.prompt == s.prompt
      && InOrder(owner, u) && InOrder(owner, s)
      && memory && Recorded(u) && Unchanged(u, objects)
    }

    /**
     * The checks of reuse, in the source's order.  Both uses have the same owner by then, but
     * each recorded its own parent, so the owner is checked against both.
     */
    method ReuseCheck(id: nat, epoch: nat, source: nat, caller: Option<nat>, memory: bool, owner: Owner,
        objects: Objects)
      returns (r: Option<Error>)
      requires Valid()
      ensures r.None? <==> Reusable(id, epoch, source, caller, memory, owner, objects)
      ensures r.None? ==> SameRequest(records[id], records[source])
      ensures r == Some(EIO) ==> owner.refusal == Some(EIO) || Refusing(objects, EIO)
    {
      hide Output, ValidImage, Expected;
      if id == 0 || epoch == 0 || source == 0 || id == source {
        return Some(EINVAL);
      }
      var denied := Access(id, caller);
      if denied.Some? {
        return denied;
      }
      denied := Access(source, caller);
      if denied.Some? {
        return denied;
      }
      var u, s := records[id], records[source];
      if u.epoch != epoch || !u.state.Ready? || !s.state.Completed? {
        return Some(EBUSY);
      }
      OwnerMeaning(owner, u);
      OwnerMeaning(owner, s);
      if !SameRequest(u, s) {
        return Some(EPERM);
      }
      if u.seed != 0 {
        return Some(ENOTSUP);
      }
      var refused := OwnerCheck(owner, u.parent, u.identity, u.maxTokens, false);
      if refused.Some? {
        return refused;
      }
      refused := OwnerCheck(owner, s.parent, s.identity, s.maxTokens, false);
      if refused.Some? {
        return refused;
      }
      CompletedResponseOk(s);
      if !ResponseOk(s) {
        return Some(EIO);
      }
      if !memory {
        return Some(ENOMEM);
      }
      var m := Materialize(u, objects);
      if m.Err? {
        return Some(m.error);
      }
      r := None;
    }

    /** Read a stored response; it is always the generator's output for the recorded request. */
    method Read(id: nat, caller: Option<nat>, identity: Result<nat>, memory: bool, objects: Objects)
      returns (r: Result<Response>)
      requires Valid()
      ensures r.Ok? <==>
          && id != 0 && id in records && (caller.Some? ==> caller.value == records[id].owner)
          && records[id].state.Completed? && identity == Ok(records[id].identity) && memory
             && Unchanged(records[id], objects)
      ensures r.Ok? ==> r.value == records[id].response && r.value.output == Expected(records[id])
      ensures r.Err? && r.error == EIO ==> identity == Err(EIO) || Refusing(objects, EIO)
    {
      if id == 0 {
        return Err(EINVAL);
      }
      var denied := Access(id, caller);
      if denied.Some? {
        return Err(denied.value);
      }
      var u := records[id];
      if !u.state.Completed? {
        return Err(EPERM);
      }
      CompletedResponseOk(u);
      if !ResponseOk(u) {
        return Err(EIO);
      }
      if identity.Err? {
        return Err(identity.error);
      }
      if identity.value != u.identity {
        return Err(EBUSY);
      }
      if !memory {
        return Err(ENOMEM);
      }
      var m := Materialize(u, objects);
      if m.Err? {
        return Err(m.error);
      }
      r := Ok(u.response);
    }

    /** Forget a use, unless its generation is running. */
    method Destroy(id: nat, caller: Option<nat>) returns (r: Option<Error>)
      requires Valid()
      modifies `records
      ensures Valid() && running <= records.Keys
      ensures r.None? <==> caller.None? && id in old(records) && !old(records)[id].state.Busy?
      ensures records == if r.None? then old(records) - {id} else old(records)
    {
      if caller.Some? {
        return Some(EPERM);
      }
      if id == 0 {
        return Some(EINVAL);
      }
      if id !in records {
        return Some(ENOENT);
      }
      if records[id].state.Busy? {
        return Some(EBUSY);
      }
      assert (records - {id}).Keys < records.Keys;
      records := records - {id};
      r := None;
    }
  }
}
