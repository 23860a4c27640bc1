/**
 * Versioned adapter images: kernel/core/anxml/adapter.c.  Each lock-held section is one
 * method.  The caller and the cell store are parameters (`Env`); digests are injective
 * (`Anxml.Hash`).  A ghost history of every version, vouched candidate and issued cache
 * key makes `Valid` an invariant over whole runs.
 */
module Adapter {
  import opened Results
  import opened Anxml

  const ADAPTER_MAX: nat := 16
  const TRIAL_MAX: nat := 4
  const SEQUENCE_MAX: nat := 0xFFFF_FFFF_FFFF_FFFF

  datatype Env = Env(caller: Option<nat>, cells: set<nat>, terminal: set<nat>, memory: bool, envelope: Envelope)
  datatype View = View(id: nat, generation: nat, imageHash: Hash)
  datatype Key = Key(version: View, requestHash: Hash)
  datatype Trial = Trial(request: Request, expected: seq<nat>)

  datatype Record = Record(owner: nat, view: View, current: Image, prior: Image, havePrior: bool,
                           candidate: Image, token: nat, base: nat, verified: bool)

  const NO_IMAGE: Image := Image(0, 0, seq(16, i => Delta(0, 0, 0)))

  // ----- what the history remembers -----

  /** A version ever served: whose, with which image, vouched for by which trials. */
  datatype Version = Version(id: nat, image: Image, proof: seq<Trial>)
  datatype History = History(versions: map<nat, Version>, vouched: map<nat, seq<Trial>>, issued: set<(Key, Response)>)

  /** `request_check`. */
  predicate RequestOk(r: Request) {
    !r.named && |r.prompt| <= PROMPT_MAX && 1 <= r.maxTokens <= 128
  }

  /** What an adapter may be asked: at most 1024 bytes of prompt and 128 tokens, no model by name. */
  ghost predicate Askable(r: Request) {
    !r.named && |r.prompt| <= 1024 && 1 <= r.maxTokens <= 128
  }

  /** The image answers the trial's request with exactly the expected bytes. */
  ghost predicate Passes(m: Image, t: Trial) {
    && Askable(t.request) && t.request.seed == 0 && 1 <= |t.expected| <= t.request.maxTokens
    && ValidImage(m)
    && Output(t.request.prompt, t.request.maxTokens, 0, m.deltas[..m.count]) == t.expected
  }

  ghost predicate AllPass(m: Image, trials: seq<Trial>) {
    forall k | 0 <= k < |trials| :: Passes(m, trials[k])
  }

  ghost predicate RecordOk(r: Record, sequence: nat, h: History) {
    && ValidImage(r.current) && r.view.imageHash == OfImage(r.current)
    && 0 < r.view.id <= sequence && r.view.generation in h.versions
    && h.versions[r.view.generation].id == r.view.id && h.versions[r.view.generation].image == r.current
    && (r.havePrior ==> ValidImage(r.prior))
    && (r.token != 0 ==> r.token <= sequence && r.base == r.view.generation && ValidImage(r.candidate))
    && (r.verified ==> r.token != 0 && r.token in h.vouched && AllPass(r.candidate, h.vouched[r.token]))
  }

  ghost predicate HistoryOk(sequence: nat, h: History) {
    && (forall g | g in h.versions ::
          0 < g <= sequence && ValidImage(h.versions[g].image) && AllPass(h.versions[g].image, h.versions[g].proof))
    && (forall t | t in h.vouched :: 0 < t <= sequence)
    && (forall k, resp | (k, resp) in h.issued :: IssuedOk(k, resp, h))
  }

  /** A key names a version and the response that version gives to the keyed request. */
  ghost predicate IssuedOk(k: Key, resp: Response, h: History) {
    && k.version.generation in h.versions
    && var v := h.versions[k.version.generation];
    && ValidImage(v.image) && v.id == k.version.id && k.version.imageHash == OfImage(v.image)
    && k.requestHash.OfRequest?
    && resp.output == Output(k.requestHash.prompt, k.requestHash.maxTokens, k.requestHash.seed,
       v.image.deltas[..v.image.count])
    && resp.tokens == |resp.output|
  }

  ghost predicate Consistent(records: seq<Option<Record>>, sequence: nat, h: History) {
    && |records| == ADAPTER_MAX && sequence <= SEQUENCE_MAX
    && (forall i | 0 <= i < ADAPTER_MAX && records[i].Some? :: RecordOk(records[i].value, sequence, h))
    && (forall i, j | 0 <= i < j < ADAPTER_MAX && records[i].Some? && records[j].Some? ::
          && records[i].value.view.id != records[j].value.view.id
          && (records[i].value.token != 0 ==> records[i].value.token != records[j].value.token))
    && HistoryOk(sequence, h)
  }

  /** Nothing the history says is ever taken back. */
  ghost predicate Extends(h: History, h': History) {
    && (forall g | g in h.versions :: g in h'.versions && h'.versions[g] == h.versions[g])
    && h.issued <= h'.issued
  }

  /** The sequence grows and hands out numbers no version has had. */
  lemma FreshNumber(records: seq<Option<Record>>, sequence: nat, h: History)
    requires Consistent(records, sequence, h)
    ensures sequence + 1 !in h.versions && sequence + 1 !in h.vouched
    ensures forall i | 0 <= i < ADAPTER_MAX && records[i].Some? :: records[i].value.view.id != sequence + 1
  {
  }

  lemma IssuedGrows(k: Key, resp: Response, h: History, h': History)
    requires IssuedOk(k, resp, h) && Extends(h, h')
    ensures IssuedOk(k, resp, h')
  {
  }

  /** Record `r` clashes with no other record. */
  ghost predicate Distinct(records: seq<Option<Record>>, i: nat, r: Record)
    requires i < |records|
  {
    forall j | 0 <= j < |records| && j != i && records[j].Some? ::
      && records[j].value.view.id != r.view.id
      && (r.token != 0 ==> records[j].value.token != r.token)
  }

  /** Only what the history says of record `i`'s own candidate may change. */
  ghost predicate Carries(h: History, h': History, own: nat) {
    && (forall g | g in h.versions :: g in h'.versions && h'.versions[g] == h.versions[g])
    && (forall t | t in h.vouched && t != own :: t in h'.vouched && h'.vouched[t] == h.vouched[t])
  }

  lemma Update(records: seq<Option<Record>>, sequence: nat, h: History, i: nat, r: Option<Record>,
               sequence': nat, h': History)
    requires Consistent(records, sequence, h) && i < ADAPTER_MAX
    requires sequence <= sequence' <= SEQUENCE_MAX && HistoryOk(sequence', h')
    requires Carries(h, h', if records[i].Some? then records[i].value.token else 0)
    requires r.Some? ==> RecordOk(r.value, sequence', h') && Distinct(records, i, r.value)
    ensures Consistent(records[i := r], sequence', h')
  {
    forall j | 0 <= j < ADAPTER_MAX && j != i && records[j].Some?
      ensures RecordOk(records[j].value, sequence', h')
    {
      assert RecordOk(records[j].value, sequence, h);
    }
  }

  /** Adding a version under a fresh number keeps the history sound. */
  lemma AddVersion(sequence: nat, h: History, v: Version)
    requires HistoryOk(sequence, h) && ValidImage(v.image) && AllPass(v.image, v.proof)
    ensures var h' := h.(versions := h.versions[sequence + 1 := v]);
            HistoryOk(sequence + 1, h') && Carries(h, h', 0) && Extends(h, h')
  {
    var h' := h.(versions := h.versions[sequence + 1 := v]);
    assert sequence + 1 !in h.versions;
    assert Extends(h, h');
    forall k, resp | (k, resp) in h'.issued ensures IssuedOk(k, resp, h') {
      IssuedGrows(k, resp, h, h');
    }
  }

  lemma LaterSequence(sequence: nat, sequence': nat, h: History)
    requires HistoryOk(sequence, h) && sequence <= sequence'
    ensures HistoryOk(sequence', h)
  {
  }

  /** Recording the trials of a candidate. */
  lemma Vouch(sequence: nat, h: History, token: nat, trials: seq<Trial>)
    requires HistoryOk(sequence, h) && 0 < token <= sequence
    ensures var h' := h.(vouched := h.vouched[token := trials]); HistoryOk(sequence, h') && Carries(h, h', token)
  {
    var h' := h.(vouched := h.vouched[token := trials]);
    forall k, resp | (k, resp) in h'.issued ensures IssuedOk(k, resp, h') {
      IssuedGrows(k, resp, h, h');
    }
  }

  // ----- what the history means for callers -----

  /** `anx_adapter_generate` on a known version, as a function. */
  ghost function Served(m: Image, r: Request, e: Envelope): Result<Response>
    requires |m.deltas| == DELTA_MAX
  {
    if !RequestOk(r) then Err(EINVAL)
    else if Admit(e, r.maxTokens).Err? then Err(Admit(e, r.maxTokens).error)
    else Generated(r.(maxTokens := Admit(e, r.maxTokens).value), Some(m), None, e)
  }

  /** Serving a valid image succeeds exactly when the caller is admitted. */
  lemma ServedOutput(m: Image, r: Request, e: Envelope)
    requires ValidImage(m) && RequestOk(r)
    ensures Served(m, r, e).Ok? <==> Admit(e, r.maxTokens).Ok?
    ensures Served(m, r, e).Ok? ==>
              Served(m, r, e).value.output == Output(r.prompt, Admit(e, r.maxTokens).value, r.seed, m.deltas[..m.count])
              && Served(m, r, e).value.tokens == |Served(m, r, e).value.output|
  {
    AdmitIdempotent(e, r.maxTokens);
  }

  /**
   * Verified means served: a published version answers each trial of the verification
   * that let it through with the expected bytes, or, for a caller held to fewer tokens,
   * with a prefix of them.
   */
  lemma VerifiedMeansServed(sequence: nat, h: History, g: nat, k: nat, e: Envelope)
    requires HistoryOk(sequence, h) && g in h.versions && k < |h.versions[g].proof|
    requires Admit(e, h.versions[g].proof[k].request.maxTokens).Ok?
    ensures var t := h.versions[g].proof[k];
            var r := Served(h.versions[g].image, t.request, e);
            && r.Ok? && r.value.output <= t.expected
            && (Admit(e, t.request.maxTokens) == Ok(t.request.maxTokens) ==> r.value.output == t.expected)
  {
    var v := h.versions[g];
    var t := v.proof[k];
    assert Passes(v.image, t);
    ServedOutput(v.image, t.request, e);
    LowerLimitIsPrefix(t.request.prompt, 0, v.image.deltas[..v.image.count],
                       Admit(e, t.request.maxTokens).value, t.request.maxTokens);
  }

  function RequestHash(r: Request): Hash {
    OfRequest(r.prompt, r.maxTokens, r.seed)
  }

  /**
   * A cache hit is sound: if an issued key still matches the served version and the
   * request as limited now, recomputing gives the response the key was issued with.
   */
  lemma CacheHitIsRecomputation(records: seq<Option<Record>>, sequence: nat, h: History, i: nat, r: Request,
           e: Envelope, key: Key, resp: Response)
    requires Consistent(records, sequence, h) && i < ADAPTER_MAX && records[i].Some?
    requires (key, resp) in h.issued
    requires RequestOk(r) && Admit(e, r.maxTokens).Ok?
    requires records[i].value.view == key.version
    requires RequestHash(r.(maxTokens := Admit(e, r.maxTokens).value)) == key.requestHash
    ensures Served(records[i].value.current, r, e) == Ok(resp)
  {
    var rec := records[i].value;
    assert RecordOk(rec, sequence, h) && IssuedOk(key, resp, h);
    ServedOutput(rec.current, r, e);
  }

  lemma KeyIssued(records: seq<Option<Record>>, sequence: nat, h: History, k: Key, resp: Response)
    requires Consistent(records, sequence, h) && IssuedOk(k, resp, h)
    ensures Consistent(records, sequence, h.(issued := h.issued + {(k, resp)}))
  {
    var h' := h.(issued := h.issued + {(k, resp)});
    forall q, x | (q, x) in h'.issued ensures IssuedOk(q, x, h') {
      IssuedGrows(q, x, h, h');
    }
    forall i | 0 <= i < ADAPTER_MAX && records[i].Some? ensures RecordOk(records[i].value, sequence, h') {
      assert RecordOk(records[i].value, sequence, h);
    }
  }

  /** Outside a cell there is no ceiling: the runtime sets cell and scope together. */
  ghost predicate EnvOk(e: Env) {
    e.caller.None? ==> e.envelope == Ceiling(0)
  }

  /** `access`: reads need the owner or the controller, changes the controller and a live owner. */
  function Access(r: Option<Record>, changing: bool, e: Env): Option<Error> {
    match r
    case None => Some(ENOENT)
    case Some(a) =>
      if e.caller.Some? && (changing || e.caller.value != a.owner) then Some(EPERM)
      else if changing && a.owner in e.terminal then Some(EPERM)
      else None
  }

  /** The first record from `k` on with this identity, or the end. */
  ghost function Slot(records: seq<Option<Record>>, id: nat, k: nat := 0): (i: nat)
    requires k <= |records|
    ensures k <= i <= |records|
    ensures i < |records| ==> records[i].Some? && records[i].value.view.id == id
    ensures forall j | k <= j < i :: records[j].Some? ==> records[j].value.view.id != id
    decreases |records| - k
  {
    if k == |records| || (records[k].Some? && records[k].value.view.id == id) then k
    else Slot(records, id, k + 1)
  }

  /** The controller may change this adapter. */
  ghost predicate Changeable(a: Record, e: Env) {
    e.caller.None? && a.owner !in e.terminal
  }

  class Store {
    const generator: Generator
    var records: seq<Option<Record>>
    var sequence: nat
    ghost var h: History

    ghost predicate Valid()
      reads this
    {
      generator.Valid() && Consistent(records, sequence, h)
    }

    constructor ()
      ensures Valid() && h == History(map[], map[], {})
      ensures fresh(generator) && fresh(generator.bigram)
    {
      generator := new Generator();
      records := seq(16, i => None);
      sequence := 0;
      h := History(map[], map[], {});
    }

    /** The slot of an adapter, or 16. */
    method Find(id: nat) returns (i: nat)
      requires Valid()
      ensures i == Slot(records, id)
    {
      i := 0;
      while i < ADAPTER_MAX
        invariant 0 <= i <= ADAPTER_MAX
        invariant Slot(records, id) == Slot(records, id, i)
      {
        if records[i].Some? && records[i].value.view.id == id {
          return;
        }
        i := i + 1;
      }
    }

    function At(i: nat): Option<Record>
      reads `records
    {
      if i < |records| then records[i] else None
    }

    /** A new adapter, its first version numbered like its identity. */
    method Create(owner: nat, image: Image, e: Env) returns (r: Result<View>)
      requires Valid() && |image.deltas| == DELTA_MAX
      modifies this
      ensures Valid() && Extends(old(h), h)
      ensures r.Err? ==> h == old(h) && records == old(records) && sequence == old(sequence)
      ensures r.Ok? <==>
          && e.caller.None? && owner != 0 && owner in e.cells && owner !in e.terminal && ValidImage(image)
          && old(sequence) < SEQUENCE_MAX && exists i :: 0 <= i < ADAPTER_MAX && old(records)[i].None?
      ensures r.Ok? ==>
          && sequence == old(sequence) + 1 && r.value == View(sequence, sequence, OfImage(image))
          && h.versions == old(h.versions)[sequence := Version(sequence, image, [])]
          && exists i | 0 <= i < ADAPTER_MAX && old(records)[i].None? ::
               && (forall j | 0 <= j < i :: old(records)[j].Some?)
               && var a := Record(owner, r.value, image, NO_IMAGE, false, NO_IMAGE, 0, 0, false);
               records == old(records)[i := Some(a)]
    {
      hide HistoryOk, AllPass, ValidImage, IssuedOk;
      if e.caller.Some? {
        return Err(EPERM);
      }
      if owner == 0 {
        return Err(EINVAL);
      }
      var ok := ImageCheck(image);
      if !ok {
        return Err(EINVAL);
      }
      if owner !in e.cells {
        return Err(ENOENT);
      }
      if owner in e.terminal {
        return Err(EPERM);
      }
      var i := 0;
      while i < ADAPTER_MAX && records[i].Some?
        invariant 0 <= i <= ADAPTER_MAX
        invariant forall j | 0 <= j < i :: records[j].Some?
      {
        i := i + 1;
      }
      if sequence == SEQUENCE_MAX || i == ADAPTER_MAX {
        return Err(EFULL);
      }
      var n := sequence + 1;
      var view := View(n, n, OfImage(image));
      var a := Record(owner, view, image, NO_IMAGE, false, NO_IMAGE, 0, 0, false);
      ghost var v := Version(n, image, []);
      FreshNumber(records, sequence, h);
      AddVersion(sequence, h, v);
      ghost var h' := h.(versions := h.versions[n := v]);
      Update(records, sequence, h, i, Some(a), n, h');
      records, sequence, h := records[i := Some(a)], n, h';
      r := Ok(view);
    }

    /** A candidate for the next version, based on the current one. */
    method Stage(id: nat, generation: nat, image: Image, e: Env) returns (r: Result<nat>)
      requires Valid() && |image.deltas| == DELTA_MAX
      modifies `records, `sequence
      ensures Valid()
      ensures r.Err? ==> records == old(records) && sequence == old(sequence)
      ensures var i := Slot(old(records), id); i < ADAPTER_MAX ==>
          var a := old(records)[i].value;
          && (r.Ok? <==> Changeable(a, e) && generation != 0 && a.view.generation == generation && a.token == 0
                         && ValidImage(image) && old(sequence) < SEQUENCE_MAX)
          && (r.Ok? ==>
                && sequence == old(sequence) + 1 && r.value == sequence
                && records == old(records)[i := Some(a.(candidate := image, base := generation, token := sequence,
                   verified := false))])
      ensures Slot(old(records), id) == ADAPTER_MAX ==> r.Err?
    {
      hide HistoryOk, AllPass, ValidImage, IssuedOk;
      if e.caller.Some? {
        return Err(EPERM);
      }
      if generation == 0 {
        return Err(EINVAL);
      }
      var ok := ImageCheck(image);
      if !ok {
        return Err(EINVAL);
      }
      var i := Find(id);
      var denied := Access(At(i), true, e);
      if denied.Some? {
        return Err(denied.value);
      }
      var a := records[i].value;
      if a.token != 0 || a.view.generation != generation {
        return Err(EBUSY);
      }
      if sequence == SEQUENCE_MAX {
        return Err(EFULL);
      }
      var n := sequence + 1;
      var a' := a.(candidate := image, base := generation, token := n, verified := false);
      assert RecordOk(a, sequence, h);
      LaterSequence(sequence, n, h);
      Update(records, sequence, h, i, Some(a'), n, h);
      records, sequence := records[i := Some(a')], n;
      r := Ok(n);
    }

    /**
     * Run a candidate on its trials.  Success vouches for the candidate; a failure, even
     * half way, leaves it unverified.
     */
    method Verify(id: nat, token: nat, trials: seq<Trial>, e: Env) returns (r: Option<Error>)
      requires Valid() && EnvOk(e)
      modifies this`records, this`h, generator.bigram
      ensures Valid() && sequence == old(sequence)
      ensures h.versions == old(h.versions) && h.issued == old(h.issued)
      ensures var i := Slot(old(records), id); i < ADAPTER_MAX ==>
          var a := old(records)[i].value;
          && (r.None? <==> Changeable(a, e) && token != 0 && a.token == token && 1 <= |trials| <= TRIAL_MAX && e.memory
                           && AllPass(a.candidate, trials))
          && (r.None? ==>
                && records == old(records)[i := Some(a.(verified := true))]
                && h.vouched == old(h.vouched)[token := trials])
          && (r.Some? ==>
                h == old(h) && (records == old(records) || records == old(records)[i := Some(a.(verified := false))]))
          && (r.Some? && a.token == token != 0 && Changeable(a, e) && 1 <= |trials| <= TRIAL_MAX && e.memory ==>
                records == old(records)[i := Some(a.(verified := false))])
      ensures Slot(old(records), id) == ADAPTER_MAX ==> r.Some? && records == old(records) && h == old(h)
    {
      hide HistoryOk, AllPass, ValidImage, IssuedOk;
      if e.caller.Some? {
        return Some(EPERM);
      }
      if token == 0 || |trials| == 0 || |trials| > TRIAL_MAX {
        return Some(EINVAL);
      }
      if !e.memory {
        return Some(ENOMEM);
      }
      var i := Find(id);
      var denied := Access(At(i), true, e);
      if denied.Some? {
        return denied;
      }
      var a := records[i].value;
      assert RecordOk(a, sequence, h);
      if a.token != token {
        return Some(EBUSY);
      }
      r := Try(a.candidate, trials, e.envelope);
      if r.Some? {
        Update(records, sequence, h, i, Some(a.(verified := false)), sequence, h);
        records := records[i := Some(a.(verified := false))];
      } else {
        ghost var h' := h.(vouched := h.vouched[token := trials]);
        Vouch(sequence, h, token, trials);
        Update(records, sequence, h, i, Some(a.(verified := true)), sequence, h');
        records, h := records[i := Some(a.(verified := true))], h';
      }
    }

    /** The trial loop: stop at the first request, generation or comparison that fails. */
    method Try(m: Image, trials: seq<Trial>, e: Envelope) returns (r: Option<Error>)
      requires generator.Valid() && ValidImage(m) && e == Ceiling(0)
      modifies generator.bigram
      ensures r.None? <==> AllPass(m, trials)
    {
      var k := 0;
      while k < |trials|
        invariant 0 <= k <= |trials|
        invariant forall j | 0 <= j < k :: Passes(m, trials[j])
      {
        var t := trials[k];
        if !RequestOk(t.request) || t.request.seed != 0 || |t.expected| == 0 || |t.expected| > t.request.maxTokens {
          assert !Passes(m, trials[k]);
          return Some(EINVAL);
        }
        var g := generator.Generate(t.request, Some(m), None, e);
        assert g.Ok? && g.value.output == Output(t.request.prompt, t.request.maxTokens, 0, m.deltas[..m.count]);
        if g.value.output != t.expected {
          assert !Passes(m, trials[k]);
          return Some(EIO);
        }
        k := k + 1;
      }
      r := None;
    }

    /** Make a verified candidate the served version; the old one becomes the prior. */
    method Publish(id: nat, token: nat, generation: nat, e: Env) returns (r: Result<View>)
      requires Valid()
      modifies this
      ensures Valid() && Extends(old(h), h)
      ensures r.Err? ==> records == old(records) && sequence == old(sequence) && h == old(h)
      ensures var i := Slot(old(records), id); i < ADAPTER_MAX ==>
          var a := old(records)[i].value;
          && (r.Ok? <==> Changeable(a, e) && token != 0 && generation != 0 && a.token == token
                         && a.view.generation == generation && a.verified && old(sequence) < SEQUENCE_MAX)
          && (r.Ok? ==>
                && sequence == old(sequence) + 1 && r.value == View(id, sequence, OfImage(a.candidate))
                && h.versions == old(h.versions)[sequence := Version(id, a.candidate, old(h.vouched)[token])]
                && records == old(records)[i := Some(Record(a.owner, r.value, a.candidate, a.current, true, NO_IMAGE,
                   0, 0, false))])
      ensures Slot(old(records), id) == ADAPTER_MAX ==> r.Err?
    {
      hide HistoryOk, AllPass, ValidImage, IssuedOk;
      if e.caller.Some? {
        return Err(EPERM);
      }
      if token == 0 || generation == 0 {
        return Err(EINVAL);
      }
      var i := Find(id);
      var denied := Access(At(i), true, e);
      if denied.Some? {
        return Err(denied.value);
      }
      var a := records[i].value;
      assert RecordOk(a, sequence, h);
      if a.token != token || a.view.generation != generation || a.base != generation {
        return Err(EBUSY);
      }
      if !a.verified {
        return Err(EPERM);
      }
      if sequence == SEQUENCE_MAX {
        return Err(EFULL);
      }
      var n := sequence + 1;
      var view := View(id, n, OfImage(a.candidate));
      var a' := Record(a.owner, view, a.candidate, a.current, true, NO_IMAGE, 0, 0, false);
      ghost var v := Version(id, a.candidate, h.vouched[token]);
      AddVersion(sequence, h, v);
      ghost var h' := h.(versions := h.versions[n := v]);
      Update(records, sequence, h, i, Some(a'), n, h');
      records, sequence, h := records[i := Some(a')], n, h';
      r := Ok(view);
    }

    method Abort(id: nat, token: nat, e: Env) returns (r: Option<Error>)
      requires Valid()
      modifies `records
      ensures Valid()
      ensures var i := Slot(old(records), id); i < ADAPTER_MAX ==>
          var a := old(records)[i].value;
          && (r.None? <==> e.caller.None? && token != 0 && a.token == token)
          && records == if r.None? then old(records)[i := Some(a.(candidate := NO_IMAGE, token := 0, base := 0,
             verified := false))]
                        else old(records)
      ensures Slot(old(records), id) == ADAPTER_MAX ==> r.Some? && records == old(records)
    {
      hide HistoryOk, AllPass, ValidImage, IssuedOk;
      if e.caller.Some? {
        return Some(EPERM);
      }
      if token == 0 {
        return Some(EINVAL);
      }
      var i := Find(id);
      if i == ADAPTER_MAX {
        return Some(ENOENT);
      }
      var a := records[i].value;
      assert RecordOk(a, sequence, h);
      if a.token != token {
        return Some(EBUSY);
      }
      var a' := a.(candidate := NO_IMAGE, token := 0, base := 0, verified := false);
      Update(records, sequence, h, i, Some(a'), sequence, h);
      records := records[i := Some(a')];
      r := None;
    }

    /** Serve the prior image again, under a new number; only once per publish. */
    method Rollback(id: nat, generation: nat, e: Env) returns (r: Result<View>)
      requires Valid()
      modifies this
      ensures Valid() && Extends(old(h), h)
      ensures r.Err? ==> records == old(records) && sequence == old(sequence) && h == old(h)
      ensures var i := Slot(old(records), id); i < ADAPTER_MAX ==>
          var a := old(records)[i].value;
          && (r.Ok? <==> Changeable(a, e) && generation != 0 && a.token == 0 && a.havePrior
                         && a.view.generation == generation && old(sequence) < SEQUENCE_MAX)
          && (r.Ok? ==>
                && sequence == old(sequence) + 1 && r.value == View(id, sequence, OfImage(a.prior))
                && h.versions == old(h.versions)[sequence := Version(id, a.prior, [])]
                && records == old(records)[i := Some(a.(view := r.value, current := a.prior, prior := NO_IMAGE,
                   havePrior := false))])
      ensures Slot(old(records), id) == ADAPTER_MAX ==> r.Err?
    {
      hide HistoryOk, AllPass, ValidImage, IssuedOk;
      if e.caller.Some? {
        return Err(EPERM);
      }
      if generation == 0 {
        return Err(EINVAL);
      }
      var i := Find(id);
      var denied := Access(At(i), true, e);
      if denied.Some? {
        return Err(denied.value);
      }
      var a := records[i].value;
      assert RecordOk(a, sequence, h);
      if a.token != 0 || !a.havePrior || a.view.generation != generation {
        return Err(EBUSY);
      }
      if sequence == SEQUENCE_MAX {
        return Err(EFULL);
      }
      var n := sequence + 1;
      var view := View(id, n, OfImage(a.prior));
      var a' := a.(view := view, current := a.prior, prior := NO_IMAGE, havePrior := false);
      ghost var v := Version(id, a.prior, []);
      AddVersion(sequence, h, v);
      ghost var h' := h.(versions := h.versions[n := v]);
      Update(records, sequence, h, i, Some(a'), n, h');
      records, sequence, h := records[i := Some(a')], n, h';
      r := Ok(view);
    }

    method Destroy(id: nat, e: Env) returns (r: Option<Error>)
      requires Valid()
      modifies `records
      ensures Valid()
      ensures var i := Slot(old(records), id); i < ADAPTER_MAX ==>
          && (r.None? <==> e.caller.None? && old(records)[i].value.token == 0)
          && records == if r.None? then old(records)[i := None] else old(records)
      ensures Slot(old(records), id) == ADAPTER_MAX ==> r.Some? && records == old(records)
    {
      hide HistoryOk, AllPass, ValidImage, IssuedOk;
      if e.caller.Some? {
        return Some(EPERM);
      }
      var i := Find(id);
      if i == ADAPTER_MAX {
        return Some(ENOENT);
      }
      if records[i].value.token != 0 {
        return Some(EBUSY);
      }
      Update(records, sequence, h, i, None, sequence, h);
      records := records[i := None];
      r := None;
    }

    /** Serve a request from a named version and issue a cache key for the response. */
    method Generate(id: nat, generation: nat, request: Request, e: Env) returns (r: Result<(Response, Key)>)
      requires Valid()
      modifies this`h, generator.bigram
      ensures Valid() && h.versions == old(h.versions) && h.vouched == old(h.vouched)
      ensures var i := Slot(records, id); i < ADAPTER_MAX ==>
          var a := records[i].value;
          && (r.Ok? <==> generation != 0 && a.view.generation == generation && Askable(request)
                         && (e.caller.Some? ==> e.caller.value == a.owner) && e.envelope.Ceiling?)
          && (r.Ok? ==>
                && Ok(r.value.0) == Served(a.current, request, e.envelope)
                && r.value.1 == Key(a.view, RequestHash(request.(maxTokens := Admit(e.envelope,
                   request.maxTokens).value)))
                && h.issued == old(h.issued) + {(r.value.1, r.value.0)})
      ensures Slot(records, id) == ADAPTER_MAX ==> r.Err?
      ensures r.Err? ==> h == old(h)
      ensures r.Ok? ==> generation in h.versions
      ensures r.Ok? ==>
          forall k | 0 <= k < |h.versions[generation].proof| && h.versions[generation].proof[k].request == request ::
            && r.value.0.output <= h.versions[generation].proof[k].expected
            && (Admit(e.envelope, request.maxTokens) == Ok(request.maxTokens) ==>
                  r.value.0.output == h.versions[generation].proof[k].expected)
    {
      if generation == 0 || !RequestOk(request) {
        return Err(EINVAL);
      }
      var admission := Admit(e.envelope, request.maxTokens);
      if admission.Err? {
        return Err(admission.error);
      }
      var input := request.(maxTokens := admission.value);
      var i := Find(id);
      var denied := Access(At(i), false, e);
      if denied.Some? {
        return Err(denied.value);
      }
      var a := records[i].value;
      assert RecordOk(a, sequence, h);
      if a.view.generation != generation {
        return Err(EBUSY);
      }
      ServedOutput(a.current, request, e.envelope);
      var g := generator.Generate(input, Some(a.current), None, e.envelope);
      assert g == Served(a.current, request, e.envelope);
      var key := Key(a.view, RequestHash(input));
      ghost var h' := h.(issued := h.issued + {(key, g.value)});
      KeyIssued(records, sequence, h, key, g.value);
      forall k: nat | k < |h.versions[generation].proof| && h.versions[generation].proof[k].request == request
        ensures g.value.output <= h.versions[generation].proof[k].expected
        ensures admission == Ok(request.maxTokens) ==> g.value.output == h.versions[generation].proof[k].expected
      {
        VerifiedMeansServed(sequence, h, generation, k, e.envelope);
      }
      h := h';
      r := Ok((g.value, key));
    }

    /**
     * Is a cached response still good?  When the key was issued by this store, a yes means
     * that asking again now, for the same version, gives exactly the cached response.
     */
    method CacheCheck(id: nat, request: Request, key: Key, e: Env) returns (r: Option<Error>)
      requires Valid()
      ensures var i := Slot(records, id); i < ADAPTER_MAX ==>
          (r.None? <==>
            && Askable(request) && e.envelope.Ceiling?
            && (e.caller.Some? ==> e.caller.value == records[i].value.owner)
            && records[i].value.view == key.version
            && RequestHash(request.(maxTokens := Admit(e.envelope, request.maxTokens).value)) == key.requestHash)
      ensures Slot(records, id) == ADAPTER_MAX ==> r.Some?
      ensures r.None? ==> forall resp | (key, resp) in h.issued ::
          Served(records[Slot(records, id)].value.current, request, e.envelope) == Ok(resp)
    {
      if !RequestOk(request) {
        return Some(EINVAL);
      }
      var admission := Admit(e.envelope, request.maxTokens);
      if admission.Err? {
        return Some(admission.error);
      }
      var input := request.(maxTokens := admission.value);
      var i := Find(id);
      var denied := Access(At(i), false, e);
      if denied.Some? {
        return denied;
      }
      var view := records[i].value.view;
      if view.id != key.version.id || view.generation != key.version.generation
         || view.imageHash != key.version.imageHash || RequestHash(input) != key.requestHash {
        return Some(EBUSY);
      }
      forall resp | (key, resp) in h.issued
        ensures Served(records[i].value.current, request, e.envelope) == Ok(resp)
      {
        CacheHitIsRecomputation(records, sequence, h, i, request, e.envelope, key, resp);
      }
      r := None;
    }
  }
}
