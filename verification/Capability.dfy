/**
 * Capability lifecycle and authority: kernel/core/cap/capability.c.  Declarations are
 * mutable by their holders at any time (`Declare`); the grant state is not.  Authority
 * words are 32-bit masks.  The revision gate, the promotion gate, the calling cell and
 * the engine registry are parameters.
 */
module Capability {
  import opened Results

  const AUTH_ALL: bv32 := 0xF
  const ENGINES_MAX: nat := 8

  datatype Status = Draft | Validating | Validated | Installed | Suspended | Superseded | Retired

  /** The lifecycle table. */
  predicate Allowed(s: Status, t: Status) {
    match s
    case Draft => t.Validating? || t.Retired?
    case Validating => t.Validated? || t.Draft? || t.Retired?
    case Validated => t.Installed? || t.Retired?
    case Installed => t.Suspended? || t.Superseded? || t.Retired?
    case Suspended => t.Installed? || t.Retired?
    case Superseded => t.Retired?
    case Retired => false
  }

  /** The table read the other way: where each status can be reached from. */
  lemma ReachedFrom(s: Status, t: Status)
    ensures Allowed(s, t) <==>
      match t
      case Draft => s.Validating?
      case Validating => s.Draft?
      case Validated => s.Validating?
      case Installed => s.Validated? || s.Suspended?
      case Suspended => s.Installed?
      case Superseded => s.Installed?
      case Retired => !s.Retired?
  {
  }

  ghost predicate Lifecycle(run: seq<Status>) {
    forall k, n | 0 <= k < n < |run| && n == k + 1 :: run[n] == run[k] || Allowed(run[k], run[n])
  }

  /** In every run from a draft, validation comes before any installed status but retirement. */
  lemma {:induction false} ValidatedFirst(run: seq<Status>, b: nat) returns (a: nat)
    requires Lifecycle(run) && b < |run| && run[0].Draft?
    requires run[b].Installed? || run[b].Suspended? || run[b].Superseded?
    ensures a < b && run[a].Validated?
    decreases b
  {
    assert b > 0;
    var k := b - 1;
    assert run[b] == run[k] || Allowed(run[k], run[b]);
    if run[k].Validated? {
      a := k;
    } else {
      a := ValidatedFirst(run, k);
    }
  }

  /** What was superseded is never installed again, and retirement is final. */
  lemma {:induction false} NoWayBack(run: seq<Status>, a: nat, b: nat)
    requires Lifecycle(run) && a <= b < |run|
    ensures run[a].Superseded? ==> run[b].Superseded? || run[b].Retired?
    ensures run[a].Retired? ==> run[b].Retired?
    decreases b
  {
    if a < b {
      var k := b - 1;
      NoWayBack(run, a, k);
      assert run[b] == run[k] || Allowed(run[k], run[b]);
    }
  }

  /** A capability that was installed once. */
  predicate Past(s: Status) {
    s.Installed? || s.Suspended? || s.Superseded? || s.Retired?
  }

  /** Once installed, a capability never becomes a draft or a candidate again. */
  lemma PastForGood(s: Status, t: Status)
    requires Past(s) && Allowed(s, t)
    ensures Past(t)
  {
  }

  /** What the holder of a candidate may write at will. */
  datatype Declaration = Declaration(named: bool, authority: bv32, supersedes: nat, engines: seq<nat>)

  datatype Entry = Entry(status: Status, decl: Declaration, engine: nat, ceiling: bv32, granted: bv32)

  /** Every bit of `a` is in `b`. */
  predicate Within(a: bv32, b: bv32) { a & !b == 0 }

  lemma WithinTransitive(a: bv32, b: bv32, c: bv32)
    requires Within(a, b) && Within(b, c)
    ensures Within(a, c)
  {
  }

  /** The calling cell: may it install at all, and which rights does it hold. */
  datatype Caller = Caller(mayInstall: bool, rights: bv32)

  /** `check_authority`. */
  function AuthorityError(d: Declaration, ceiling: bv32, caller: Option<Caller>): Option<Error> {
    if !Within(d.authority, AUTH_ALL) then Some(EINVAL)
    else if !Within(d.authority, ceiling) then Some(EPERM)
    else match caller
      case None => None
      case Some(c) => if c.mayInstall && Within(d.authority, c.rights) then None else Some(EPERM)
  }

  predicate DistinctEngines(engines: seq<nat>) {
    && (forall i | 0 <= i < |engines| :: engines[i] != 0)
    && (forall i, j | 0 <= j < i < |engines| :: engines[i] != engines[j])
  }

  /** `check_declaration`. */
  predicate DeclarationOk(d: Declaration) {
    d.named && Within(d.authority, AUTH_ALL) && |d.engines| <= ENGINES_MAX && DistinctEngines(d.engines)
  }

  /** `check_dependencies`: every required engine is registered and usable. */
  function DependencyError(engines: seq<nat>, registered: set<nat>, usable: set<nat>): Option<Error> {
    if engines == [] then None
    else if engines[0] !in registered then Some(ENOENT)
    else if engines[0] !in usable then Some(EPERM)
    else DependencyError(engines[1..], registered, usable)
  }

  // ----- where authority comes from -----

  /** An installed capability's place in its supersession chain. */
  datatype Grant = Grant(incumbent: Option<nat>, root: nat, depth: nat)

  ghost predicate GrantOk(c: nat, caps: map<nat, Entry>, grants: map<nat, Grant>) {
    c in caps && c in grants && Past(caps[c].status)
    && var g := grants[c];
    && g.root in caps && g.root in grants && grants[g.root] == Grant(None, g.root, 0)
    && Past(caps[g.root].status)
    && Within(caps[c].granted, AUTH_ALL)
    && (g.incumbent.None? ==> g.root == c && g.depth == 0 && Within(caps[c].granted, caps[c].ceiling))
    && (g.incumbent.Some? ==>
          && g.incumbent.value in grants && g.incumbent.value in caps
          && grants[g.incumbent.value].root == g.root && grants[g.incumbent.value].depth + 1 == g.depth
          && Within(caps[c].granted, caps[g.incumbent.value].granted))
  }

  ghost predicate GrantsOk(caps: map<nat, Entry>, grants: map<nat, Grant>) {
    && (forall c | c in grants :: GrantOk(c, caps, grants))
    && (forall c | c in caps && c !in grants :: caps[c].granted == 0 && caps[c].engine == 0)
  }

  /**
   * Authority only shrinks: however long the chain of supersessions, what an installed
   * capability was granted lies within the ceiling set for the root of its chain.
   */
  lemma {:induction false} WithinRootCeiling(caps: map<nat, Entry>, grants: map<nat, Grant>, c: nat)
    requires GrantsOk(caps, grants) && c in grants
    ensures grants[c].root in caps && Within(caps[c].granted, caps[grants[c].root].ceiling)
    decreases grants[c].depth
  {
    hide Within;
    assert GrantOk(c, caps, grants);
    if grants[c].incumbent.Some? {
      var i := grants[c].incumbent.value;
      WithinRootCeiling(caps, grants, i);
      WithinTransitive(caps[c].granted, caps[i].granted, caps[grants[c].root].ceiling);
    }
  }

  /** Entry `c` changes without touching its grant state or leaving its past. */
  ghost predicate Keeps(e: Entry, e': Entry) {
    && e'.granted == e.granted && (Past(e.status) ==> Past(e'.status) && e'.ceiling == e.ceiling)
    && (e'.engine == e.engine || e'.engine == 0)
  }

  lemma GrantKeeps(caps: map<nat, Entry>, grants: map<nat, Grant>, c: nat, e: Entry, x: nat)
    requires GrantsOk(caps, grants) && c in caps && Keeps(caps[c], e) && x in grants
    ensures GrantOk(x, caps[c := e], grants)
  {
    hide Within, Past, GrantsOk;
    assert GrantOk(x, caps, grants) && GrantOk(grants[x].root, caps, grants) by {
      GrantsMembers(caps, grants, x);
    }
  }

  lemma GrantsMembers(caps: map<nat, Entry>, grants: map<nat, Grant>, x: nat)
    requires GrantsOk(caps, grants) && x in grants
    ensures GrantOk(x, caps, grants) && GrantOk(grants[x].root, caps, grants)
  {
    hide Within;
    assert GrantOk(x, caps, grants);
  }

  lemma KnownGrants(caps: map<nat, Entry>, grants: map<nat, Grant>)
    requires GrantsOk(caps, grants)
    ensures forall c | c in grants :: c in caps && Past(caps[c].status)
  {
    hide Within;
    forall c | c in grants ensures c in caps && Past(caps[c].status) {
      assert GrantOk(c, caps, grants);
    }
  }

  lemma UpdateKeeps(caps: map<nat, Entry>, grants: map<nat, Grant>, c: nat, e: Entry)
    requires GrantsOk(caps, grants) && c in caps && Keeps(caps[c], e)
    ensures GrantsOk(caps[c := e], grants)
  {
    hide GrantOk;
    forall x | x in grants ensures GrantOk(x, caps[c := e], grants) {
      GrantKeeps(caps, grants, c, e, x);
    }
  }

  /** Installing a capability that was never granted anything. */
  lemma InstallGrants(caps: map<nat, Entry>, grants: map<nat, Grant>, c: nat, e: Entry, g: Grant)
    requires GrantsOk(caps, grants) && c in caps && c !in grants
    requires Past(e.status) && e.ceiling == caps[c].ceiling && Within(e.granted, AUTH_ALL)
    requires g.incumbent.None? ==> g == Grant(None, c, 0) && Within(e.granted, e.ceiling)
    requires g.incumbent.Some? ==>
               && g.incumbent.value in grants && g.root == grants[g.incumbent.value].root
               && g.depth == grants[g.incumbent.value].depth + 1
               && Within(e.granted, caps[g.incumbent.value].granted)
    ensures GrantsOk(caps[c := e], grants[c := g])
  {
    hide GrantOk, Within, Past;
    forall x | x in grants ensures GrantOk(x, caps[c := e], grants[c := g]) {
      GrantStays(caps, grants, c, e, g, x);
    }
    NewGrantOk(caps, grants, c, e, g);
  }

  lemma GrantStays(caps: map<nat, Entry>, grants: map<nat, Grant>, c: nat, e: Entry, g: Grant, x: nat)
    requires GrantsOk(caps, grants) && c !in grants && x in grants
    ensures GrantOk(x, caps[c := e], grants[c := g])
  {
    hide Within, Past;
    GrantsMembers(caps, grants, x);
  }

  lemma NewGrantOk(caps: map<nat, Entry>, grants: map<nat, Grant>, c: nat, e: Entry, g: Grant)
    requires GrantsOk(caps, grants) && c !in grants
    requires Past(e.status) && Within(e.granted, AUTH_ALL)
    requires g.incumbent.None? ==> g == Grant(None, c, 0) && Within(e.granted, e.ceiling)
    requires g.incumbent.Some? ==>
               && g.incumbent.value in grants && g.root == grants[g.incumbent.value].root
               && g.depth == grants[g.incumbent.value].depth + 1
               && Within(e.granted, caps[g.incumbent.value].granted)
    ensures GrantOk(c, caps[c := e], grants[c := g])
  {
    hide Within, Past;
    if g.incumbent.Some? {
      GrantsMembers(caps, grants, g.incumbent.value);
    }
  }

  /**
   * A capability that reached INSTALLED by the lifecycle call alone was never granted anything:
   * it has no authority and no engine.
   */
  lemma InstalledWithoutGrant(caps: map<nat, Entry>, grants: map<nat, Grant>, c: nat)
    requires GrantsOk(caps, grants) && c in caps && caps[c].status.Validated? && Allowed(Validated, Installed)
    ensures c !in grants && GrantsOk(caps[c := caps[c].(status := Installed)], grants)
    ensures caps[c].granted == 0 && caps[c].engine == 0
  {
    assert c in grants ==> GrantOk(c, caps, grants);
    UpdateKeeps(caps, grants, c, caps[c].(status := Installed));
  }

  /**
   * What an installation asks of a declaration: a name; rights that exist, lie in the ceiling and
   * are held by a calling cell that may install; at most 8 distinct engines, all registered and usable.
   */
  ghost predicate Installable(
    d: Declaration, ceiling: bv32, caller: Option<Caller>, registered: set<nat>, usable: set<nat>)
  {
    && d.named && d.authority & 0xF == d.authority && d.authority & ceiling == d.authority
    && (caller.Some? ==> caller.value.mayInstall && d.authority & caller.value.rights == d.authority)
    && |d.engines| <= 8 && 0 !in d.engines && (forall i, j | 0 <= i < j < |d.engines| :: d.engines[i] != d.engines[j])
    && (set e | e in d.engines) <= registered * usable
  }

  lemma WithinMeaning(a: bv32, b: bv32)
    ensures Within(a, b) <==> a & b == a
  {
  }

  lemma {:induction false} DependenciesMeaning(engines: seq<nat>, registered: set<nat>, usable: set<nat>)
    ensures DependencyError(engines, registered, usable).None? <==> (set e | e in engines) <= registered * usable
  {
    if engines != [] {
      DependenciesMeaning(engines[1..], registered, usable);
      assert engines == [engines[0]] + engines[1..];
      var first, rest, all := engines[0], set e | e in engines[1..], set e | e in engines;
      assert all == {first} + rest;
      assert first in all && rest <= all;
      assert all <= registered * usable <==> first in registered * usable && rest <= registered * usable;
    }
  }

  /** The three checks of `do_install` together ask exactly that. */
  lemma ChecksMeaning(d: Declaration, ceiling: bv32, caller: Option<Caller>, registered: set<nat>, usable: set<nat>)
    ensures DeclarationOk(d) && AuthorityError(d, ceiling, caller).None?
            && DependencyError(d.engines, registered, usable).None?
            <==> Installable(d, ceiling, caller, registered, usable)
  {
    hide Within, DependencyError;
    WithinMeaning(d.authority, AUTH_ALL);
    WithinMeaning(d.authority, ceiling);
    if caller.Some? {
      WithinMeaning(d.authority, caller.value.rights);
    }
    DependenciesMeaning(d.engines, registered, usable);
    assert 0 in d.engines <==> exists i | 0 <= i < |d.engines| :: d.engines[i] == 0;
  }

  /** The three checks, in the order of the source. */
  method InstallCheck(d: Declaration, ceiling: bv32, caller: Option<Caller>, registered: set<nat>, usable: set<nat>)
    returns (r: Option<Error>)
    ensures r.None? <==> Installable(d, ceiling, caller, registered, usable)
    ensures r.None? ==> Within(d.authority, AUTH_ALL) && Within(d.authority, ceiling)
    ensures r.None? && caller.Some? ==>
        caller.value.mayInstall && d.authority & caller.value.rights == d.authority
  {
    ChecksMeaning(d, ceiling, caller, registered, usable);
    if !DeclarationOk(d) {
      return Some(EINVAL);
    }
    r := AuthorityError(d, ceiling, caller);
    if r.None? {
      r := DependencyError(d.engines, registered, usable);
    }
  }

  lemma InstalledIsPast()
    ensures Past(Installed)
  {
  }

  lemma NeverGranted(caps: map<nat, Entry>, grants: map<nat, Grant>, c: nat)
    requires GrantsOk(caps, grants) && c in caps && caps[c].status.Validated?
    ensures c !in grants
  {
    assert c in grants ==> GrantOk(c, caps, grants);
  }

  class Store {
    var caps: map<nat, Entry>
    ghost var grants: map<nat, Grant>

    ghost predicate Valid()
      reads this
    {
      GrantsOk(caps, grants)
    }

    /** Grants are never withdrawn or widened, and the ceilings behind them never move. */
    twostate predicate Steady()
      reads this
    {
      forall c | c in old(grants) ::
        && c in grants && grants[c] == old(grants)[c]
        && c in old(caps) && c in caps
        && caps[c].granted == old(caps)[c].granted && caps[c].ceiling == old(caps)[c].ceiling
    }

    constructor ()
      ensures Valid() && caps == map[]
    {
      caps, grants := map[], map[];
    }

    method Create(c: nat, memory: bool) returns (r: Option<Error>)
      requires Valid() && c !in caps && c != 0
      modifies `caps
      ensures Valid() && Steady()
      ensures r.None? <==> memory
      ensures caps == if r.None? then old(caps)[c := Entry(Draft, Declaration(true, 0, 0, []), 0, 0, 0)] else old(caps)
    {
      if !memory {
        return Some(ENOMEM);
      }
      var e := Entry(Draft, Declaration(true, 0, 0, []), 0, 0, 0);
      forall x | x in grants ensures GrantOk(x, caps[c := e], grants) {
        assert GrantOk(x, caps, grants) && GrantOk(grants[x].root, caps, grants);
      }
      caps := caps[c := e];
      r := None;
    }

    /** The holder rewrites a declaration, installed or not. */
    method Declare(c: nat, d: Declaration)
      requires Valid() && c in caps
      modifies `caps
      ensures Valid() && Steady() && caps == old(caps)[c := old(caps)[c].(decl := d)]
    {
      hide GrantOk;
      KnownGrants(caps, grants);
      UpdateKeeps(caps, grants, c, caps[c].(decl := d));
      caps := caps[c := caps[c].(decl := d)];
    }

    method SetCeiling(c: nat, ceiling: bv32, caller: bool) returns (r: Option<Error>)
      requires Valid()
      modifies `caps
      ensures Valid() && Steady()
      ensures r.None? <==>
          && c in old(caps) && ceiling & 0xF == ceiling && !caller
          && old(caps)[c].status.Draft? && old(caps)[c].decl.supersedes == 0
      ensures caps == if r.None? then old(caps)[c := old(caps)[c].(ceiling := ceiling)] else old(caps)
    {
      WithinMeaning(ceiling, AUTH_ALL);
      if c !in caps || !Within(ceiling, AUTH_ALL) {
        return Some(EINVAL);
      }
      if caller || !caps[c].status.Draft? || caps[c].decl.supersedes != 0 {
        return Some(EPERM);
      }
      UpdateKeeps(caps, grants, c, caps[c].(ceiling := ceiling));
      caps := caps[c := caps[c].(ceiling := ceiling)];
      r := None;
    }

    /** `anx_cap_transition`: the table, then the revision gate for installed states. */
    method Transition(c: nat, t: Status, revision: Option<Error>) returns (r: Option<Error>)
      requires Valid()
      modifies `caps
      ensures Valid() && Steady()
      ensures r.None? <==>
          && c in old(caps) && Allowed(old(caps)[c].status, t)
          && (old(caps)[c].status in {Installed, Suspended, Superseded} || t.Installed? ==> revision.None?)
      ensures caps == if r.None? then old(caps)[c := old(caps)[c].(status := t)] else old(caps)
    {
      hide GrantOk;
      KnownGrants(caps, grants);
      if c !in caps || !Allowed(caps[c].status, t) {
        return Some(EINVAL);
      }
      var s := caps[c].status;
      if (s.Installed? || s.Suspended? || s.Superseded? || t.Installed?) && revision.Some? {
        return revision;
      }
      UpdateKeeps(caps, grants, c, caps[c].(status := t));
      caps := caps[c := caps[c].(status := t)];
      r := None;
    }

    /** The checks and effects of `do_install` under a given ceiling. */
    method DoInstall(c: nat, ceiling: bv32, ghost g: Grant, caller: Option<Caller>, registered: set<nat>,
        usable: set<nat>, engine: Option<nat>, revision: Option<Error>) returns (r: Option<Error>)
      requires Valid() && c in caps && caps[c].status.Validated? && (engine.Some? ==> engine.value != 0)
      requires g.incumbent.None? ==> g == Grant(None, c, 0) && ceiling == caps[c].ceiling
      requires g.incumbent.Some? ==>
                 && g.incumbent.value in grants && g.root == grants[g.incumbent.value].root
                 && g.depth == grants[g.incumbent.value].depth + 1 && ceiling == caps[g.incumbent.value].granted
      modifies `caps, `grants
      ensures Valid() && Steady()
      ensures r.None? <==>
          revision.None? && engine.Some? && Installable(old(caps)[c].decl, ceiling, caller, registered, usable)
      ensures r.None? ==>
          && Within(old(caps)[c].decl.authority, ceiling) && c !in old(grants)
          && caps == old(caps)[c := old(caps)[c].(status := Installed, engine := engine.value,
             granted := old(caps)[c].decl.authority)]
          && grants == old(grants)[c := g]
      ensures r.None? && caller.Some? ==>
          caller.value.mayInstall && caps[c].granted & caller.value.rights == caps[c].granted
      ensures r.Some? ==> caps == old(caps) && grants == old(grants)
    {
      hide Installable, GrantOk, Within, Past;
      KnownGrants(caps, grants);
      if revision.Some? {
        return revision;
      }
      var d := caps[c].decl;
      r := InstallCheck(d, ceiling, caller, registered, usable);
      if r.Some? {
        return;
      }
      if engine.None? {
        return Some(OTHER);
      }
      NeverGranted(caps, grants, c);
      var e := caps[c].(status := Installed, engine := engine.value, granted := d.authority);
      assert Past(e.status) by {
        InstalledIsPast();
      }
      InstallGrants(caps, grants, c, e, g);
      caps := caps[c := e];
      grants := grants[c := g];
    }

    /** Install a root capability, under its own ceiling. */
    method Install(c: nat, caller: Option<Caller>, registered: set<nat>, usable: set<nat>, engine: Option<nat>,
                   revision: Option<Error>) returns (r: Option<Error>)
      requires Valid() && (engine.Some? ==> engine.value != 0)
      modifies `caps, `grants
      ensures Valid() && Steady()
      ensures r.None? <==>
          && c in old(caps) && old(caps)[c].status.Validated? && old(caps)[c].decl.supersedes == 0
          && revision.None? && engine.Some?
          && Installable(old(caps)[c].decl, old(caps)[c].ceiling, caller, registered, usable)
      ensures r.None? ==>
          && grants == old(grants)[c := Grant(None, c, 0)]
          && caps == old(caps)[c := old(caps)[c].(status := Installed, engine := engine.value,
             granted := old(caps)[c].decl.authority)]
          && Within(caps[c].granted, old(caps)[c].ceiling)
      ensures r.None? && caller.Some? ==>
          caller.value.mayInstall && caps[c].granted & caller.value.rights == caps[c].granted
      ensures r.Some? ==> caps == old(caps) && grants == old(grants)
    {
      if c !in caps {
        return Some(EINVAL);
      }
      if !caps[c].status.Validated? || caps[c].decl.supersedes != 0 {
        return Some(EPERM);
      }
      r := DoInstall(c, caps[c].ceiling, Grant(None, c, 0), caller, registered, usable, engine, revision);
    }

    /** Install a candidate that beat its incumbent, under what the incumbent was granted. */
    method InstallGated(c: nat, gate: Option<Error>, promote: bool, caller: Option<Caller>, registered: set<nat>,
        usable: set<nat>, engine: Option<nat>, revision: Option<Error>) returns (r: Option<Error>)
      requires Valid() && c in caps && (engine.Some? ==> engine.value != 0)
      modifies `caps, `grants
      ensures Valid() && Steady()
      ensures r.None? <==>
          && old(caps)[c].status.Validated? && old(caps)[c].decl.supersedes != 0
             && old(caps)[c].decl.supersedes in old(caps)
          && gate.None? && promote
          && var incumbent := old(caps)[old(caps)[c].decl.supersedes];
          && incumbent.status.Installed? && incumbent.engine != 0 && incumbent.engine in registered
          && revision.None? && engine.Some?
          && Installable(old(caps)[c].decl, incumbent.granted, caller, registered, usable)
      ensures r.None? ==>
          && var i := old(caps)[c].decl.supersedes;
          && i in old(grants)
          && grants == old(grants)[c := Grant(Some(i), old(grants)[i].root, old(grants)[i].depth + 1)]
          && caps == old(caps)[c := old(caps)[c].(status := Installed, engine := engine.value,
             granted := old(caps)[c].decl.authority)]
          && Within(caps[c].granted, old(caps)[i].granted)
      ensures r.None? && caller.Some? ==>
          caller.value.mayInstall && caps[c].granted & caller.value.rights == caps[c].granted
      ensures r.Some? ==> caps == old(caps) && grants == old(grants)
    {
      if !caps[c].status.Validated? {
        return Some(EPERM);
      }
      var i := caps[c].decl.supersedes;
      if i == 0 {
        return Some(EINVAL);
      }
      if i !in caps {
        return Some(ENOENT);
      }
      if !caps[i].status.Installed? || caps[i].engine == 0 || caps[i].engine !in registered {
        return Some(EPERM);
      }
      if gate.Some? {
        return gate;
      }
      if !promote {
        return Some(EPERM);
      }
      assert i in grants;
      ghost var g := Grant(Some(i), grants[i].root, grants[i].depth + 1);
      r := DoInstall(c, caps[i].granted, g, caller, registered, usable, engine, revision);
    }

    /** Remove the engine of an installed capability; its grant and status stay. */
    method Uninstall(c: nat, revision: Option<Error>) returns (r: Option<Error>)
      requires Valid() && c in caps
      modifies `caps
      ensures Valid() && Steady()
      ensures r.None? <==> revision.None? && (old(caps)[c].status.Installed? || old(caps)[c].status.Suspended?)
      ensures caps == if r.None? then old(caps)[c := old(caps)[c].(engine := 0)] else old(caps)
    {
      hide GrantOk;
      KnownGrants(caps, grants);
      if revision.Some? {
        return revision;
      }
      if !caps[c].status.Installed? && !caps[c].status.Suspended? {
        return Some(EPERM);
      }
      UpdateKeeps(caps, grants, c, caps[c].(engine := 0));
      caps := caps[c := caps[c].(engine := 0)];
      r := None;
    }
  }
}
