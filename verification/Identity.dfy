/**
 * The identity registry of kernel/core/identity.c: signed commitments, each naming the digest
 * of its predecessor.  The hash and the signature check are arbitrary functions; nothing
 * assumes the hash has no collisions.
 */
module Identity {
  import opened Results
  import opened Words

  const WIRE_BYTES: nat := 108
  const MAX: nat := 256
  const AUTH_ALL: nat := 15

  type Byte = b: nat | b < 256
  type U64 = n: nat | n < TWO64
  type U32 = n: nat | n < TWO32
  type Block = s: seq<Byte> | |s| == 32 witness seq(32, i => 0)

  const ZERO: Block := seq(32, i => 0)

  datatype Oid = Oid(hi: U64, lo: U64)

  const NIL: Oid := Oid(0, 0)

  datatype Commitment = Commitment(schema: U32, id: Oid, generation: U64, authority: U32, key: Block, prev: Block)

  // ----- the wire form -----

  /** Byte `i` of a little-endian word. */
  function ByteOf(v: nat, i: nat): Byte { v / Pow256(i) % 256 }

  function Pow256(i: nat): (p: nat)
    ensures p > 0
  {
    if i == 0 then 1 else 256 * Pow256(i - 1)
  }

  function Little(v: nat, n: nat): (s: seq<Byte>)
    ensures |s| == n
  {
    seq(n, i requires 0 <= i => ByteOf(v, i))
  }

  /** The lowest byte comes first. */
  lemma {:induction false} LowByteFirst(v: nat, n: nat)
    requires n > 0
    ensures Little(v, n) == [v % 256] + Little(v / 256, n - 1)
  {
    forall i: nat | i < n - 1 ensures ByteOf(v, i + 1) == ByteOf(v / 256, i) {
      ShiftByte(v, Pow256(i));
    }
    assert ByteOf(v, 0) == v % 256;
  }

  lemma ShiftByte(v: nat, p: nat)
    requires p > 0
    ensures v / (256 * p) == v / 256 / p
  {
    var w := v / 256;
    var q, r, s := w / p, w % p, v % 256;
    assert w == p * q + r && v == 256 * w + s;
    assert v == (256 * p) * q + (256 * r + s);
    DivModUnique(v, 256 * p, q, 256 * r + s);
  }

  lemma NestedDivision(v: nat, p: nat)
    requires p > 0
    ensures v / p == 256 * (v / (256 * p)) + v / p % 256
  {
    var w := v / p;
    var q, r, s := w / 256, w % 256, v % p;
    SplitProduct(v, p, w, q, r, s);
    DivModUnique(v, 256 * p, q, p * r + s);
  }

  lemma Distribute(p: nat, a: nat, b: nat)
    ensures p * (a + b) == p * a + p * b
  {
  }

  lemma Regroup(p: nat, q: nat)
    ensures p * (256 * q) == (256 * p) * q
  {
  }

  lemma AtMost255(p: nat, r: nat)
    requires r < 256
    ensures 0 <= p * r <= p * 255
  {
  }

  lemma SplitProduct(v: nat, p: nat, w: nat, q: nat, r: nat, s: nat)
    requires v == p * w + s && w == 256 * q + r && r < 256 && s < p
    ensures v == (256 * p) * q + (p * r + s) && 0 <= p * r + s < 256 * p
  {
    Distribute(p, 256 * q, r);
    Regroup(p, q);
    AtMost255(p, r);
  }

  lemma NextByte(v: nat, i: nat)
    ensures v / Pow256(i) == 256 * (v / Pow256(i + 1)) + ByteOf(v, i)
  {
    NestedDivision(v, Pow256(i));
  }

  /** A word of `n` bytes is determined by its bytes. */
  lemma {:induction false} SameFrom(v: nat, w: nat, n: nat, i: nat)
    requires v < Pow256(n) && w < Pow256(n) && i <= n
    requires Little(v, n) == Little(w, n)
    ensures v / Pow256(i) == w / Pow256(i)
    decreases n - i
  {
    hide Pow256, ByteOf;
    if i < n {
      SameFrom(v, w, n, i + 1);
      NextByte(v, i);
      NextByte(w, i);
      assert Little(v, n)[i] == ByteOf(v, i) && Little(w, n)[i] == ByteOf(w, i);
    } else {
      SmallOverLarge(v, Pow256(n));
      SmallOverLarge(w, Pow256(n));
    }
  }

  lemma SmallOverLarge(v: nat, p: nat)
    requires v < p
    ensures v / p == 0
  {
    DivModUnique(v, p, 0, v);
  }

  lemma LittleInjective(v: nat, w: nat, n: nat)
    requires v < Pow256(n) && w < Pow256(n) && Little(v, n) == Little(w, n)
    ensures v == w
  {
    SameFrom(v, w, n, 0);
  }

  lemma WordSizes()
    ensures Pow256(8) == TWO64 && Pow256(4) == TWO32
  {
    assert Pow256(2) == 65536;
    assert Pow256(4) == 256 * (256 * Pow256(2));
    assert Pow256(6) == 256 * (256 * Pow256(4));
    assert Pow256(8) == 256 * (256 * Pow256(6));
  }

  const MAGIC: seq<Byte> := [65, 78, 88, 45, 73, 68, 69, 78, 84, 73, 84, 89, 45, 118, 49, 0]

  predicate Encodable(c: Commitment) {
    c.schema == 1 && c.id != NIL && c.generation != 0 && c.authority <= AUTH_ALL
  }

  /** The signed bytes. */
  function Wire(c: Commitment): (s: seq<Byte>)
    ensures |s| == WIRE_BYTES
  {
    MAGIC + Little(c.id.hi, 8) + Little(c.id.lo, 8) + Little(c.generation, 8) + Little(c.authority, 4) + c.key + c.prev
  }

  /** The layout of the signed bytes, the tag first. */
  lemma WireParts(c: Commitment)
    ensures forall i | 0 <= i < 15 :: Wire(c)[i] == "ANX-IDENTITY-v1"[i] as nat
    ensures var w := Wire(c);
            && w[15] == 0 && w[16..24] == Little(c.id.hi, 8) && w[24..32] == Little(c.id.lo, 8)
            && w[32..40] == Little(c.generation, 8) && w[40..44] == Little(c.authority, 4)
            && w[44..76] == c.key && w[76..108] == c.prev
  {
    hide Little;
  }

  /** Two commitments the registry can accept never share their bytes. */
  lemma WireInjective(a: Commitment, b: Commitment)
    requires Encodable(a) && Encodable(b) && Wire(a) == Wire(b)
    ensures a == b
  {
    hide Wire, Little, Pow256;
    WireParts(a);
    WireParts(b);
    WordSizes();
    LittleInjective(a.id.hi, b.id.hi, 8);
    LittleInjective(a.id.lo, b.id.lo, 8);
    LittleInjective(a.generation, b.generation, 8);
    LittleInjective(a.authority, b.authority, 4);
  }

  /** `put64` and the authority loop. */
  method PutWord(out: array<Byte>, off: nat, v: nat, n: nat)
    requires off + n <= out.Length
    modifies out
    ensures out[..] == old(out[..off]) + Little(v, n) + old(out[off + n..])
  {
    var i := 0;
    while i < n
      invariant 0 <= i <= n
      invariant out[..off] == old(out[..off]) && out[off + n..] == old(out[off + n..])
      invariant forall k | 0 <= k < i :: out[off + k] == ByteOf(v, k)
    {
      out[off + i] := ByteOf(v, i);
      i := i + 1;
    }
    assert out[off..off + n] == Little(v, n);
    assert out[..] == out[..off] + out[off..off + n] + out[off + n..];
  }

  method PutBytes(out: array<Byte>, off: nat, bytes: seq<Byte>)
    requires off + |bytes| <= out.Length
    modifies out
    ensures out[..] == old(out[..off]) + bytes + old(out[off + |bytes|..])
  {
    var n := |bytes|;
    var i := 0;
    while i < n
      invariant 0 <= i <= n
      invariant out[..off] == old(out[..off]) && out[off + n..] == old(out[off + n..])
      invariant forall k | 0 <= k < i :: out[off + k] == bytes[k]
    {
      out[off + i] := bytes[i];
      i := i + 1;
    }
    assert out[off..off + n] == bytes;
    assert out[..] == out[..off] + out[off..off + n] + out[off + n..];
  }

  /** The fixed-width words of the wire form. */
  method PutHeader(c: Commitment, out: array<Byte>)
    requires out.Length == WIRE_BYTES
    modifies out
    ensures out[..44] == MAGIC + Little(c.id.hi, 8) + Little(c.id.lo, 8) + Little(c.generation, 8)
        + Little(c.authority, 4)
  {
    hide Little;
    PutBytes(out, 0, MAGIC);
    PutWord(out, 16, c.id.hi, 8);
    PutWord(out, 24, c.id.lo, 8);
    PutWord(out, 32, c.generation, 8);
    PutWord(out, 40, c.authority, 4);
  }

  /** `encode`: refuses what is not encodable before writing a byte, else writes the wire form. */
  method Encode(c: Commitment, out: array<Byte>) returns (ok: bool)
    requires out.Length == WIRE_BYTES
    modifies out
    ensures ok <==> Encodable(c)
    ensures ok <==> c.schema == 1 && c.id != Oid(0, 0) && c.generation > 0 && c.authority <= 15
    ensures out[..] == if ok then Wire(c) else old(out[..])
  {
    if !(c.schema == 1 && c.id != NIL && c.generation != 0 && c.authority <= AUTH_ALL) {
      return false;
    }
    hide Little;
    PutHeader(c, out);
    ghost var header := out[..44];
    PutBytes(out, 44, c.key);
    PutBytes(out, 76, c.prev);
    assert out[..] == header + c.key + c.prev;
    return true;
  }

  // ----- histories -----

  datatype Record = Record(commitment: Commitment, signature: seq<Byte>, oid: Oid, parent: Option<Oid>)

  type Hasher = seq<Byte> -> Block
  type Checker = (seq<Byte>, Block, Block) -> bool

  /** What the registry demanded of record `i` of a history. */
  predicate Link(sha: Hasher, check: Checker, id: Oid, h: seq<Record>, i: nat)
    requires i < |h|
  {
    var c := h[i].commitment;
    && Encodable(c) && c.id == id && c.generation == i + 1
    && c.key == h[0].commitment.key && c.key != ZERO
    && check(h[i].signature, sha(Wire(c)), c.key)
    && c.prev == (if i == 0 then ZERO else sha(Wire(h[i - 1].commitment)))
    && h[i].parent == (if i == 0 then None else Some(h[i - 1].oid))
  }

  /** Generations 1, 2, 3, ... under one key, each naming and signed over its predecessor's digest. */
  predicate Chain(sha: Hasher, check: Checker, id: Oid, h: seq<Record>) {
    |h| > 0 && forall i | 0 <= i < |h| :: Link(sha, check, id, h, i)
  }

  lemma ChainExtends(sha: Hasher, check: Checker, id: Oid, h: seq<Record>, r: Record)
    requires Chain(sha, check, id, h) && Link(sha, check, id, h + [r], |h|)
    ensures Chain(sha, check, id, h + [r])
  {
    var all := h + [r];
    forall i | 0 <= i < |all| ensures Link(sha, check, id, all, i) {
      if i < |h| {
        assert Link(sha, check, id, h, i);
      }
    }
  }

  function Head(h: seq<Record>): Commitment
    requires |h| > 0
  {
    h[|h| - 1].commitment
  }

  function Commitments(h: seq<Record>): (s: seq<Commitment>)
    ensures |s| == |h|
  {
    seq(|h|, i requires 0 <= i < |h| => h[i].commitment)
  }

  /** A hash collision: two different byte strings of the wire form with one digest. */
  predicate Collision(sha: Hasher, a: Commitment, b: Commitment) {
    Wire(a) != Wire(b) && sha(Wire(a)) == sha(Wire(b))
  }

  ghost predicate CollidesAt(sha: Hasher, a: seq<Record>, b: seq<Record>, i: nat) {
    i < |a| && i < |b| && Collision(sha, a[i].commitment, b[i].commitment)
  }

  /**
   * The head digest fixes the whole history: two chains with equal head digests hold the same
   * commitments, unless the wire forms of the heads, or of two records at one place, collide.
   */
  lemma HeadFixesHistory(sha: Hasher, check: Checker, ida: Oid, idb: Oid, a: seq<Record>, b: seq<Record>)
    requires Chain(sha, check, ida, a) && Chain(sha, check, idb, b)
    requires sha(Wire(Head(a))) == sha(Wire(Head(b)))
    ensures Commitments(a) == Commitments(b) || Collision(sha, Head(a), Head(b)) || exists i :: CollidesAt(sha, a, b, i)
  {
    hide Wire;
    assert Link(sha, check, ida, a, |a| - 1) && Link(sha, check, idb, b, |b| - 1);
    if !Collision(sha, Head(a), Head(b)) && forall i: nat :: !CollidesAt(sha, a, b, i) {
      WireInjective(Head(a), Head(b));
      AgreeDown(sha, check, ida, idb, a, b, 0);
      assert Commitments(a) == Commitments(b);
    }
  }

  lemma {:induction false} AgreeDown(sha: Hasher, check: Checker, ida: Oid, idb: Oid, a: seq<Record>, b: seq<Record>,
           k: nat)
    requires Chain(sha, check, ida, a) && Chain(sha, check, idb, b) && |a| == |b| && k < |a|
    requires Head(a) == Head(b) && forall i: nat :: !CollidesAt(sha, a, b, i)
    ensures forall i | k <= i < |a| :: a[i].commitment == b[i].commitment
    decreases |a| - k
  {
    hide Wire;
    if k + 1 < |a| {
      AgreeDown(sha, check, ida, idb, a, b, k + 1);
      assert Link(sha, check, ida, a, k + 1) && Link(sha, check, idb, b, k + 1);
      assert Link(sha, check, ida, a, k) && Link(sha, check, idb, b, k);
      assert !CollidesAt(sha, a, b, k);
      WireInjective(a[k].commitment, b[k].commitment);
    }
  }

  // ----- the registry -----

  datatype Status = Ok | Invalid | Perm | Busy | Exists | Full | NoMemory | NotFound | StoreFailed

  datatype View = View(commitment: Commitment, digest: Block, record: Oid)

  function FindIn(entries: seq<View>, id: Oid): (k: int)
    ensures -1 <= k < |entries|
    ensures k >= 0 ==> entries[k].commitment.id == id
    ensures k < 0 ==> forall j | 0 <= j < |entries| :: entries[j].commitment.id != id
  {
    if |entries| == 0 then -1
    else if entries[0].commitment.id == id then 0
    else var k := FindIn(entries[1..], id); if k < 0 then k else k + 1
  }

  /** What `anx_identity_create` asks before it reserves the registry. */
  function CreateCheck(sha: Hasher, check: Checker, root: Commitment, signature: seq<Byte>, inCell: bool): Status {
    if !Encodable(root) || root.generation != 1 || root.prev != ZERO then Invalid
    else if inCell || root.key == ZERO || !check(signature, sha(Wire(root)), root.key) then Perm
    else Ok
  }

  /** What `anx_identity_transition` asks of the current head. */
  function NextCheck(sha: Hasher, check: Checker, head: View, next: Commitment, signature: seq<Byte>): Status {
    if || head.commitment.generation == TWO64 - 1
       || next.generation != head.commitment.generation + 1
       || next.prev != head.digest
    then Busy
    else if next.key != head.commitment.key || !check(signature, sha(Wire(next)), head.commitment.key) then Perm
    else Ok
  }

  /** Entry `e` shows the head of its identity's history. */
  ghost predicate Shows(sha: Hasher, check: Checker, history: map<Oid, seq<Record>>, e: View) {
    var id := e.commitment.id;
    && id in history && Chain(sha, check, id, history[id])
    && e.commitment == Head(history[id]) && e.digest == sha(Wire(e.commitment))
    && e.record == history[id][|history[id]| - 1].oid
  }

  /** The list holds each known identity once and shows its head. */
  ghost predicate Consistent(sha: Hasher, check: Checker, history: map<Oid, seq<Record>>, entries: seq<View>) {
    && (forall k | 0 <= k < |entries| :: Shows(sha, check, history, entries[k]))
    && (forall j, k | 0 <= j < k < |entries| :: entries[j].commitment.id != entries[k].commitment.id)
    && (forall id | id in history :: FindIn(entries, id) >= 0)
  }

  /** Nothing is forgotten: every history is kept and only gains records at its end. */
  ghost predicate Grows(before: map<Oid, seq<Record>>, after: map<Oid, seq<Record>>) {
    forall id | id in before :: id in after && before[id] <= after[id]
  }

  lemma AddRoot(sha: Hasher, check: Checker, history: map<Oid, seq<Record>>, entries: seq<View>,
                root: Commitment, signature: seq<Byte>, oid: Oid)
    requires Consistent(sha, check, history, entries) && FindIn(entries, root.id) < 0
    requires CreateCheck(sha, check, root, signature, false) == Ok
    ensures var h := [Record(root, signature, oid, None)];
            Chain(sha, check, root.id, h) &&
            Consistent(sha, check, history[root.id := h], [View(root, sha(Wire(root)), oid)] + entries)
  {
    hide Shows, FindIn;
    var h := [Record(root, signature, oid, None)];
    var first := View(root, sha(Wire(root)), oid);
    RootShows(sha, check, history, root, signature, oid);
    var after, all := history[root.id := h], [first] + entries;
    forall k | 0 <= k < |all| ensures Shows(sha, check, after, all[k]) {
      if k > 0 {
        ShowsOther(sha, check, history, root.id, h, entries[k - 1]);
      }
    }
    forall id | id in after ensures FindIn(all, id) >= 0 {
      if id != root.id {
        assert all[FindIn(entries, id) + 1].commitment.id == id;
      } else {
        assert all[0].commitment.id == id;
      }
    }
  }

  /** A root passes the checks exactly when it is the first link of a chain and the caller is no cell. */
  lemma RootLink(sha: Hasher, check: Checker, root: Commitment, signature: seq<Byte>, inCell: bool, oid: Oid)
    ensures CreateCheck(sha, check, root, signature, inCell) == Ok <==>
            !inCell && Link(sha, check, root.id, [Record(root, signature, oid, None)], 0)
  {
    hide Wire, Encodable;
  }

  lemma RootShows(sha: Hasher, check: Checker, history: map<Oid, seq<Record>>, root: Commitment, signature: seq<Byte>,
           oid: Oid)
    requires CreateCheck(sha, check, root, signature, false) == Ok
    ensures var h := [Record(root, signature, oid, None)];
            Chain(sha, check, root.id, h) && Shows(sha, check, history[root.id := h], View(root, sha(Wire(root)), oid))
  {
    hide Wire, Encodable;
    assert Link(sha, check, root.id, [Record(root, signature, oid, None)], 0);
  }

  lemma ShowsOther(sha: Hasher, check: Checker, history: map<Oid, seq<Record>>, id: Oid, h: seq<Record>, e: View)
    requires Shows(sha, check, history, e) && e.commitment.id != id
    ensures Shows(sha, check, history[id := h], e)
  {
    hide Wire, Chain;
  }

  lemma AddNext(sha: Hasher, check: Checker, history: map<Oid, seq<Record>>, entries: seq<View>, k: nat,
                next: Commitment, signature: seq<Byte>, oid: Oid)
    requires Consistent(sha, check, history, entries) && k < |entries| && entries[k].commitment.id == next.id
    requires Encodable(next) && NextCheck(sha, check, entries[k], next, signature) == Ok
    ensures next.id in history
    ensures var h := history[next.id] + [Record(next, signature, oid, Some(entries[k].record))];
            Chain(sha, check, next.id, h) &&
            Consistent(sha, check, history[next.id := h], entries[k := View(next, sha(Wire(next)), oid)])
  {
    hide Wire, Encodable, Chain, FindIn, Link;
    assert Shows(sha, check, history, entries[k]);
    var before := history[next.id];
    var r := Record(next, signature, oid, Some(entries[k].record));
    NextLink(sha, check, next.id, before, entries[k], r);
    ChainExtends(sha, check, next.id, before, r);
    var after, all := history[next.id := before + [r]], entries[k := View(next, sha(Wire(next)), oid)];
    forall j | 0 <= j < |all| ensures Shows(sha, check, after, all[j]) {
      assert Shows(sha, check, history, entries[j]);
    }
    forall id | id in after ensures FindIn(all, id) >= 0 {
      var j := FindIn(entries, id);
      assert all[j].commitment.id == id;
    }
  }

  /** A successor passes the checks against the head exactly when it is the next link of the chain. */
  lemma NextLink(sha: Hasher, check: Checker, id: Oid, h: seq<Record>, head: View, r: Record)
    requires Chain(sha, check, id, h) && head.commitment == Head(h) && head.digest == sha(Wire(head.commitment))
    requires head.record == h[|h| - 1].oid && r.parent == Some(head.record)
    requires r.commitment.id == id && Encodable(r.commitment)
    ensures NextCheck(sha, check, head, r.commitment, r.signature) == Ok <==> Link(sha, check, id, h + [r], |h|)
  {
    hide Wire, Encodable;
    assert Link(sha, check, id, h, |h| - 1);
  }

  /** The next record of an identity's history, if the identity is known. */
  ghost predicate Continues(sha: Hasher, check: Checker, history: map<Oid, seq<Record>>, next: Commitment,
                            signature: seq<Byte>, oid: Oid)
  {
    && next.id in history && |history[next.id]| > 0
    && var h := history[next.id];
    Link(sha, check, next.id, h + [Record(next, signature, oid, Some(h[|h| - 1].oid))], |h|)
  }

  lemma ContinuesEncodable(sha: Hasher, check: Checker, history: map<Oid, seq<Record>>, next: Commitment,
                           signature: seq<Byte>, oid: Oid)
    ensures Continues(sha, check, history, next, signature, oid) ==> Encodable(next)
  {
    hide Wire, Encodable;
  }

  lemma OutcomeMeaning(sha: Hasher, check: Checker, history: map<Oid, seq<Record>>, entries: seq<View>,
                       next: Commitment, signature: seq<Byte>, oid: Oid)
    requires Consistent(sha, check, history, entries) && Encodable(next)
    ensures var k := FindIn(entries, next.id);
            (k >= 0 && NextCheck(sha, check, entries[k], next, signature) == Ok) <==>
            Continues(sha, check, history, next, signature, oid)
  {
    hide Wire, Encodable, NextCheck, Chain, Link;
    var k := FindIn(entries, next.id);
    if k >= 0 {
      assert Shows(sha, check, history, entries[k]);
      NonEmpty(sha, check, next.id, history[next.id]);
      var r := Record(next, signature, oid, Some(entries[k].record));
      NextLink(sha, check, next.id, history[next.id], entries[k], r);
    }
  }

  lemma NonEmpty(sha: Hasher, check: Checker, id: Oid, h: seq<Record>)
    requires Chain(sha, check, id, h)
    ensures |h| > 0
  {
  }

  /** As many entries as identities. */
  lemma EntriesCount(sha: Hasher, check: Checker, history: map<Oid, seq<Record>>, entries: seq<View>)
    requires Consistent(sha, check, history, entries)
    ensures |entries| == |history|
  {
    hide Chain, Wire;
    IdsCount(entries);
    assert forall k | 0 <= k < |entries| :: Shows(sha, check, history, entries[k]);
    forall id ensures id in history <==> id in Ids(entries) {
      if id in history {
        assert entries[FindIn(entries, id)].commitment.id == id;
      }
    }
    assert history.Keys == Ids(entries);
  }

  ghost function Ids(entries: seq<View>): set<Oid> {
    set k | 0 <= k < |entries| :: entries[k].commitment.id
  }

  lemma {:induction false} IdsCount(entries: seq<View>)
    requires forall j, k | 0 <= j < k < |entries| :: entries[j].commitment.id != entries[k].commitment.id
    ensures |Ids(entries)| == |entries|
  {
    if |entries| > 0 {
      var n := |entries| - 1;
      IdsCount(entries[..n]);
      assert Ids(entries) == Ids(entries[..n]) + {entries[n].commitment.id};
    } else {
      assert Ids(entries) == {};
    }
  }

  class Registry {
    const sha: Hasher
    const check: Checker
    var entries: seq<View>
    var writing: bool
    ghost var history: map<Oid, seq<Record>>
    ghost var writers: set<nat>

    ghost predicate Valid()
      reads this
    {
      && |entries| <= MAX
      && Consistent(sha, check, history, entries)
      && |writers| <= 1 && (writing <==> writers != {})
    }

    constructor (hash: Hasher, verify: Checker)
      ensures Valid() && sha == hash && check == verify && entries == [] && history == map[] && writers == {}
    {
      sha, check := hash, verify;
      entries, writing, history, writers := [], false, map[], {};
    }

    /** `begin_write`: at most one caller is ever inside. */
    method BeginWrite(caller: nat) returns (st: Status)
      requires Valid() && caller !in writers
      modifies this`writing, this`writers
      ensures Valid()
      ensures st == (if old(writing) then Busy else Ok) && writing
      ensures writers == if st == Ok then {caller} else old(writers)
    {
      if writing {
        return Busy;
      }
      writing, writers := true, {caller};
      return Ok;
    }

    method EndWrite(caller: nat)
      requires Valid() && caller in writers
      modifies this`writing, this`writers
      ensures Valid() && writers == {} && !writing
    {
      assert |writers - {caller}| == 0;
      writing, writers := false, writers - {caller};
    }

    method FindEntry(id: Oid) returns (k: int)
      ensures k == FindIn(entries, id)
    {
      var i := 0;
      assert entries[0..] == entries;
      while i < |entries|
        invariant 0 <= i <= |entries|
        invariant FindIn(entries, id) == var r := FindIn(entries[i..], id); if r < 0 then -1 else r + i
      {
        if entries[i].commitment.id == id {
          return i;
        }
        assert entries[i..][1..] == entries[i + 1..];
        i := i + 1;
      }
      return -1;
    }

    /** The part of `anx_identity_create` that owns the registry. */
    method CreateReserved(caller: nat, root: Commitment, signature: seq<Byte>, memory: bool, record: Option<Oid>)
      returns (st: Status)
      requires Valid() && caller in writers && CreateCheck(sha, check, root, signature, false) == Ok
      modifies this
      ensures Valid() && writers == {}
      ensures st == if FindIn(old(entries), root.id) >= 0 then Exists
                    else if |old(entries)| == MAX then Full
                    else if !memory then NoMemory
                    else if record.None? then StoreFailed
                    else Ok
      ensures st != Ok ==> entries == old(entries) && history == old(history)
      ensures st == Ok ==> root.id !in old(history)
      ensures st == Ok ==> history == old(history)[root.id := [Record(root, signature, record.value, None)]]
      ensures Grows(old(history), history)
    {
      hide Consistent, CreateCheck, Wire, FindIn;
      var k := FindEntry(root.id);
      if k >= 0 {
        st := Exists;
      } else if |entries| == MAX {
        st := Full;
      } else if !memory {
        st := NoMemory;
      } else if record.None? {
        st := StoreFailed;
      } else {
        AddRoot(sha, check, history, entries, root, signature, record.value);
        Unknown(sha, check, history, entries, root.id);
        entries := [View(root, sha(Wire(root)), record.value)] + entries;
        history := history[root.id := [Record(root, signature, record.value, None)]];
        st := Ok;
      }
      EndWrite(caller);
    }

    /** `anx_identity_create`, from first check to release. */
    method Create(caller: nat, root: Commitment, signature: seq<Byte>, inCell: bool, memory: bool, record: Option<Oid>)
      returns (st: Status)
      requires Valid() && caller !in writers
      modifies this
      ensures Valid() && Grows(old(history), history)
      ensures st == var early := CreateCheck(sha, check, root, signature, inCell);
                    if early != Ok then early
                    else if old(writing) then Busy
                    else if FindIn(old(entries), root.id) >= 0 then Exists
                    else if |old(entries)| == MAX then Full
                    else if !memory then NoMemory
                    else if record.None? then StoreFailed
                    else Ok
      ensures writers == old(writers)
      ensures st == Ok <==>
          && !inCell && !old(writing) && root.id !in old(history) && |old(history)| < 256 && memory && record.Some?
          && Link(sha, check, root.id, [Record(root, signature, record.value, None)], 0)
      ensures history == if st == Ok then old(history)[root.id := [Record(root, signature, record.value, None)]]
                         else old(history)
    {
      hide Consistent, CreateCheck, Wire, FindIn, Link;
      RootLink(sha, check, root, signature, inCell, if record.Some? then record.value else NIL);
      CreateRoom(sha, check, history, entries, root.id);
      Unmoved(history);
      st := CreateCheck(sha, check, root, signature, inCell);
      if st != Ok {
        return;
      }
      st := BeginWrite(caller);
      if st == Ok {
        st := CreateReserved(caller, root, signature, memory, record);
      }
    }

    /** The verdict on a successor against a list of heads. */
    function Outcome(heads: seq<View>, next: Commitment, signature: seq<Byte>, record: Option<Oid>): (st: Status)
      ensures st == Ok ==> record.Some?
    {
      var k := FindIn(heads, next.id);
      if k < 0 then NotFound
      else var head := NextCheck(sha, check, heads[k], next, signature);
           if head != Ok then head else if record.None? then StoreFailed else Ok
    }

    /** The part of `anx_identity_transition` that owns the registry. */
    method TransitionReserved(caller: nat, next: Commitment, signature: seq<Byte>, record: Option<Oid>)
      returns (st: Status)
      requires Valid() && caller in writers && Encodable(next)
      modifies this
      ensures Valid() && writers == {}
      ensures st == Outcome(old(entries), next, signature, record)
      ensures st == Ok <==> record.Some? && Continues(sha, check, old(history), next, signature, record.value)
      ensures st != Ok ==> entries == old(entries) && history == old(history)
      ensures st == Ok ==> next.id in old(history) && |old(history)[next.id]| > 0
      ensures st == Ok ==> var h := old(history)[next.id];
                           history == old(history)[next.id := h
                             + [Record(next, signature, record.value, Some(h[|h| - 1].oid))]]
      ensures Grows(old(history), history)
    {
      hide Consistent, Encodable, NextCheck, Wire, Chain, Continues;
      if record.Some? {
        OutcomeMeaning(sha, check, history, entries, next, signature, record.value);
      }
      var k := FindEntry(next.id);
      if k < 0 {
        st := NotFound;
      } else {
        st := NextCheck(sha, check, entries[k], next, signature);
        if st == Ok {
          if record.None? {
            st := StoreFailed;
          } else {
            Known(sha, check, history, entries, k);
            AddNext(sha, check, history, entries, k, next, signature, record.value);
            history := history[next.id := history[next.id]
              + [Record(next, signature, record.value, Some(entries[k].record))]];
            entries := entries[k := View(next, sha(Wire(next)), record.value)];
          }
        }
      }
      EndWrite(caller);
    }

    /** `anx_identity_transition`, from first check to release. */
    method Transition(caller: nat, next: Commitment, signature: seq<Byte>, record: Option<Oid>) returns (st: Status)
      requires Valid() && caller !in writers
      modifies this
      ensures Valid() && Grows(old(history), history) && writers == old(writers)
      ensures st == Ok <==>
          !old(writing) && record.Some? && Continues(sha, check, old(history), next, signature, record.value)
      ensures st == if !Encodable(next) then Invalid
                    else if old(writing) then Busy
                    else Outcome(old(entries), next, signature, record)
      ensures st != Ok ==> history == old(history)
      ensures st == Ok ==> next.id in old(history) && |old(history)[next.id]| > 0
      ensures st == Ok ==> var h := old(history)[next.id];
                           history == old(history)[next.id := h
                             + [Record(next, signature, record.value, Some(h[|h| - 1].oid))]]
    {
      if record.Some? {
        ContinuesEncodable(sha, check, history, next, signature, record.value);
      }
      hide Consistent, NextCheck, Wire, Chain, Encodable, FindIn, Grows, Outcome, Continues;
      if !Encodable(next) {
        Unmoved(history);
        return Invalid;
      }
      st := BeginWrite(caller);
      if st == Ok {
        st := TransitionReserved(caller, next, signature, record);
      } else {
        Unmoved(history);
      }
    }

    /** `anx_identity_get`: the head of the identity's history, or nothing when it has none. */
    method Get(id: Oid) returns (view: Option<View>)
      requires Valid()
      ensures view.Some? <==> id in history
      ensures view.Some? ==> |history[id]| > 0 && view.value.commitment == Head(history[id]) &&
                             view.value.digest == sha(Wire(Head(history[id]))) &&
                             view.value.record == history[id][|history[id]| - 1].oid
    {
      hide Wire, Chain;
      var k := FindEntry(id);
      if k >= 0 {
        assert Shows(sha, check, history, entries[k]);
        Known(sha, check, history, entries, k);
        return Some(entries[k]);
      }
      return None;
    }
  }

  lemma CreateRoom(sha: Hasher, check: Checker, history: map<Oid, seq<Record>>, entries: seq<View>, id: Oid)
    requires Consistent(sha, check, history, entries)
    ensures FindIn(entries, id) >= 0 <==> id in history
    ensures |entries| == |history|
  {
    EntriesCount(sha, check, history, entries);
    hide Chain, Wire;
    if FindIn(entries, id) >= 0 {
      assert Shows(sha, check, history, entries[FindIn(entries, id)]);
    }
  }

  lemma Unmoved(history: map<Oid, seq<Record>>)
    ensures Grows(history, history)
  {
  }

  lemma Unknown(sha: Hasher, check: Checker, history: map<Oid, seq<Record>>, entries: seq<View>, id: Oid)
    requires Consistent(sha, check, history, entries) && FindIn(entries, id) < 0
    ensures id !in history
  {
  }

  lemma Known(sha: Hasher, check: Checker, history: map<Oid, seq<Record>>, entries: seq<View>, k: nat)
    requires Consistent(sha, check, history, entries) && k < |entries|
    ensures var id := entries[k].commitment.id;
            id in history && |history[id]| > 0 && entries[k].record == history[id][|history[id]| - 1].oid
  {
    assert Shows(sha, check, history, entries[k]);
  }
}
