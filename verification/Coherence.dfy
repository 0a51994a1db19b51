/** Exact agreement between the key tables and the server's slot array. */
module Coherence {
  import opened Basics
  import opened KeyTables
  import opened SlotArray

  function KeyOf(n: Node): RowKey {
    RowKey(n.client, n.server, n.keyId)
  }

  function PairOf(k: RowKey): Pair {
    Pair(k.client, k.server)
  }

  /** The row of `k` exists and holds this key material. */
  predicate Holds(t: Tables, k: RowKey, secret: Text) {
    k in t.rows && t.rows[k].secret == secret
  }

  /** A used slot or a reply agrees with the row that its key id names. */
  predicate NodeOk(t: Tables, n: Node) {
    n != EMPTY ==> Holds(t, KeyOf(n), n.secret)
  }

  ghost predicate SlotsOk(t: Tables, ss: seq<Node>) {
    forall i | 0 <= i < |ss| :: NodeOk(t, ss[i])
  }

  lemma SlotsStay(t: Tables, ss: seq<Node>, n: Node, p: Pair)
    requires SlotsOk(t, ss) && NodeOk(t, n)
    ensures SlotsOk(t, Write(ss, n).0) && SlotsOk(t, SetStatus(ss, p, 0).0)
  {
    var i := FindPair(ss, p);
    if i < |ss| {
      assert NodeOk(t, ss[i]);
      assert NodeOk(t, ss[i].(status := 0));
    }
  }

  lemma ReadOk(t: Tables, ss: seq<Node>, p: Pair)
    requires SlotsOk(t, ss)
    ensures NodeOk(t, Read(ss, p))
    ensures Read(ss, p) != EMPTY ==> Read(ss, p).Of() == p
  {
  }

  /** An Active row is the newest row of its pair. */
  ghost predicate NewestActive(t: Tables) {
    forall k, l | l in t.rows && IsActive(t, k) && l.OfPair(PairOf(k)) :: l.keyId <= k.keyId
  }

  /**
    The slot holds the newest key of its pair and that row's material, and its
    status is 1 exactly when the row is Active.
   */
  ghost predicate SlotCoherent(t: Tables, n: Node) {
    && KeyOf(n) in t.rows
    && t.rows[KeyOf(n)].secret == n.secret
    && (forall l | l in t.rows && l.OfPair(n.Of()) :: l.keyId <= n.keyId)
    && n.status == (if t.rows[KeyOf(n)].state == Active then 1 else 0)
  }

  ghost predicate Coherent(t: Tables, ss: seq<Node>) {
    && IdsOk(t) && NewestActive(t) && Packed(ss)
    && forall i | 0 <= i < FindEmpty(ss) :: SlotCoherent(t, ss[i])
  }

  /** The slot that `shmRead` finds, when the pair is cached. */
  predicate IsCached(ss: seq<Node>, p: Pair) {
    FindPair(ss, p) < FindEmpty(ss)
  }

  /** Either no slot answers to `p`, or its slot does, or an unused slot does (for the empty pair). */
  lemma ReadCached(ss: seq<Node>, p: Pair)
    requires Packed(ss)
    ensures IsCached(ss, p) ==> Read(ss, p) == ss[FindPair(ss, p)] && Read(ss, p).Of() == p && Solid(Read(ss, p))
    ensures !IsCached(ss, p) ==> Read(ss, p) == EMPTY && SetStatus(ss, p, 0).0 == ss
  {
    var i := FindPair(ss, p);
    if FindEmpty(ss) <= i < |ss| {
      assert ss[i] == EMPTY;
      assert ss[i := ss[i].(status := 0)] == ss;
    }
  }

  /** An Active row of a cached pair is the one in the slot. */
  lemma ActiveIsCachedKey(t: Tables, ss: seq<Node>, k: RowKey)
    requires Coherent(t, ss) && IsActive(t, k) && IsCached(ss, PairOf(k))
    ensures Read(ss, PairOf(k)).keyId == k.keyId && Read(ss, PairOf(k)).status == 1
  {
    var p := PairOf(k);
    ReadCached(ss, p);
    var n := Read(ss, p);
    assert SlotCoherent(t, n);
    assert k.OfPair(n.Of()) && KeyOf(n).OfPair(p);
  }

  // ----- agreement ----------------------------------------------------------------

  lemma AgreeNewest(t: Tables, p: Pair, secret: Text, now: int)
    requires IdsOk(t) && AgreeEnabled(t, p) && NewestActive(t)
    ensures NewestActive(Agree(t, p, secret, now))
  {
    var t' := Agree(t, p, secret, now);
    var new_ := NewKey(t, p);
    forall k, l | l in t'.rows && IsActive(t', k) && l.OfPair(PairOf(k))
      ensures l.keyId <= k.keyId
    {
      if k == new_ {
        assert l == new_ || l in t.rows;
      } else {
        assert IsActive(t, k) && !k.OfPair(p);
        assert l in t.rows;
      }
    }
  }

  lemma AgreeSlot(t: Tables, n: Node, p: Pair, secret: Text, now: int)
    requires IdsOk(t) && AgreeEnabled(t, p) && SlotCoherent(t, n) && n.Of() != p
    ensures SlotCoherent(Agree(t, p, secret, now), n)
  {
    var t' := Agree(t, p, secret, now);
    assert KeyOf(n) != NewKey(t, p);
    assert forall l | l in t'.rows && l.OfPair(n.Of()) :: l in t.rows;
  }

  lemma NewSlot(t: Tables, p: Pair, secret: Text, now: int)
    requires IdsOk(t) && AgreeEnabled(t, p)
    ensures SlotCoherent(Agree(t, p, secret, now), Node(1, t.counter.value, p.client, p.server, secret))
  {
    var t' := Agree(t, p, secret, now);
    assert forall l | l in t'.rows :: l in t.rows || l == NewKey(t, p);
  }

  /** The committed agreement followed by the cache write. */
  lemma AgreeCoherent(t: Tables, ss: seq<Node>, p: Pair, secret: Text, now: int)
    requires Coherent(t, ss) && AgreeEnabled(t, p)
    ensures Coherent(Agree(t, p, secret, now), Write(ss, Node(1, t.counter.value, p.client, p.server, secret)).0)
    ensures Write(ss, Node(1, t.counter.value, p.client, p.server, secret)).1 == 0
            <==> IsCached(ss, p) || FindEmpty(ss) < |ss|
  {
    var n := Node(1, t.counter.value, p.client, p.server, secret);
    var t' := Agree(t, p, secret, now);
    var k := if IsCached(ss, p) then FindPair(ss, p) else FindEmpty(ss);
    AgreeIds(t, p, secret, now);
    AgreeNewest(t, p, secret, now);
    NewSlot(t, p, secret, now);
    WritePlace(ss, n);
    CachedIndex(ss, p);
    if k < |ss| {
      PutPacked(ss, k, n);
      EmptyAfter(ss, k, n);
    }
    var ss' := Write(ss, n).0;
    forall i | 0 <= i < FindEmpty(ss')
      ensures SlotCoherent(t', ss'[i])
    {
      if i != k {
        assert ss'[i] == ss[i] && i < FindEmpty(ss);
        assert ss[i].Of() != p by { assert Cached(ss)[i] == ss[i].Of(); }
        AgreeSlot(t, ss[i], p, secret, now);
      }
    }
  }

  // ----- revocation and expiry -------------------------------------------------------

  lemma RetireOtherSlot(t: Tables, n: Node, k: RowKey, st: KeyState, now: int)
    requires SlotCoherent(t, n) && IsActive(t, k) && st != Active && KeyOf(n) != k
    ensures SlotCoherent(t.(rows := t.rows[k := Retire(t.rows[k], st, now)]), n)
  {
  }

  /** An Active row leaves Active and the pair's slot, if any, is disabled. */
  lemma RetireCoherent(t: Tables, ss: seq<Node>, k: RowKey, st: KeyState, now: int)
    requires Coherent(t, ss) && IsActive(t, k) && st != Active
    ensures Coherent(t.(rows := t.rows[k := Retire(t.rows[k], st, now)]), SetStatus(ss, PairOf(k), 0).0)
  {
    var p := PairOf(k);
    var t' := t.(rows := t.rows[k := Retire(t.rows[k], st, now)]);
    assert t'.rows.Keys == t.rows.Keys;
    assert IdsOk(t') && NewestActive(t');
    ReadCached(ss, p);
    var j := FindPair(ss, p);
    var ss' := SetStatus(ss, p, 0).0;
    if IsCached(ss, p) {
      ActiveIsCachedKey(t, ss, k);
      CachedIndex(ss, p);
      PutPacked(ss, j, ss[j].(status := 0));
      EmptyAfter(ss, j, ss[j].(status := 0));
      assert SlotCoherent(t, ss[j]);
    }
    forall i | 0 <= i < FindEmpty(ss')
      ensures SlotCoherent(t', ss'[i])
    {
      if !IsCached(ss, p) || i != j {
        assert ss'[i] == ss[i] && SlotCoherent(t, ss[i]);
        CachedIndex(ss, p);
        assert ss[i].Of() != p;
        RetireOtherSlot(t, ss[i], k, st, now);
      }
    }
  }

  /** Disabling the slot of a key that is not Active changes nothing. */
  lemma DisableDead(t: Tables, ss: seq<Node>, p: Pair, keyId: int)
    requires Coherent(t, ss) && !IsActive(t, RowKey(p.client, p.server, keyId))
    requires IsCached(ss, p) ==> Read(ss, p).keyId == keyId
    ensures SetStatus(ss, p, 0).0 == ss
  {
    ReadCached(ss, p);
    if IsCached(ss, p) {
      var n := Read(ss, p);
      assert SlotCoherent(t, n);
      assert KeyOf(n) == RowKey(p.client, p.server, keyId);
      assert n.(status := 0) == n;
    }
  }

  /** The pair's slot holds this very key. */
  predicate HoldsKey(ss: seq<Node>, k: RowKey) {
    IsCached(ss, PairOf(k)) && Read(ss, PairOf(k)).keyId == k.keyId
  }

  /** A check that fails disables the slot only if it holds the key that was checked. */
  function AfterFailedCheck(ss: seq<Node>, k: RowKey): seq<Node> {
    if HoldsKey(ss, k) then SetStatus(ss, PairOf(k), 0).0 else ss
  }

  /** A check of a row: it expires if due, and the slot is disabled if it holds that key. */
  lemma ExpireCoherent(t: Tables, ss: seq<Node>, k: RowKey, now: int)
    requires Coherent(t, ss)
    ensures IsActive(ExpireRow(t, k, now), k) ==> ExpireRow(t, k, now) == t
    ensures !IsActive(ExpireRow(t, k, now), k) ==> Coherent(ExpireRow(t, k, now), AfterFailedCheck(ss, k))
    ensures !HoldsKey(ss, k) && IsCached(ss, PairOf(k)) ==> ExpireRow(t, k, now) == t
  {
    var p := PairOf(k);
    ReadCached(ss, p);
    if IsActive(t, k) && t.rows[k].expire <= now {
      RetireCoherent(t, ss, k, Expired, now);
      if IsCached(ss, p) { ActiveIsCachedKey(t, ss, k); }
    } else if !IsActive(t, k) && IsCached(ss, p) && Read(ss, p).keyId == k.keyId {
      DisableDead(t, ss, p, k.keyId);
    }
  }
}
