/**
  `SecKeyShm`: the fixed-size slot array in shared memory that caches one
  session key per pair, and its refinement of a bounded map.
 */
module SlotArray {
  import opened Basics

  /** One `NodeSHMInfo`; the character arrays hold NUL-free text that fits them. */
  datatype Node = Node(status: int, keyId: int, client: Text, server: Text, secret: Text) {
    function Of(): Pair {
      Pair(client, server)
    }
  }

  /** A zero-filled slot. */
  const EMPTY := Node(0, 0, [], [], [])

  /** Distinguishable from an unused slot whatever its status becomes. */
  predicate Solid(n: Node) {
    n.(status := 0) != EMPTY
  }

  // ----- the three operations as functions of the slots ----------------------------

  function FindPair(ss: seq<Node>, p: Pair): (i: nat)
    ensures i <= |ss|
    ensures i < |ss| ==> ss[i].Of() == p
    ensures forall j | 0 <= j < i :: ss[j].Of() != p
  {
    if ss == [] || ss[0].Of() == p then 0 else 1 + FindPair(ss[1..], p)
  }

  function FindEmpty(ss: seq<Node>): (i: nat)
    ensures i <= |ss|
    ensures i < |ss| ==> ss[i] == EMPTY
    ensures forall j | 0 <= j < i :: ss[j] != EMPTY
  {
    if ss == [] || ss[0] == EMPTY then 0 else 1 + FindEmpty(ss[1..])
  }

  function Write(ss: seq<Node>, n: Node): (seq<Node>, int) {
    var i := FindPair(ss, n.Of());
    if i < |ss| then (ss[i := n], 0)
    else
      var j := FindEmpty(ss);
      if j < |ss| then (ss[j := n], 0) else (ss, -1)
  }

  function Read(ss: seq<Node>, p: Pair): Node {
    var i := FindPair(ss, p);
    if i < |ss| then ss[i] else EMPTY
  }

  function SetStatus(ss: seq<Node>, p: Pair, status: int): (seq<Node>, int) {
    var i := FindPair(ss, p);
    if i < |ss| then (ss[i := ss[i].(status := status)], 0) else (ss, -1)
  }

  // ----- the array ---------------------------------------------------------------------

  class SecKeyShm {
    const slots: array<Node>

    constructor (maxNode: nat)
      ensures fresh(slots) && slots[..] == seq(maxNode, _ => EMPTY)
    {
      slots := new Node[maxNode](_ => EMPTY);
    }

    method ShmInit()
      modifies slots
      ensures slots[..] == seq(slots.Length, _ => EMPTY)
    {
      for i := 0 to slots.Length
        invariant forall j | 0 <= j < i :: slots[j] == EMPTY
      {
        slots[i] := EMPTY;
      }
    }

    /** Overwrites the pair's slot, or else takes the first empty one; -1 when neither exists. */
    method ShmWrite(n: Node) returns (ret: int)
      modifies slots
      ensures (slots[..], ret) == Write(old(slots[..]), n)
    {
      var i := 0;
      while i < slots.Length
        invariant 0 <= i <= slots.Length
        invariant forall j | 0 <= j < i :: slots[j].Of() != n.Of()
      {
        if slots[i].Of() == n.Of() {
          assert FindPair(slots[..], n.Of()) == i;
          slots[i] := n;
          return 0;
        }
        i := i + 1;
      }
      assert FindPair(slots[..], n.Of()) == slots.Length;
      ret := -1;
      i := 0;
      while i < slots.Length
        invariant 0 <= i <= slots.Length
        invariant forall j | 0 <= j < i :: slots[j] != EMPTY
      {
        if slots[i] == EMPTY {
          assert FindEmpty(slots[..]) == i;
          slots[i] := n;
          return 0;
        }
        i := i + 1;
      }
      assert FindEmpty(slots[..]) == slots.Length;
    }

    /** The pair's slot, or an all-zero node. */
    method ShmRead(p: Pair) returns (n: Node)
      ensures n == Read(slots[..], p)
    {
      n := EMPTY;
      var i := 0;
      while i < slots.Length
        invariant 0 <= i <= slots.Length
        invariant forall j | 0 <= j < i :: slots[j].Of() != p
      {
        if slots[i].Of() == p {
          assert FindPair(slots[..], p) == i;
          return slots[i];
        }
        i := i + 1;
      }
      assert FindPair(slots[..], p) == slots.Length;
    }

    method ShmUpdateStatus(p: Pair, status: int) returns (ret: int)
      modifies slots
      ensures (slots[..], ret) == SetStatus(old(slots[..]), p, status)
    {
      var i := 0;
      while i < slots.Length
        invariant 0 <= i <= slots.Length
        invariant forall j | 0 <= j < i :: slots[j].Of() != p
      {
        if slots[i].Of() == p {
          assert FindPair(slots[..], p) == i;
          slots[i] := slots[i].(status := status);
          return 0;
        }
        i := i + 1;
      }
      assert FindPair(slots[..], p) == slots.Length;
      return -1;
    }
  }

  // ----- refinement of a bounded map -----------------------------------------------

  /** The occupied slots form a prefix. */
  predicate Packed(ss: seq<Node>) {
    && (forall i | 0 <= i < |ss| :: ss[i] != EMPTY <==> i < FindEmpty(ss))
    && (forall i | 0 <= i < FindEmpty(ss) :: Solid(ss[i]))
    && (forall i, j | 0 <= i < j < FindEmpty(ss) :: ss[i].Of() != ss[j].Of())
  }

  /** The pairs in the occupied slots, in slot order. */
  function Cached(ss: seq<Node>): (ps: seq<Pair>) {
    seq(FindEmpty(ss), i requires 0 <= i < FindEmpty(ss) => ss[i].Of())
  }

  /** The slots hold exactly the entries of `m`. */
  ghost predicate Refines(ss: seq<Node>, m: map<Pair, Node>) {
    && Packed(ss)
    && (forall p :: p in m <==> p in Cached(ss))
    && (forall i | 0 <= i < FindEmpty(ss) :: ss[i].Of() in m && m[ss[i].Of()] == ss[i])
    && |m| == FindEmpty(ss)
  }

  /** A write into a map of at most `max` entries. */
  function MapWrite(m: map<Pair, Node>, max: nat, n: Node): (map<Pair, Node>, int) {
    if n.Of() in m || |m| < max then (m[n.Of() := n], 0) else (m, -1)
  }

  function MapRead(m: map<Pair, Node>, p: Pair): Node {
    if p in m then m[p] else EMPTY
  }

  function MapStatus(m: map<Pair, Node>, p: Pair, status: int): map<Pair, Node> {
    if p in m then m[p := m[p].(status := status)] else m
  }

  lemma CachedIndex(ss: seq<Node>, p: Pair)
    requires Packed(ss)
    ensures p in Cached(ss) <==> FindPair(ss, p) < FindEmpty(ss)
    ensures forall i | 0 <= i < FindEmpty(ss) && ss[i].Of() == p :: FindPair(ss, p) == i
  {
    if p in Cached(ss) {
      var i :| 0 <= i < FindEmpty(ss) && Cached(ss)[i] == p;
      assert ss[i].Of() == p;
    }
    if FindPair(ss, p) < FindEmpty(ss) {
      assert Cached(ss)[FindPair(ss, p)] == p;
    }
  }

  /** Where a write lands. */
  lemma WritePlace(ss: seq<Node>, n: Node)
    requires Packed(ss) && Solid(n)
    ensures var k := if FindPair(ss, n.Of()) < FindEmpty(ss) then FindPair(ss, n.Of()) else FindEmpty(ss);
            Write(ss, n) == if k < |ss| then (ss[k := n], 0) else (ss, -1)
  {
    var i, e := FindPair(ss, n.Of()), FindEmpty(ss);
    if e <= i < |ss| {
      // an unused slot answers to the empty pair: it is then the first unused one
      assert ss[i] == EMPTY && ss[e] == EMPTY;
      assert i == e;
    }
  }

  lemma EmptyAfter(ss: seq<Node>, k: nat, n: Node)
    requires Packed(ss) && Solid(n) && k < |ss| && k <= FindEmpty(ss)
    ensures FindEmpty(ss[k := n]) == if k == FindEmpty(ss) then k + 1 else FindEmpty(ss)
  {
    var ss' := ss[k := n];
    var e := FindEmpty(ss');
    assert forall i | 0 <= i < |ss'| && i != k :: ss'[i] == ss[i];
    if e < |ss'| { assert ss'[e] == EMPTY; assert e >= FindEmpty(ss); }
    if FindEmpty(ss) < |ss| { assert ss[FindEmpty(ss)] == EMPTY; }
    var e' := if k == FindEmpty(ss) then k + 1 else FindEmpty(ss);
    if e' < |ss'| { assert ss'[e'] == EMPTY; }
  }

  /** Replacing an entry, or filling the first unused slot with a new pair. */
  ghost predicate Placeable(ss: seq<Node>, k: nat, n: Node) {
    && Packed(ss) && Solid(n) && k < |ss| && k <= FindEmpty(ss)
    && if k < FindEmpty(ss) then ss[k].Of() == n.Of() else n.Of() !in Cached(ss)
  }

  /** Apart from the slot itself nothing changes, and the pair in it is not in another. */
  lemma PutElsewhere(ss: seq<Node>, k: nat, n: Node)
    requires Placeable(ss, k, n)
    ensures forall i | 0 <= i < FindEmpty(ss) && i != k :: ss[k := n][i] == ss[i] && ss[i].Of() != n.Of()
  {
    forall i | 0 <= i < FindEmpty(ss) && i != k
      ensures ss[k := n][i] == ss[i] && ss[i].Of() != n.Of()
    {
      assert Cached(ss)[i] in Cached(ss);
    }
  }

  lemma PutPacked(ss: seq<Node>, k: nat, n: Node)
    requires Placeable(ss, k, n)
    ensures Packed(ss[k := n])
    ensures Cached(ss[k := n]) == if k < FindEmpty(ss) then Cached(ss) else Cached(ss) + [n.Of()]
  {
    EmptyAfter(ss, k, n);
    PutElsewhere(ss, k, n);
    var ss' := ss[k := n];
    assert forall i | 0 <= i < |ss'| && i != k :: ss'[i] == ss[i];
  }

  lemma PutRefines(ss: seq<Node>, m: map<Pair, Node>, k: nat, n: Node)
    requires Refines(ss, m) && Placeable(ss, k, n)
    ensures Refines(ss[k := n], m[n.Of() := n])
    ensures Cached(ss[k := n]) == if k < FindEmpty(ss) then Cached(ss) else Cached(ss) + [n.Of()]
  {
    var ss', m' := ss[k := n], m[n.Of() := n];
    EmptyAfter(ss, k, n);
    PutPacked(ss, k, n);
    forall p
      ensures p in m' <==> p in Cached(ss')
    {
      if k < FindEmpty(ss) { assert Cached(ss)[k] == n.Of(); }
    }
    forall i | 0 <= i < FindEmpty(ss')
      ensures ss'[i].Of() in m' && m'[ss'[i].Of()] == ss'[i]
    {
      assert Cached(ss')[i] in Cached(ss');
      if i != k { assert ss'[i] == ss[i] && ss'[i].Of() != ss'[k].Of(); }
    }
  }

  /** `shmWrite` is the bounded map write, with the same return value. */
  lemma WriteRefines(ss: seq<Node>, m: map<Pair, Node>, n: Node)
    requires Refines(ss, m) && Solid(n)
    ensures Refines(Write(ss, n).0, MapWrite(m, |ss|, n).0)
    ensures Write(ss, n).1 == MapWrite(m, |ss|, n).1
    ensures Cached(Write(ss, n).0) ==
            if n.Of() in m || |m| == |ss| then Cached(ss) else Cached(ss) + [n.Of()]
  {
    CachedIndex(ss, n.Of());
    WritePlace(ss, n);
    var i, e := FindPair(ss, n.Of()), FindEmpty(ss);
    if i < e {
      PutRefines(ss, m, i, n);
    } else if e < |ss| {
      PutRefines(ss, m, e, n);
    }
  }

  lemma ReadRefines(ss: seq<Node>, m: map<Pair, Node>, p: Pair)
    requires Refines(ss, m)
    ensures Read(ss, p) == MapRead(m, p)
  {
    CachedIndex(ss, p);
  }

  /**
    `shmUpdateStatus` changes the entry of a cached pair. It reports 0 exactly
    for a cached pair, except that the empty pair also matches an unused slot;
    that match is harmless while only status 0 is written.
   */
  lemma StatusRefines(ss: seq<Node>, m: map<Pair, Node>, p: Pair, status: int)
    requires Refines(ss, m) && (status == 0 || p != EMPTY.Of())
    ensures Refines(SetStatus(ss, p, status).0, MapStatus(m, p, status))
    ensures SetStatus(ss, p, status).1 == 0 <==> p in m || (p == EMPTY.Of() && |m| < |ss|)
    ensures Cached(SetStatus(ss, p, status).0) == Cached(ss)
  {
    CachedIndex(ss, p);
    var i, e := FindPair(ss, p), FindEmpty(ss);
    if e < |ss| {
      assert ss[e].Of() == EMPTY.Of();
    }
    if i < e {
      PutRefines(ss, m, i, ss[i].(status := status));
      assert m[p] == ss[i];
    } else if i < |ss| {
      assert ss[i] == EMPTY;
      assert ss[i := ss[i].(status := status)] == ss;
    }
  }

  // ----- runs -------------------------------------------------------------------

  datatype ShmOp =
    | OpWrite(n: Node)
    | OpStatus(p: Pair, status: int)

  predicate OpOk(op: ShmOp) {
    match op
    case OpWrite(n) => Solid(n)
    case OpStatus(p, status) => status == 0 || p != EMPTY.Of()
  }

  function RunSlots(ss: seq<Node>, ops: seq<ShmOp>): seq<Node>
    decreases |ops|
  {
    if ops == [] then ss
    else
      var prev := RunSlots(ss, ops[..|ops| - 1]);
      match ops[|ops| - 1]
      case OpWrite(n) => Write(prev, n).0
      case OpStatus(p, status) => SetStatus(prev, p, status).0
  }

  function RunMap(m: map<Pair, Node>, max: nat, ops: seq<ShmOp>): map<Pair, Node>
    decreases |ops|
  {
    if ops == [] then m
    else
      var prev := RunMap(m, max, ops[..|ops| - 1]);
      match ops[|ops| - 1]
      case OpWrite(n) => MapWrite(prev, max, n).0
      case OpStatus(p, status) => MapStatus(prev, p, status)
  }

  /** The distinct pairs written, in the order of their first writes. */
  function FirstWrites(ops: seq<ShmOp>): seq<Pair>
    decreases |ops|
  {
    if ops == [] then []
    else
      var prev := FirstWrites(ops[..|ops| - 1]);
      match ops[|ops| - 1]
      case OpWrite(n) => if n.Of() in prev then prev else prev + [n.Of()]
      case OpStatus(_, _) => prev
  }

  function Take<T>(s: seq<T>, n: nat): seq<T> {
    if n < |s| then s[..n] else s
  }

  lemma ZeroRefines(max: nat)
    ensures Refines(seq(max, _ => EMPTY), map[]) && Cached(seq(max, _ => EMPTY)) == []
  {
    var zero := seq(max, _ => EMPTY);
    assert FindEmpty(zero) == 0;
  }

  lemma FirstWritesStep(ss: seq<Node>, m: map<Pair, Node>, n: Node, ps: seq<Pair>)
    requires Refines(ss, m) && Cached(ss) == Take(ps, |ss|)
    ensures Take(if n.Of() in ps then ps else ps + [n.Of()], |ss|) ==
            if n.Of() in m || |m| == |ss| then Cached(ss) else Cached(ss) + [n.Of()]
  {
    assert n.Of() in m <==> n.Of() in Cached(ss);
    assert |Cached(ss)| == |m|;
  }

  /**
    From zeroed memory, any sequence of writes and status updates keeps the
    array a bounded map, and the cached pairs are the first `max` distinct
    pairs ever written, in slot order.
   */
  lemma {:induction false} RunRefines(max: nat, ops: seq<ShmOp>)
    requires forall i | 0 <= i < |ops| :: OpOk(ops[i])
    ensures var ss := RunSlots(seq(max, _ => EMPTY), ops);
            && |ss| == max
            && Refines(ss, RunMap(map[], max, ops))
            && Cached(ss) == Take(FirstWrites(ops), max)
    decreases |ops|
  {
    var zero := seq(max, _ => EMPTY);
    if ops == [] {
      ZeroRefines(max);
    } else {
      var before := ops[..|ops| - 1];
      RunRefines(max, before);
      var ss, m := RunSlots(zero, before), RunMap(map[], max, before);
      match ops[|ops| - 1]
      case OpWrite(n) =>
        WriteRefines(ss, m, n);
        FirstWritesStep(ss, m, n, FirstWrites(before));
      case OpStatus(p, status) =>
        StatusRefines(ss, m, p, status);
    }
  }
}
