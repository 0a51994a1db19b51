/** `getActiveKey`: the cache supplies the key material, the tables decide whether it may be used. */
module KeyLookup {
  import opened Basics
  import opened KeyTables
  import opened SlotArray
  import opened Coherence

  datatype ActiveKey = ActiveKey(found: bool, valid: bool, secret: Text, keyId: int)

  /** Which of the two statements of a `checkSecKey` call fail. */
  datatype CheckFault = CheckFault(expireFails: bool, selectFails: bool)

  const NO_FAULT := CheckFault(false, false)

  /** Active and not yet due. */
  predicate Live(t: Tables, k: RowKey, now: int) {
    IsActive(t, k) && now < t.rows[k].expire
  }

  /** The answer of `checkSecKey`. */
  predicate Passes(t: Tables, k: RowKey, now: int, fault: CheckFault) {
    fault == NO_FAULT && Live(t, k, now)
  }

  function Checked(t: Tables, k: RowKey, now: int, fault: CheckFault): Tables {
    if fault.expireFails then t else ExpireRow(t, k, now)
  }

  lemma CheckedEvolves(t: Tables, k: RowKey, now: int, fault: CheckFault)
    ensures TablesEvolve(t, Checked(t, k, now, fault))
  {
  }

  datatype Lookup = Lookup(t: Tables, ss: seq<Node>, key: ActiveKey)

  function LookUp(t: Tables, ss: seq<Node>, k: RowKey, now: int, fault: CheckFault): Lookup {
    var n := Read(ss, PairOf(k));
    var alive := Passes(t, k, now, fault);
    var t' := Checked(t, k, now, fault);
    if n.client != [] && n.server != [] && n.keyId == k.keyId then
      if n.status != 1 then Lookup(t, ss, ActiveKey(true, false, [], k.keyId))
      else if alive then Lookup(t', ss, ActiveKey(true, true, n.secret, k.keyId))
      else Lookup(t', SetStatus(ss, PairOf(k), 0).0, ActiveKey(true, false, [], k.keyId))
    else Lookup(t', ss, ActiveKey(alive, false, [], k.keyId))
  }

  /**
    Whatever the cache holds and whatever fails: a valid answer is for a live
    key, carries the cached material of that key, and leaves everything as it was.
   */
  lemma ValidIsLive(t: Tables, ss: seq<Node>, k: RowKey, now: int, fault: CheckFault)
    ensures var l := LookUp(t, ss, k, now, fault);
            && TablesEvolve(t, l.t) && l.key.keyId == k.keyId && (l.key.valid ==> l.key.found)
            && (l.key.valid ==> Live(t, k, now) && l.t == t && l.ss == ss
                                && KeyOf(Read(ss, PairOf(k))) == k && k.client != [] && k.server != []
                                && l.key.secret == Read(ss, PairOf(k)).secret)
  {
  }

  /** The pair's slot is used, and for this very key. */
  predicate SlotHolds(ss: seq<Node>, k: RowKey) {
    Read(ss, PairOf(k)).client != [] && Read(ss, PairOf(k)).server != [] && Read(ss, PairOf(k)).keyId == k.keyId
  }

  /**
    Whatever the cache holds and whatever fails, both flags exactly. Only a valid
    answer carries material; only a failed check of an enabled slot disables it;
    only a disabled slot spares the tables a check.
   */
  lemma LookUpAnyhow(t: Tables, ss: seq<Node>, k: RowKey, now: int, fault: CheckFault)
    ensures var l, enabled := LookUp(t, ss, k, now, fault), Read(ss, PairOf(k)).status == 1;
            && (l.key.found <==> SlotHolds(ss, k) || Passes(t, k, now, fault))
            && (l.key.valid <==> SlotHolds(ss, k) && enabled && Passes(t, k, now, fault))
            && (l.key.secret != [] ==> l.key.valid)
            && l.ss == (if SlotHolds(ss, k) && enabled && !Passes(t, k, now, fault) then SetStatus(ss, PairOf(k), 0).0 else ss)
            && l.t == if SlotHolds(ss, k) && !enabled then t else Checked(t, k, now, fault)
  {
  }

  /**
    In step with the tables and without faults: valid exactly for a live key of a
    cached pair, with the row's own material; and still in step afterwards.
   */
  lemma LookUpCoherent(t: Tables, ss: seq<Node>, k: RowKey, now: int)
    requires Coherent(t, ss) && k.client != [] && k.server != []
    ensures var l := LookUp(t, ss, k, now, NO_FAULT);
            && Coherent(l.t, l.ss)
            && (l.key.valid <==> Live(t, k, now) && IsCached(ss, PairOf(k)))
            && (l.key.valid ==> l.key.secret == t.rows[k].secret)
            && (l.key.found <==> HoldsKey(ss, k) || Live(t, k, now))
  {
    var p := PairOf(k);
    ReadCached(ss, p);
    ExpireCoherent(t, ss, k, now);
    if IsCached(ss, p) {
      var n := Read(ss, p);
      assert SlotCoherent(t, n);
      if IsActive(t, k) { ActiveIsCachedKey(t, ss, k); }
    }
  }
}
