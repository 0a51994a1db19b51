/**
  `mysqlOP`: one connection to the key tables.

  The server keeps the committed tables; an open transaction works on its own
  copy. `start transaction` commits a transaction that is still open, and a
  statement outside a transaction commits on its own. Every `mysql_query` call
  may fail: the caller names the calls that do.
 */
module KeyStore {
  import opened Basics
  import opened KeyTables

  /** `NodeSHMInfo` as the handlers fill it in; `seckeyID` and `status` are outputs of an agreement. */
  class NodeInfo {
    var status: int
    var seckeyId: int
    const pair: Pair
    const secret: Text

    constructor (pair: Pair, secret: Text)
      ensures this.pair == pair && this.secret == secret && status == 1 && seckeyId == 0
    {
      this.pair, this.secret := pair, secret;
      status, seckeyId := 1, 0;
    }
  }

  /** The calls of `writeSecKeyWithTrans`, in the order in which they are made. */
  datatype Call =
    | StartTransaction
    | LockCounter | StoreCounter
    | LockActive | StoreActive
    | RotateActive | InsertKey | IncrementCounter
    | CommitWork | RollbackWork

  predicate ReadFails(fails: set<Call>) {
    LockCounter in fails || StoreCounter in fails || LockActive in fails || StoreActive in fails
  }

  /** Some call between `start transaction` and `commit` fails. */
  predicate BodyFails(fails: set<Call>) {
    ReadFails(fails) || RotateActive in fails || InsertKey in fails || IncrementCounter in fails
  }

  /** The tables inside the transaction when it stops at its first failing call. */
  function Progress(t: Tables, p: Pair, secret: Text, now: int, fails: set<Call>): Tables {
    if ReadFails(fails) || RotateActive in fails || t.counter.None? || t.counter.value <= 0 then t
    else
      var rotated := RotateRows(t, p, now);
      if InsertKey in fails || NewKey(t, p) in t.rows then rotated
      else
        var inserted := InsertRow(rotated, p, secret, now, RotationSource(t, p));
        if IncrementCounter in fails || t.counter.value >= MAX_INT then inserted
        else BumpCounter(inserted)
  }

  /** The transaction stopped before its first effect: nothing was read, rotated or inserted. */
  predicate NothingDone(t: Tables, p: Pair, fails: set<Call>) {
    || ReadFails(fails) || RotateActive in fails || t.counter.None? || t.counter.value <= 0
    || (ActiveIds(t, p) == {} && (InsertKey in fails || NewKey(t, p) in t.rows))
  }

  /** The transaction reaches its `commit`. */
  predicate Completes(t: Tables, p: Pair, fails: set<Call>) {
    AgreeEnabled(t, p) && !BodyFails(fails)
  }

  /** The tables in view after a call for pair `p`: with the new key, as they were, or half done on an open transaction. */
  function AgreementLeaves(t: Tables, p: Pair, secret: Text, now: int, fails: set<Call>, landed: bool): Tables {
    if StartTransaction in fails then t
    else if Completes(t, p, fails) && (CommitWork !in fails || landed) then Agree(t, p, secret, now)
    else if RollbackWork in fails then Progress(t, p, secret, now, fails)
    else t
  }

  class MysqlOP {
    const connected: bool
    var committed: Tables
    /** The uncommitted tables of the open transaction, if there is one. */
    var work: Option<Tables>

    constructor (connected: bool, tables: Tables)
      ensures this.connected == connected && committed == tables && work == None
    {
      this.connected, committed, work := connected, tables, None;
    }

    /** What a statement on this connection reads. */
    function View(): Tables
      reads this
    {
      if work.Some? then work.value else committed
    }

    method Update(t: Tables)
      modifies this
      ensures View() == t
      ensures if old(work).Some? then committed == old(committed) && work == Some(t) else work == None && committed == t
    {
      if work.Some? { work := Some(t); } else { committed := t; }
    }

    method Rollback(fails: set<Call>)
      modifies this
      ensures committed == old(committed)
      ensures work == if RollbackWork in fails then old(work) else None
    {
      if RollbackWork !in fails { work := None; }
    }

    /**
      One key agreement in one transaction. `landed` says what a `commit` that
      reported an error did. All or nothing: a call that returns false leaves the
      node as it was, and the committed tables too unless the commit landed.
     */
    method WriteSecKeyWithTrans(node: NodeInfo?, now: int, fails: set<Call>, landed: bool) returns (ok: bool)
      modifies this, node
      // success: exactly when no call fails and the tables allow it
      ensures ok <==> node != null && connected && StartTransaction !in fails && CommitWork !in fails
                      && Completes(old(View()), node.pair, fails)
      ensures ok ==> AgreeEnabled(old(View()), node.pair)
                     && committed == Agree(old(View()), node.pair, node.secret, now) && work == None
                     && node.seckeyId == old(View()).counter.value && node.status == 1
      // failure
      ensures !ok && node != null ==> unchanged(node)
      ensures node == null || !connected || StartTransaction in fails ==> unchanged(this)
      ensures !ok && node != null && connected && StartTransaction !in fails ==>
                if CommitWork in fails && landed && Completes(old(View()), node.pair, fails)
                then committed == Agree(old(View()), node.pair, node.secret, now) && work == None
                else committed == old(View())
                     && work == if RollbackWork in fails
                                then Some(Progress(old(View()), node.pair, node.secret, now, fails)) else None
      // nothing is left behind exactly if the rollback worked or there was nothing to roll back
      ensures !ok && node != null && connected && StartTransaction !in fails
              && !(CommitWork in fails && landed && Completes(old(View()), node.pair, fails)) ==>
                (View() == old(View()) <==> RollbackWork !in fails || NothingDone(old(View()), node.pair, fails))
    {
      if node == null || !connected {
        return false;
      }
      LeftoverNothing(View(), node.pair, node.secret, now, fails);
      if StartTransaction in fails {
        return false;
      }
      committed := View();
      work := Some(committed);
      ghost var base := committed;

      if LockCounter in fails {
        Rollback(fails);
        return false;
      }
      if StoreCounter in fails {
        Rollback(fails);
        return false;
      }
      if work.value.counter.None? {
        Rollback(fails);
        return false;
      }
      var keyId := work.value.counter.value;
      if keyId <= 0 {
        Rollback(fails);
        return false;
      }

      if LockActive in fails {
        Rollback(fails);
        return false;
      }
      if StoreActive in fails {
        Rollback(fails);
        return false;
      }
      var rotatedFrom := RotationSource(work.value, node.pair);

      if RotateActive in fails {
        Rollback(fails);
        return false;
      }
      work := Some(RotateRows(work.value, node.pair, now));

      if InsertKey in fails || NewKey(work.value, node.pair) in work.value.rows {
        Rollback(fails);
        return false;
      }
      work := Some(InsertRow(work.value, node.pair, node.secret, now, rotatedFrom));

      if IncrementCounter in fails || keyId >= MAX_INT {
        Rollback(fails);
        return false;
      }
      work := Some(BumpCounter(work.value));

      if CommitWork in fails {
        if landed {
          committed, work := work.value, None;
        }
        Rollback(fails);
        return false;
      }
      committed, work := work.value, None;

      node.seckeyId := keyId;
      node.status := 1;
      return true;
    }

    /** Expires the row if it is due, then says whether it is Active. */
    method CheckSecKey(k: RowKey, now: int, expireFails: bool, selectFails: bool) returns (ok: bool)
      modifies this
      ensures View() == if expireFails then old(View()) else ExpireRow(old(View()), k, now)
      ensures !expireFails && IsActive(old(View()), k) && old(View()).rows[k].expire <= now ==>
                k in View().rows && View().rows[k] == Left(old(View()).rows[k], Expired, now)
      ensures work.Some? <==> old(work).Some?
      ensures work.Some? ==> committed == old(committed)
      ensures ok <==> !expireFails && !selectFails && IsActive(old(View()), k) && now < old(View()).rows[k].expire
    {
      if expireFails {
        return false;
      }
      Update(ExpireRow(View(), k, now));
      if selectFails {
        return false;
      }
      var t := View();
      if k !in t.rows {
        return false;
      }
      return t.rows[k].state == Active;
    }

    /** True exactly when one Active row became Revoked. */
    method LogoutSecKey(k: RowKey, now: int, fails: bool) returns (ok: bool)
      modifies this
      ensures ok <==> !fails && IsActive(old(View()), k)
      ensures ok ==> k in View().rows && View().rows[k] == Left(old(View()).rows[k], Revoked, now)
      ensures View() == if ok then RevokeRow(old(View()), k, now) else old(View())
      ensures work.Some? <==> old(work).Some?
      ensures work.Some? ==> committed == old(committed)
    {
      if fails {
        return false;
      }
      var affected := if IsActive(View(), k) then 1 else 0;
      Update(RevokeRow(View(), k, now));
      return affected != 0;
    }

    /**
      The unused counter bump. Its `start transaction` and `commit` go
      unchecked, so true does not mean that the counter moved: the last clause
      says exactly when it did.
     */
    method UpdateKeyId(fails: set<Call>) returns (ok: bool)
      requires connected
      modifies this
      ensures ok <==> LockCounter !in fails && IncrementCounter !in fails
                      && old(View()).counter.Some? && old(View()).counter.value < MAX_INT
      ensures committed.rows == old(View()).rows || StartTransaction in fails
      ensures ok && old(work).None? ==>
                (committed.counter == Some(old(committed).counter.value + 1)
                 <==> StartTransaction in fails || CommitWork !in fails)
    {
      if StartTransaction !in fails {
        committed := View();
        work := Some(committed);
      }
      if LockCounter in fails {
        Rollback(fails);
        return false;
      }
      if View().counter.None? {
        Rollback(fails);
        return false;
      }
      if IncrementCounter in fails || View().counter.value >= MAX_INT {
        Rollback(fails);
        return false;
      }
      Update(BumpCounter(View()));
      if CommitWork !in fails {
        committed, work := View(), None;
      }
      return true;
    }
  }

  // ----- what a failed rollback leaves behind -------------------------------------

  /** The insert was made and the counter was not. */
  predicate InsertedOnly(t: Tables, p: Pair, fails: set<Call>) {
    && t.counter.Some? && 0 < t.counter.value
    && NewKey(t, p) !in t.rows
    && !ReadFails(fails) && RotateActive !in fails && InsertKey !in fails
    && (IncrementCounter in fails || t.counter.value >= MAX_INT)
  }

  /** The open transaction holds the tables as they were exactly if nothing was done in it. */
  lemma LeftoverNothing(t: Tables, p: Pair, secret: Text, now: int, fails: set<Call>)
    ensures Progress(t, p, secret, now, fails) == t <==> NothingDone(t, p, fails)
  {
    if !ReadFails(fails) && RotateActive !in fails && t.counter.Some? && t.counter.value > 0 {
      var rotated := RotateRows(t, p, now);
      if ActiveIds(t, p) == {} {
        assert rotated.rows == t.rows by {
          forall k | k in t.rows
            ensures rotated.rows[k] == t.rows[k]
          {
            assert k.OfPair(p) && IsActive(t, k) ==> k.keyId in ActiveIds(t, p);
          }
        }
      } else {
        var id := SomeMember(ActiveIds(t, p));
        var k :| k in t.rows && k.OfPair(p) && IsActive(t, k) && k.keyId == id;
        assert rotated.rows[k].state == Rotated;
        assert k != NewKey(t, p) || NewKey(t, p) in t.rows;
      }
      if InsertKey !in fails && NewKey(t, p) !in t.rows {
        assert NewKey(t, p) in Progress(t, p, secret, now, fails).rows;
      }
    }
  }

  /**
    A failed rollback leaves `Progress` open and the next `start transaction`
    commits it. That keeps key ids below the counter exactly when the failing
    call was not the counter bump; the life of each row is respected either way.
   */
  lemma LeftoverWork(t: Tables, p: Pair, secret: Text, now: int, fails: set<Call>)
    requires IdsOk(t) && StampsOk(t)
    ensures IdsOk(Progress(t, p, secret, now, fails)) <==> !InsertedOnly(t, p, fails)
    ensures TablesEvolve(t, Progress(t, p, secret, now, fails)) && StampsOk(Progress(t, p, secret, now, fails))
  {
    LeftoverIds(t, p, secret, now, fails);
    LeftoverRows(t, p, secret, now, fails);
    LeftoverStamps(t, p, secret, now, fails);
  }

  lemma LeftoverIds(t: Tables, p: Pair, secret: Text, now: int, fails: set<Call>)
    requires IdsOk(t)
    ensures IdsOk(Progress(t, p, secret, now, fails)) <==> !InsertedOnly(t, p, fails)
  {
    var t' := Progress(t, p, secret, now, fails);
    if AgreeEnabled(t, p) && !BodyFails(fails) {
      AgreeIds(t, p, secret, now);
    } else if InsertedOnly(t, p, fails) {
      assert NewKey(t, p) in t'.rows;
    } else {
      assert t'.rows.Keys == t.rows.Keys && t'.counter == t.counter;
      SameIds(t, t');
    }
  }

  lemma SameIds(t: Tables, t': Tables)
    requires IdsOk(t) && t'.rows.Keys == t.rows.Keys && t'.counter == t.counter
    ensures IdsOk(t')
  {
    assert forall k | k in t'.rows :: k in t.rows.Keys;
  }

  lemma LeftoverRows(t: Tables, p: Pair, secret: Text, now: int, fails: set<Call>)
    ensures TablesEvolve(t, Progress(t, p, secret, now, fails))
  {
  }

  lemma LeftoverStamps(t: Tables, p: Pair, secret: Text, now: int, fails: set<Call>)
    requires StampsOk(t)
    ensures StampsOk(Progress(t, p, secret, now, fails))
  {
  }

  /**
    The same for everything that is sound about the tables: only the missing
    counter bump costs it. A second Active row never comes about.
   */
  lemma LeftoverSound(t: Tables, p: Pair, secret: Text, now: int, fails: set<Call>)
    requires Sound(t)
    ensures Sound(Progress(t, p, secret, now, fails)) <==> !InsertedOnly(t, p, fails)
  {
    LeftoverIds(t, p, secret, now, fails);
    LeftoverStamps(t, p, secret, now, fails);
    if !InsertedOnly(t, p, fails) {
      LeftoverSources(t, p, secret, now, fails);
    }
  }

  lemma LeftoverSources(t: Tables, p: Pair, secret: Text, now: int, fails: set<Call>)
    requires Sound(t) && !InsertedOnly(t, p, fails)
    ensures SourcesOk(Progress(t, p, secret, now, fails))
  {
    if AgreeEnabled(t, p) && !BodyFails(fails) {
      AgreeSources(t, p, secret, now);
    } else {
      RotationKeepsSources(t, p, now);
    }
  }

  lemma RotationKeepsSources(t: Tables, p: Pair, now: int)
    requires SourcesOk(t)
    ensures SourcesOk(RotateRows(t, p, now))
  {
    var t' := RotateRows(t, p, now);
    forall k | k in t'.rows
      ensures SourceKey(t', k) == SourceKey(t, k)
    {
    }
  }

  lemma LeftoverOneActive(t: Tables, p: Pair, secret: Text, now: int, fails: set<Call>)
    requires OneActiveEach(t)
    ensures OneActiveEach(Progress(t, p, secret, now, fails))
  {
    var t' := Progress(t, p, secret, now, fails);
    forall q: Pair
      ensures OneActive(t', q)
    {
      assert OneActive(t, q);
      assert q == p && t.counter.Some? && NewKey(t, p) !in t.rows && NewKey(t, p) in t'.rows ==>
          forall k: RowKey | k.OfPair(p) && IsActive(t', k) :: k == NewKey(t, p);
    }
  }

  /**
    The failure in full: after a failed insert whose rollback fails too, another
    pair's agreement succeeds and commits the half-done rotation, so the first
    pair, which had a usable key, has none.
   */
  method LeftoverRotationIsCommitted(db: MysqlOP, first: NodeInfo, second: NodeInfo, now: int)
    requires db.connected && db.work == None && first.pair != second.pair
    requires AgreeEnabled(db.committed, first.pair) && AgreeEnabled(db.committed, second.pair)
    requires ActiveIds(db.committed, first.pair) != {}
    modifies db, first, second
    ensures ActiveIds(db.committed, first.pair) == {}
  {
    var ok := db.WriteSecKeyWithTrans(first, now, {InsertKey, RollbackWork}, false);
    ghost var t := db.View();
    assert t.counter == old(db.committed.counter) && t.rows.Keys == old(db.committed.rows.Keys);
    ok := db.WriteSecKeyWithTrans(second, now, {}, false);
    assert ok;
  }
}
