/**
  The committed key tables (`seckeyinfo` and `keysn`) and the effect of every
  statement that changes them. Rows are never deleted, so a table only grows.

  `seckeyinfo` has the unique key (clientid, serverid, keyid), so it is a map
  from that triple; `keysn` has at most one row.
 */
module KeyTables {
  import opened Basics

  const KEY_DEFAULT_VALIDITY_HOURS := 24
  const VALIDITY := KEY_DEFAULT_VALIDITY_HOURS * 3600

  datatype KeyState = Active | Revoked | Expired | Rotated

  datatype RowKey = RowKey(client: Text, server: Text, keyId: int) {
    predicate OfPair(p: Pair) {
      client == p.client && server == p.server
    }
  }

  datatype Row = Row(
    secret: Text,
    expire: int,
    state: KeyState,
    invalidated: Option<int>,
    rotatedFrom: Option<int>)

  datatype Tables = Tables(rows: map<RowKey, Row>, counter: Option<int>)

  // ----- statement effects -------------------------------------------------

  /** `update ... set state = st, invalidatetime = now()` on one row. */
  function Retire(r: Row, st: KeyState, now: int): Row {
    r.(state := st, invalidated := Some(now))
  }

  predicate IsActive(t: Tables, k: RowKey) {
    k in t.rows && t.rows[k].state == Active
  }

  function ActiveIds(t: Tables, p: Pair): set<int> {
    set k | k in t.rows && k.OfPair(p) && IsActive(t, k) :: k.keyId
  }

  /** The greatest element, or 0 for the empty set. */
  function Greatest(s: set<int>): (m: int)
    ensures s == {} ==> m == 0
    ensures s != {} ==> m in s && forall x | x in s :: x <= m
  {
    if s == {} then 0
    else
      HasGreatest(s);
      var m :| m in s && forall x | x in s :: x <= m;
      m
  }

  lemma {:induction false} HasGreatest(s: set<int>)
    requires s != {}
    ensures exists m :: m in s && forall x | x in s :: x <= m
  {
    var y := SomeMember(s);
    var rest := s - {y};
    if rest == {} {
      assert s == {y};
    } else {
      HasGreatest(rest);
      var m :| m in rest && forall x | x in rest :: x <= m;
      var g := if m < y then y else m;
      assert forall x | x in s :: x == y || x in rest;
      assert g in s && forall x | x in s :: x <= g;
    }
  }

  /** First row of `select keyid ... state = Active order by keyid desc`; kept only when positive. */
  function RotationSource(t: Tables, p: Pair): Option<int> {
    var m := Greatest(ActiveIds(t, p));
    if m > 0 then Some(m) else None
  }

  function RotateRows(t: Tables, p: Pair, now: int): Tables {
    t.(rows := map k | k in t.rows ::
      if k.OfPair(p) && t.rows[k].state == Active then Retire(t.rows[k], Rotated, now) else t.rows[k])
  }

  function NewKey(t: Tables, p: Pair): RowKey
    requires t.counter.Some?
  {
    RowKey(p.client, p.server, t.counter.value)
  }

  /** What the successful transaction of `writeSecKeyWithTrans` needs from the tables. */
  predicate AgreeEnabled(t: Tables, p: Pair) {
    t.counter.Some? && 0 < t.counter.value < MAX_INT && NewKey(t, p) !in t.rows
  }

  function InsertRow(t: Tables, p: Pair, secret: Text, now: int, source: Option<int>): Tables
    requires t.counter.Some?
  {
    t.(rows := t.rows[NewKey(t, p) := Row(secret, now + VALIDITY, Active, None, source)])
  }

  function BumpCounter(t: Tables): Tables
    requires t.counter.Some?
  {
    t.(counter := Some(t.counter.value + 1))
  }

  /** Rotation, insert and counter bump together. */
  function Agree(t: Tables, p: Pair, secret: Text, now: int): Tables
    requires AgreeEnabled(t, p)
  {
    BumpCounter(InsertRow(RotateRows(t, p, now), p, secret, now, RotationSource(t, p)))
  }

  /** `checkSecKey`, first statement: an Active row past its expiry becomes Expired. */
  function ExpireRow(t: Tables, k: RowKey, now: int): Tables {
    if IsActive(t, k) && t.rows[k].expire <= now
    then t.(rows := t.rows[k := Retire(t.rows[k], Expired, now)])
    else t
  }

  /** `logoutSecKey`: an Active row becomes Revoked. */
  function RevokeRow(t: Tables, k: RowKey, now: int): Tables {
    if IsActive(t, k)
    then t.(rows := t.rows[k := Retire(t.rows[k], Revoked, now)])
    else t
  }

  // ----- runs ----------------------------------------------------------------

  datatype TableOp =
    | OpAgree(p: Pair, secret: Text, now: int)
    | OpExpire(k: RowKey, now: int)
    | OpRevoke(k: RowKey, now: int)

  function Step(t: Tables, op: TableOp): Tables {
    match op
    case OpAgree(p, secret, now) => if AgreeEnabled(t, p) then Agree(t, p, secret, now) else t
    case OpExpire(k, now) => ExpireRow(t, k, now)
    case OpRevoke(k, now) => RevokeRow(t, k, now)
  }

  function Run(t: Tables, ops: seq<TableOp>): Tables
    decreases |ops|
  {
    if ops == [] then t else Run(Step(t, ops[0]), ops[1..])
  }

  // ----- a row's life -----------------------------------------------------------

  /** Only state and invalidatetime may change, and only out of Active. */
  ghost predicate Evolves(r: Row, r': Row) {
    && r'.secret == r.secret && r'.expire == r.expire && r'.rotatedFrom == r.rotatedFrom
    && (r' == r || (r.state == Active && r'.state != Active && r'.invalidated.Some?))
  }

  ghost predicate TablesEvolve(t: Tables, t': Tables) {
    forall k | k in t.rows :: k in t'.rows && Evolves(t.rows[k], t'.rows[k])
  }

  /** invalidatetime is non-null exactly when the row has left Active. */
  ghost predicate StampsOk(t: Tables) {
    forall k | k in t.rows :: t.rows[k].invalidated.Some? <==> t.rows[k].state != Active
  }

  lemma StepEvolves(t: Tables, op: TableOp)
    ensures TablesEvolve(t, Step(t, op))
    ensures StampsOk(t) ==> StampsOk(Step(t, op))
  {
  }

  /** Over a whole run every row keeps its identity and makes at most one move, out of Active. */
  lemma {:induction false} RunEvolves(t: Tables, ops: seq<TableOp>)
    ensures TablesEvolve(t, Run(t, ops))
    ensures StampsOk(t) ==> StampsOk(Run(t, ops))
    decreases |ops|
  {
    if ops == [] {
    } else {
      StepEvolves(t, ops[0]);
      RunEvolves(Step(t, ops[0]), ops[1..]);
    }
  }

  // ----- what each operation writes ---------------------------------------------------

  /** A row that has left Active at `now`. */
  function Left(r: Row, st: KeyState, now: int): Row {
    Row(r.secret, r.expire, st, Some(now), r.rotatedFrom)
  }

  /**
    An agreement adds one Active row that lasts a day, counts up, and stamps every
    Active row of its pair as Rotated; nothing else changes.
   */
  lemma AgreeEffect(t: Tables, p: Pair, secret: Text, now: int)
    requires AgreeEnabled(t, p)
    ensures var t', n := Agree(t, p, secret, now), RowKey(p.client, p.server, t.counter.value);
            && t'.counter == Some(t.counter.value + 1)
            && t'.rows.Keys == t.rows.Keys + {n} && n !in t.rows
            && t'.rows[n] == Row(secret, now + 86400, Active, None, t'.rows[n].rotatedFrom)
            && forall k | k in t.rows ::
                 t'.rows[k] == if IsActive(t, k) && k.client == p.client && k.server == p.server
                               then Left(t.rows[k], Rotated, now) else t.rows[k]
  {
  }

  /** The new row names the pair's newest Active row as its source, or none if there was none. */
  lemma NewRowNamesItsSource(t: Tables, p: Pair, secret: Text, now: int)
    requires IdsOk(t) && AgreeEnabled(t, p)
    ensures var r := Agree(t, p, secret, now).rows[NewKey(t, p)];
            && ((forall k: RowKey | k.OfPair(p) :: !IsActive(t, k)) ==> r.rotatedFrom == None)
            && (forall k: RowKey | k.OfPair(p) && IsActive(t, k) && (forall l: RowKey | l.OfPair(p) && IsActive(t, l) :: l.keyId <= k.keyId) ::
                  r.rotatedFrom == Some(k.keyId))
  {
    var m, r := Greatest(ActiveIds(t, p)), Agree(t, p, secret, now).rows[NewKey(t, p)];
    forall k: RowKey | k.OfPair(p) && IsActive(t, k) && (forall l: RowKey | l.OfPair(p) && IsActive(t, l) :: l.keyId <= k.keyId)
      ensures r.rotatedFrom == Some(k.keyId)
    {
      assert k.keyId in ActiveIds(t, p);
      var l :| l in t.rows && l.OfPair(p) && IsActive(t, l) && l.keyId == m;
      assert m == k.keyId;
    }
  }

  /** A check or a logout moves at most the one row it names, to its own terminal state. */
  lemma RetireEffect(t: Tables, k: RowKey, now: int)
    ensures ExpireRow(t, k, now) ==
            if IsActive(t, k) && t.rows[k].expire <= now
            then Tables(t.rows[k := Left(t.rows[k], Expired, now)], t.counter) else t
    ensures RevokeRow(t, k, now) ==
            if IsActive(t, k) then Tables(t.rows[k := Left(t.rows[k], Revoked, now)], t.counter) else t
  {
  }

  // ----- identifiers ------------------------------------------------------------

  /** Key ids are positive, below the counter, and name one row. */
  ghost predicate IdsOk(t: Tables) {
    && t.counter.Some? && 0 < t.counter.value
    && (forall k | k in t.rows :: 0 < k.keyId < t.counter.value)
    && (forall k, l | k in t.rows && l in t.rows && k.keyId == l.keyId :: k == l)
  }

  ghost predicate OneActive(t: Tables, p: Pair) {
    forall k: RowKey, l: RowKey | k.OfPair(p) && l.OfPair(p) && IsActive(t, k) && IsActive(t, l) :: k == l
  }

  /** No pair has two Active rows. */
  ghost predicate OneActiveEach(t: Tables) {
    forall p: Pair :: OneActive(t, p)
  }

  /** The row that `rotated_from_keyid` of row `k` names. */
  function SourceKey(t: Tables, k: RowKey): Option<RowKey>
    requires k in t.rows
  {
    match t.rows[k].rotatedFrom
    case None => None
    case Some(f) => Some(RowKey(k.client, k.server, f))
  }

  /** Each source is an older Rotated row of the same pair, and no row is the source of two. */
  ghost predicate SourcesOk(t: Tables) {
    && (forall k | k in t.rows && SourceKey(t, k).Some? ::
          var f := SourceKey(t, k).value;
          f.keyId < k.keyId && f in t.rows && t.rows[f].state == Rotated)
    && (forall k, l | k in t.rows && l in t.rows && SourceKey(t, k).Some? && SourceKey(t, k) == SourceKey(t, l) :: k == l)
  }

  ghost predicate Sound(t: Tables) {
    IdsOk(t) && StampsOk(t) && SourcesOk(t)
  }

  lemma AgreeSources(t: Tables, p: Pair, secret: Text, now: int)
    requires Sound(t) && AgreeEnabled(t, p)
    ensures SourcesOk(Agree(t, p, secret, now))
  {
    var t' := Agree(t, p, secret, now);
    var n := NewKey(t, p);
    var src := RotationSource(t, p);
    if src.Some? {
      var f := RowKey(p.client, p.server, src.value);
      assert f in t.rows && IsActive(t, f) && t'.rows[f].state == Rotated;
    }
    forall k | k in t'.rows && SourceKey(t', k).Some?
      ensures var f := SourceKey(t', k).value;
              f.keyId < k.keyId && f in t'.rows && t'.rows[f].state == Rotated
    {
      if k != n {
        assert SourceKey(t', k) == SourceKey(t, k);
      }
    }
    forall k, l | k in t'.rows && l in t'.rows && SourceKey(t', k).Some? && SourceKey(t', k) == SourceKey(t', l)
      ensures k == l
    {
      if k != n { assert SourceKey(t', k) == SourceKey(t, k); }
      if l != n { assert SourceKey(t', l) == SourceKey(t, l); }
    }
  }

  lemma AgreeIds(t: Tables, p: Pair, secret: Text, now: int)
    requires IdsOk(t) && AgreeEnabled(t, p)
    ensures IdsOk(Agree(t, p, secret, now))
  {
    var t' := Agree(t, p, secret, now);
    assert forall k | k in t'.rows :: k in t.rows || k == NewKey(t, p);
  }

  lemma RetireKeepsSources(t: Tables, x: RowKey, st: KeyState, now: int)
    requires SourcesOk(t) && IsActive(t, x) && st != Active
    ensures SourcesOk(t.(rows := t.rows[x := Retire(t.rows[x], st, now)]))
  {
    var t' := t.(rows := t.rows[x := Retire(t.rows[x], st, now)]);
    forall k | k in t'.rows
      ensures SourceKey(t', k) == SourceKey(t, k)
    {
    }
  }

  lemma StepKeepsSound(t: Tables, op: TableOp)
    requires Sound(t)
    ensures Sound(Step(t, op))
  {
    StepEvolves(t, op);
    match op
    case OpAgree(p, secret, now) =>
      if AgreeEnabled(t, p) {
        AgreeIds(t, p, secret, now);
        AgreeSources(t, p, secret, now);
      }
    case OpExpire(k, now) =>
      if IsActive(t, k) { RetireKeepsSources(t, k, Expired, now); }
    case OpRevoke(k, now) =>
      if IsActive(t, k) { RetireKeepsSources(t, k, Revoked, now); }
  }

  lemma {:induction false} RunKeepsSound(t: Tables, ops: seq<TableOp>)
    requires Sound(t)
    ensures Sound(Run(t, ops))
    decreases |ops|
  {
    if ops == [] {
    } else {
      StepKeepsSound(t, ops[0]);
      RunKeepsSound(Step(t, ops[0]), ops[1..]);
    }
  }

  // ----- at most one active key ----------------------------------------------

  lemma StepKeepsOneActive(t: Tables, op: TableOp, p: Pair)
    requires OneActive(t, p)
    ensures OneActive(Step(t, op), p)
  {
    var t' := Step(t, op);
    forall k: RowKey, l: RowKey | k.OfPair(p) && l.OfPair(p) && IsActive(t', k) && IsActive(t', l)
      ensures k == l
    {
      assert op.OpAgree? && op.p == p && AgreeEnabled(t, p) ==> k == NewKey(t, p) && l == NewKey(t, p);
      if k in t.rows && l in t.rows {
        assert IsActive(t, k) && IsActive(t, l);
      }
    }
  }

  lemma {:induction false} RunKeepsOneActive(t: Tables, ops: seq<TableOp>, p: Pair)
    requires OneActive(t, p)
    ensures OneActive(Run(t, ops), p)
    decreases |ops|
  {
    if ops == [] {
    } else {
      StepKeepsOneActive(t, ops[0], p);
      RunKeepsOneActive(Step(t, ops[0]), ops[1..], p);
    }
  }

  /**
    From any table, even a legacy one in which the pair has several Active rows:
    one successful agreement leaves the new row as the pair's only Active row,
    and no later step gives the pair a second one.
   */
  lemma AgreeRepairsForGood(t: Tables, p: Pair, secret: Text, now: int, ops: seq<TableOp>)
    requires AgreeEnabled(t, p)
    ensures ActiveIds(Agree(t, p, secret, now), p) == {t.counter.value}
    ensures OneActive(Run(Agree(t, p, secret, now), ops), p)
  {
    var t' := Agree(t, p, secret, now);
    var n := NewKey(t, p);
    assert IsActive(t', n) && n.OfPair(p);
    assert forall k: RowKey | k.OfPair(p) && IsActive(t', k) :: k == n;
    RunKeepsOneActive(t', ops, p);
  }

  // ----- rotation lineage ---------------------------------------------------

  /** Row `k`, the row it was rotated from, and so on; the key id is the measure. */
  ghost function Lineage(t: Tables, k: RowKey): (chain: seq<RowKey>)
    requires Sound(t) && k in t.rows
    ensures chain != [] && chain[0] == k
    ensures forall i | 0 <= i < |chain| :: chain[i] in t.rows
    decreases k.keyId
  {
    match SourceKey(t, k)
    case None => [k]
    case Some(f) => [k] + Lineage(t, f)
  }

  lemma {:induction false} LineageLinks(t: Tables, k: RowKey)
    requires Sound(t) && k in t.rows
    ensures var chain := Lineage(t, k);
            && (forall i | 0 < i < |chain| :: SourceKey(t, chain[i - 1]) == Some(chain[i]))
            && SourceKey(t, chain[|chain| - 1]).None?
    decreases k.keyId
  {
    var chain := Lineage(t, k);
    if SourceKey(t, k).Some? {
      var rest := Lineage(t, SourceKey(t, k).value);
      LineageLinks(t, SourceKey(t, k).value);
      forall i | 0 < i < |chain|
        ensures SourceKey(t, chain[i - 1]) == Some(chain[i])
      {
        assert chain[i] == rest[i - 1];
        if i > 1 { assert chain[i - 1] == rest[i - 2]; }
      }
    }
  }

  /** From a row back to one without a source: one pair, falling key ids, every row behind the first Rotated. */
  lemma LineageIsAChain(t: Tables, k: RowKey, i: nat)
    requires Sound(t) && k in t.rows && 0 < i < |Lineage(t, k)|
    ensures var x, y := Lineage(t, k)[i - 1], Lineage(t, k)[i];
            y.client == x.client && y.server == x.server && y.keyId < x.keyId && t.rows[y].state == Rotated
  {
    LineageLinks(t, k);
    assert SourceKey(t, Lineage(t, k)[i - 1]) == Some(Lineage(t, k)[i]);
  }

  lemma {:induction false} ChainsMeetAtAnEnd(t: Tables, a: RowKey, b: RowKey, i: nat, j: nat)
    requires Sound(t) && a in t.rows && b in t.rows
    requires i < |Lineage(t, a)| && j < |Lineage(t, b)| && Lineage(t, a)[i] == Lineage(t, b)[j]
    ensures a in Lineage(t, b) || b in Lineage(t, a)
    decreases i
  {
    if i == 0 || j == 0 {
    } else {
      var x, y := Lineage(t, a)[i - 1], Lineage(t, b)[j - 1];
      LineageLinks(t, a);
      LineageLinks(t, b);
      assert SourceKey(t, x) == SourceKey(t, y);
      ChainsMeetAtAnEnd(t, a, b, i - 1, j - 1);
    }
  }

  /** Lineages are disjoint chains: two that share a row lie on one chain. */
  lemma LineagesAreChains(t: Tables, a: RowKey, b: RowKey, x: RowKey)
    requires Sound(t) && a in t.rows && b in t.rows
    requires x in Lineage(t, a) && x in Lineage(t, b)
    ensures a in Lineage(t, b) || b in Lineage(t, a)
  {
    var i: nat :| i < |Lineage(t, a)| && Lineage(t, a)[i] == x;
    var j: nat :| j < |Lineage(t, b)| && Lineage(t, b)[j] == x;
    ChainsMeetAtAnEnd(t, a, b, i, j);
  }

  // ----- every rotation is recorded --------------------------------------------------

  /** Row `l` was made by rotating row `k`. */
  predicate Replaced(t: Tables, l: RowKey, k: RowKey) {
    l in t.rows && SourceKey(t, l) == Some(k)
  }

  ghost predicate RotationsRecorded(t: Tables) {
    forall k | k in t.rows && t.rows[k].state == Rotated :: exists l :: Replaced(t, l, k)
  }

  lemma StepRecordsRotations(t: Tables, op: TableOp)
    requires Sound(t) && OneActiveEach(t) && RotationsRecorded(t)
    ensures RotationsRecorded(Step(t, op))
  {
    var t' := Step(t, op);
    StepEvolves(t, op);
    forall k | k in t'.rows && t'.rows[k].state == Rotated
      ensures exists l :: Replaced(t', l, k)
    {
      if k in t.rows && t.rows[k].state == Rotated {
        var l :| Replaced(t, l, k);
        assert Replaced(t', l, k);
      } else {
        RotatedNow(t, op, k);
      }
    }
  }

  lemma RotatedNow(t: Tables, op: TableOp, k: RowKey)
    requires IdsOk(t) && OneActiveEach(t)
    requires k in Step(t, op).rows && Step(t, op).rows[k].state == Rotated && (k in t.rows ==> t.rows[k].state != Rotated)
    ensures op.OpAgree? && AgreeEnabled(t, op.p) && Replaced(Step(t, op), NewKey(t, op.p), k)
  {
    assert op.OpAgree? && AgreeEnabled(t, op.p) && k.OfPair(op.p) && IsActive(t, k);
    assert OneActive(t, op.p);
    NewRowNamesItsSource(t, op.p, op.secret, op.now);
  }

  lemma StepKeepsOneActiveEach(t: Tables, op: TableOp)
    requires OneActiveEach(t)
    ensures OneActiveEach(Step(t, op))
  {
    forall p: Pair
      ensures OneActive(Step(t, op), p)
    {
      assert OneActive(t, p);
      StepKeepsOneActive(t, op, p);
    }
  }

  lemma {:induction false} RunRecordsRotations(t: Tables, ops: seq<TableOp>)
    requires Sound(t) && OneActiveEach(t) && RotationsRecorded(t)
    ensures Sound(Run(t, ops)) && OneActiveEach(Run(t, ops)) && RotationsRecorded(Run(t, ops))
    decreases |ops|
  {
    if ops == [] {
    } else {
      StepKeepsSound(t, ops[0]);
      StepKeepsOneActiveEach(t, ops[0]);
      StepRecordsRotations(t, ops[0]);
      RunRecordsRotations(Step(t, ops[0]), ops[1..]);
    }
  }

  /**
    From a fresh installation, over any run: a row is Rotated exactly if a row
    names it as its source, and then exactly one does, a later one of its pair.
   */
  lemma RotatedExactly(ops: seq<TableOp>, k: RowKey)
    requires k in Run(INITIAL, ops).rows
    ensures var t := Run(INITIAL, ops);
            && (t.rows[k].state == Rotated <==> exists l :: Replaced(t, l, k))
            && (forall l | Replaced(t, l, k) :: l.client == k.client && l.server == k.server && k.keyId < l.keyId)
            && (forall l, l' | Replaced(t, l, k) && Replaced(t, l', k) :: l == l')
  {
    RunRecordsRotations(INITIAL, ops);
  }

  /** The tables that `init_db.sql` creates. */
  const INITIAL := Tables(map[], Some(1))

  /** Everything above for every table a fresh installation can reach. */
  lemma ReachableTables(ops: seq<TableOp>, p: Pair)
    ensures Sound(Run(INITIAL, ops)) && OneActive(Run(INITIAL, ops), p)
  {
    RunKeepsSound(INITIAL, ops);
    RunKeepsOneActive(INITIAL, ops, p);
  }
}
