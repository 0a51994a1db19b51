/**
  The whole system as a state machine. Any number of clients and of server
  workers interleave; one SQL statement or one slot-array call is one step
  (the agreement's transaction is one step too). Statements may fail, a commit
  may land although it reported an error, a failed rollback may leave its work
  open, responses may be lost, delayed or delivered twice, and a worker may die
  anywhere.
 */
module Interleaving {
  import opened Basics
  import opened KeyTables
  import opened KeyStore
  import opened SlotArray
  import opened Coherence
  import opened MessageCrypto
  import opened MessageStore

  datatype Env = Env(c: Crypto, serverId: Text)

  /** The parts of a send request that matter here; nothing about them is trusted. */
  datatype SendReq = SendReq(sender: Text, receiver: Text, keyId: int, x: Triple, algorithm: Text)

  /** Progress of `getActiveKey`; `hit` is the usable cached node, if there was one. */
  datatype KeyGet =
    | AtRead
    | AtExpire(hit: Option<Node>)
    | AtSelect(hit: Option<Node>, at: int)
    | AtDisable
    | Valid(secret: Text, at: int)
    | Refused

  datatype Task =
    | AgreeCommit(p: Pair, secret: Text)
    | AgreePublish(node: Node)
    | AgreeReply(node: Node)
    | CheckRead(k: RowKey)
    | CheckExpire(k: RowKey, cachedId: int)
    | CheckSelect(k: RowKey, cachedId: int, at: int)
    | CheckDisable(k: RowKey)
    | CheckReply(k: RowKey, ok: bool)
    | LogoutUpdate(k: RowKey)
    | LogoutCache(k: RowKey)
    | SendSender(m: SendReq, get: KeyGet)
    | SendPeek(m: SendReq, plain: Text)
    | SendReceiver(m: SendReq, plain: Text, receiverKeyId: int, get: KeyGet)
    | SendStore(m: SendReq, row: LogRecord)

  /** A client's sealed message: under which key, and what is in it. */
  datatype Sealed = Sealed(k: RowKey, plain: Text, x: Triple)

  /** What `checkSecKey` found out about a row. */
  datatype Verdict = Verdict(k: RowKey, ok: bool)

  datatype State = State(
    t: Tables,
    /** No rollback has failed after a key was inserted and the counter not moved. */
    intact: bool,
    now: int,
    slots: seq<Node>,
    clients: map<Text, seq<Node>>,
    tasks: map<nat, Task>,
    replies: set<Node>,
    sealed: set<Sealed>,
    /** Results of `checkSecKey`, and answers of `secKeyCheck`, in order. */
    verdicts: seq<Verdict>,
    answers: seq<Verdict>,
    log: seq<LogRecord>)

  /** How a nondeterministic step turns out; `calls` are the failing calls of an agreement. */
  datatype Choice = Choice(fails: bool, landed: bool, calls: set<Call>, nonce: Text, msgId: Text)

  datatype Act =
    | Tick(dt: nat)
    | Arrive(id: nat, task: Task)
    | Advance(id: nat, choice: Choice)
    | Die(id: nat)
    | ClientStore(client: Text, node: Node)
    | ClientDisable(client: Text, p: Pair)
    | ClientSeal(client: Text, p: Pair, plain: Text, nonce: Text)

  predicate Initial(task: Task) {
    task.AgreeCommit? || task.CheckRead? || task.LogoutUpdate? || (task.SendSender? && task.get.AtRead?)
  }

  // ----- steps ------------------------------------------------------------------------

  /** One step of `getActiveKey` for row `k`. */
  function StepGet(s: State, k: RowKey, g: KeyGet, ch: Choice): (State, KeyGet) {
    match g
    case AtRead =>
      var n := Read(s.slots, PairOf(k));
      if n.client != [] && n.server != [] && n.keyId == k.keyId then
        (s, if n.status == 1 then AtExpire(Some(n)) else Refused)
      else (s, AtExpire(None))
    case AtExpire(hit) =>
      var s' := if ch.fails && !ch.landed then s else s.(t := ExpireRow(s.t, k, s.now));
      if !ch.fails then (s', AtSelect(hit, s.now))
      else (Record(s', k, false), if hit.Some? then AtDisable else Refused)
    case AtSelect(hit, at) =>
      var ok := !ch.fails && IsActive(s.t, k);
      (Record(s, k, ok), if hit.None? then Refused else if ok then Valid(hit.value.secret, at) else AtDisable)
    case AtDisable => (s.(slots := SetStatus(s.slots, PairOf(k), 0).0), Refused)
    case _ => (s, g)
  }

  /** A failed rollback: what was done stays open on the shared connection. */
  function LeaveOpen(s: State, p: Pair, secret: Text, calls: set<Call>): State {
    s.(t := Progress(s.t, p, secret, s.now, calls), intact := s.intact && !InsertedOnly(s.t, p, calls))
  }

  /** `secKeyCheck` after `checkSecKey`: a failed check disables the slot that held the key. */
  function AfterCheck(k: RowKey, cachedId: int, ok: bool): Task {
    if !ok && cachedId == k.keyId then CheckDisable(k) else CheckReply(k, ok)
  }

  function Record(s: State, k: RowKey, ok: bool): State {
    s.(verdicts := s.verdicts + [Verdict(k, ok)])
  }

  /** One step of a worker; the result is None when its request is finished. */
  function StepTask(e: Env, s: State, task: Task, ch: Choice): (State, Option<Task>) {
    match task
    case AgreeCommit(p, secret) =>
      if StartTransaction in ch.calls then (s, None)
      else if Completes(s.t, p, ch.calls) && (CommitWork !in ch.calls || ch.landed) then
        var s' := s.(t := Agree(s.t, p, secret, s.now));
        (s', if CommitWork in ch.calls then None
             else Some(AgreePublish(Node(1, s.t.counter.value, p.client, p.server, secret))))
      else if RollbackWork in ch.calls then (LeaveOpen(s, p, secret, ch.calls), None)
      else (s, None)
    case AgreePublish(node) => (s.(slots := Write(s.slots, node).0), Some(AgreeReply(node)))
    case AgreeReply(node) => (s.(replies := s.replies + {node}), None)
    case CheckRead(k) => (s, Some(CheckExpire(k, Read(s.slots, PairOf(k)).keyId)))
    case CheckExpire(k, cachedId) =>
      var s' := if ch.fails && !ch.landed then s else s.(t := ExpireRow(s.t, k, s.now));
      if !ch.fails then (s', Some(CheckSelect(k, cachedId, s.now)))
      else (Record(s', k, false), Some(AfterCheck(k, cachedId, false)))
    case CheckSelect(k, cachedId, _) =>
      var ok := !ch.fails && IsActive(s.t, k);
      (Record(s, k, ok), Some(AfterCheck(k, cachedId, ok)))
    case CheckDisable(k) => (s.(slots := SetStatus(s.slots, PairOf(k), 0).0), Some(CheckReply(k, false)))
    case CheckReply(k, ok) => (s.(answers := s.answers + [Verdict(k, ok)]), None)
    case LogoutUpdate(k) =>
      if !IsActive(s.t, k) || (ch.fails && !ch.landed) then (s, None)
      else (s.(t := RevokeRow(s.t, k, s.now)), if ch.fails then None else Some(LogoutCache(k)))
    case LogoutCache(k) => (s.(slots := SetStatus(s.slots, PairOf(k), 0).0), None)
    case SendSender(m, g) =>
      (match g
       case Refused => (s, None)
       case Valid(secret, _) =>
         (match DecryptMessage(e.c, secret, m.x, m.algorithm)
          case None => (s, None)
          case Some(plain) => (s, Some(SendPeek(m, plain))))
       case _ =>
         var r := StepGet(s, RowKey(m.sender, e.serverId, m.keyId), g, ch);
         (r.0, Some(SendSender(m, r.1))))
    case SendPeek(m, plain) =>
      var n := Read(s.slots, Pair(m.receiver, e.serverId));
      if n.client == [] || n.server == [] then (s, None)
      else (s, Some(SendReceiver(m, plain, n.keyId, AtRead)))
    case SendReceiver(m, plain, keyId, g) =>
      (match g
       case Refused => (s, None)
       case Valid(secret, _) =>
         (match EncryptMessage(e.c, secret, plain, ch.nonce)
          case None => (s, None)
          case Some(y) =>
            (s, Some(SendStore(m, LogRecord(ch.msgId, m.sender, m.receiver, m.keyId, keyId, m.x, y, ALGORITHM(), s.now)))))
       case _ =>
         var r := StepGet(s, RowKey(m.receiver, e.serverId, keyId), g, ch);
         (r.0, Some(SendReceiver(m, plain, keyId, r.1))))
    case SendStore(m, row) =>
      // a failed insert may have landed
      (if ch.fails && !ch.landed then s else s.(log := s.log + [row]), None)
  }

  function SetTask(s: State, id: nat, task: Option<Task>): State {
    s.(tasks := match task
                case None => map i | i in s.tasks && i != id :: s.tasks[i]
                case Some(x) => s.tasks[id := x])
  }

  predicate NonceOk(nonce: Text) {
    |nonce| == GCM_NONCE_SIZE
  }

  /** One step; an action that is not enabled changes nothing. */
  function Apply(e: Env, s: State, a: Act): State {
    match a
    case Tick(dt) => s.(now := s.now + dt)
    case Arrive(id, task) => if id in s.tasks || !Initial(task) then s else SetTask(s, id, Some(task))
    case Advance(id, ch) =>
      if id !in s.tasks || !NonceOk(ch.nonce) then s
      else
        var r := StepTask(e, s, s.tasks[id], ch);
        SetTask(r.0, id, r.1)
    case Die(id) => SetTask(s, id, None)
    case ClientStore(client, node) =>
      if client !in s.clients || node !in s.replies || node.client != client then s
      else s.(clients := s.clients[client := Write(s.clients[client], node).0])
    case ClientDisable(client, p) =>
      if client !in s.clients then s
      else s.(clients := s.clients[client := SetStatus(s.clients[client], p, 0).0])
    case ClientSeal(client, p, plain, nonce) =>
      if client !in s.clients || !NonceOk(nonce) then s
      else
        var n := Read(s.clients[client], p);
        if n.client == [] || n.server == [] || n.status != 1 then s
        else
          match EncryptText(e.c, n.secret, plain, nonce)
          case None => s
          case Some(x) => s.(sealed := s.sealed + {Sealed(RowKey(p.client, p.server, n.keyId), plain, x)})
  }

  function Run(e: Env, s: State, acts: seq<Act>): State
    decreases |acts|
  {
    if acts == [] then s else Run(e, Apply(e, s, acts[0]), acts[1..])
  }

  // ----- the invariant ----------------------------------------------------------------

  predicate HitOk(t: Tables, k: RowKey, hit: Option<Node>) {
    hit.Some? ==> Holds(t, k, hit.value.secret)
  }

  /** `at` is when the expiry statement ran: a row still Active had not expired then. */
  predicate GetOk(t: Tables, now: int, k: RowKey, g: KeyGet) {
    match g
    case AtExpire(hit) => HitOk(t, k, hit)
    case AtSelect(hit, at) => HitOk(t, k, hit) && at <= now && (IsActive(t, k) ==> at < t.rows[k].expire)
    case Valid(secret, at) => Holds(t, k, secret) && at <= now && at < t.rows[k].expire
    case _ => true
  }

  ghost predicate TaskOk(e: Env, t: Tables, now: int, task: Task) {
    match task
    case AgreePublish(node) => NodeOk(t, node)
    case AgreeReply(node) => NodeOk(t, node)
    case LogoutCache(k) => k in t.rows && !IsActive(t, k)
    case CheckSelect(k, _, at) => at <= now && (IsActive(t, k) ==> at < t.rows[k].expire)
    case SendSender(m, g) => GetOk(t, now, RowKey(m.sender, e.serverId, m.keyId), g)
    case SendPeek(m, plain) => Opens(e.c, t, RowKey(m.sender, e.serverId, m.keyId), m.x, m.algorithm, plain)
    case SendReceiver(m, plain, keyId, g) =>
      Opens(e.c, t, RowKey(m.sender, e.serverId, m.keyId), m.x, m.algorithm, plain) && GetOk(t, now, RowKey(m.receiver, e.serverId, keyId), g)
    case SendStore(m, row) => RecordOk(e.c, t, e.serverId, row)
    case _ => true
  }

  /** A success is only answered after a check that succeeded. */
  predicate ReplyOk(verdicts: seq<Verdict>, task: Task) {
    task.CheckReply? && task.ok ==> Verdict(task.k, true) in verdicts
  }

  ghost predicate SealedOk(e: Env, t: Tables, y: Sealed) {
    && y.k in t.rows
    && (y.plain != [] ==> DecryptMessage(e.c, t.rows[y.k].secret, y.x, ALGORITHM()) == Some(y.plain))
  }

  ghost predicate Inv(e: Env, s: State) {
    && (s.intact ==> Sound(s.t)) && OneActiveEach(s.t)
    && SlotsOk(s.t, s.slots)
    && (forall c | c in s.clients :: SlotsOk(s.t, s.clients[c]))
    && (forall id | id in s.tasks :: TaskOk(e, s.t, s.now, s.tasks[id]) && ReplyOk(s.verdicts, s.tasks[id]))
    && (forall a | a in s.answers && a.ok :: a in s.verdicts)
    && (forall n | n in s.replies :: NodeOk(s.t, n))
    && (forall y | y in s.sealed :: SealedOk(e, s.t, y))
    && (forall i | 0 <= i < |s.log| :: RecordOk(e.c, s.t, e.serverId, s.log[i]))
  }

  // ----- everything the invariant says survives later steps --------------------------

  /** Rows evolve, and a row inserted meanwhile expires in the future. */
  ghost predicate Grows(t: Tables, t': Tables, now: int) {
    && TablesEvolve(t, t')
    && (forall k | k in t'.rows && k !in t.rows :: now < t'.rows[k].expire)
  }

  lemma TaskStays(e: Env, t: Tables, t': Tables, now: int, now': int, task: Task)
    requires Grows(t, t', now) && now <= now' && TaskOk(e, t, now, task)
    ensures TaskOk(e, t', now', task)
  {
    if task.SendStore? { RecordLasts(e.c, t, t', e.serverId, task.row); }
  }

  lemma InvStays(e: Env, s: State, t': Tables, now': int)
    requires Inv(e, s) && Grows(s.t, t', s.now) && s.now <= now' && (s.intact ==> Sound(t')) && OneActiveEach(t')
    ensures Inv(e, s.(t := t', now := now'))
  {
    forall id | id in s.tasks
      ensures TaskOk(e, t', now', s.tasks[id])
    {
      TaskStays(e, s.t, t', s.now, now', s.tasks[id]);
    }
    forall i | 0 <= i < |s.log|
      ensures RecordOk(e.c, t', e.serverId, s.log[i])
    {
      RecordLasts(e.c, s.t, t', e.serverId, s.log[i]);
    }
  }

  lemma OpGrows(t: Tables, op: TableOp, now: int)
    requires op.OpAgree? ==> op.now == now
    ensures Grows(t, Step(t, op), now) && (Sound(t) ==> Sound(Step(t, op)))
    ensures OneActiveEach(t) ==> OneActiveEach(Step(t, op))
  {
    StepEvolves(t, op);
    if OneActiveEach(t) { StepKeepsOneActiveEach(t, op); }
    if Sound(t) { StepKeepsSound(t, op); }
  }

  // ----- the invariant is kept ------------------------------------------------------

  /** What one worker step must deliver. */
  ghost predicate Kept(e: Env, s: State, s': State) {
    && Inv(e, s') && s'.tasks == s.tasks && s'.now == s.now && TablesEvolve(s.t, s'.t)
    && NewVerdicts(s, s')
  }

  /** Verdicts are only added, and a success only for a row that is Active. */
  ghost predicate NewVerdicts(s: State, s': State) {
    && s.verdicts <= s'.verdicts
    && forall i | |s.verdicts| <= i < |s'.verdicts| && s'.verdicts[i].ok :: IsActive(s.t, s'.verdicts[i].k)
  }

  ghost predicate NextOk(e: Env, s: State, next: Option<Task>) {
    next.Some? ==> TaskOk(e, s.t, s.now, next.value) && ReplyOk(s.verdicts, next.value)
  }

  lemma SlotsKept(e: Env, s: State, n: Node, p: Pair)
    requires Inv(e, s) && NodeOk(s.t, n)
    ensures Kept(e, s, s.(slots := Write(s.slots, n).0))
    ensures Kept(e, s, s.(slots := SetStatus(s.slots, p, 0).0))
  {
    SlotsStay(s.t, s.slots, n, p);
  }

  lemma TablesKept(e: Env, s: State, op: TableOp)
    requires Inv(e, s) && (op.OpAgree? ==> op.now == s.now)
    ensures Kept(e, s, s.(t := Step(s.t, op)))
  {
    OpGrows(s.t, op, s.now);
    InvStays(e, s, Step(s.t, op), s.now);
  }

  lemma RecordKept(e: Env, s: State, s': State, k: RowKey, ok: bool)
    requires Kept(e, s, s') && s'.verdicts == s.verdicts && (ok ==> IsActive(s.t, k))
    ensures Kept(e, s, Record(s', k, ok))
  {
  }

  /** The expiry statement, which may fail and land all the same. */
  lemma ExpiryKept(e: Env, s: State, k: RowKey, ch: Choice)
    requires Inv(e, s)
    ensures var s' := if ch.fails && !ch.landed then s else s.(t := ExpireRow(s.t, k, s.now));
            Kept(e, s, s') && Kept(e, s, Record(s', k, false))
  {
    TablesKept(e, s, OpExpire(k, s.now));
    RecordKept(e, s, s, k, false);
    RecordKept(e, s, s.(t := ExpireRow(s.t, k, s.now)), k, false);
  }

  lemma GetKept(e: Env, s: State, k: RowKey, g: KeyGet, ch: Choice)
    requires Inv(e, s) && GetOk(s.t, s.now, k, g)
    ensures var (s', g') := StepGet(s, k, g, ch); Kept(e, s, s') && GetOk(s'.t, s'.now, k, g')
  {
    match g
    case AtRead => ReadOk(s.t, s.slots, PairOf(k));
    case AtExpire(hit) => ExpiryKept(e, s, k, ch);
    case AtSelect(hit, at) => RecordKept(e, s, s, k, !ch.fails && IsActive(s.t, k));
    case AtDisable => SlotsKept(e, s, EMPTY, PairOf(k));
    case _ =>
  }

  lemma StoreKept(e: Env, s: State, row: LogRecord)
    requires Inv(e, s) && RecordOk(e.c, s.t, e.serverId, row)
    ensures Kept(e, s, s.(log := s.log + [row]))
  {
  }

  lemma LogMade(e: Env, t: Tables, m: SendReq, plain: Text, keyId: int, secret: Text, nonce: Text,
                msgId: Text, now: int)
    requires Lawful(e.c) && NonceOk(nonce)
    requires Opens(e.c, t, RowKey(m.sender, e.serverId, m.keyId), m.x, m.algorithm, plain) && Holds(t, RowKey(m.receiver, e.serverId, keyId), secret)
    ensures var y := EncryptMessage(e.c, secret, plain, nonce);
            y.Some? ==> RecordOk(e.c, t, e.serverId, LogRecord(msgId, m.sender, m.receiver, m.keyId, keyId, m.x, y.value, ALGORITHM(), now))
  {
    var y := EncryptMessage(e.c, secret, plain, nonce);
    if y.Some? {
      SealedOpens(e.c, secret, plain, nonce);
      assert Opens(e.c, t, RowKey(m.receiver, e.serverId, keyId), y.value, ALGORITHM(), plain);
    }
  }

  lemma AgreeKept(e: Env, s: State, p: Pair, secret: Text)
    requires Inv(e, s) && AgreeEnabled(s.t, p)
    ensures var s' := s.(t := Agree(s.t, p, secret, s.now));
            Kept(e, s, s') && NodeOk(s'.t, Node(1, s.t.counter.value, p.client, p.server, secret))
  {
    TablesKept(e, s, OpAgree(p, secret, s.now));
    assert Holds(Agree(s.t, p, secret, s.now), NewKey(s.t, p), secret);
  }

  lemma LeaveOpenKept(e: Env, s: State, p: Pair, secret: Text, calls: set<Call>)
    requires Inv(e, s)
    ensures Kept(e, s, LeaveOpen(s, p, secret, calls))
  {
    var t' := Progress(s.t, p, secret, s.now, calls);
    LeftoverRows(s.t, p, secret, s.now, calls);
    LeftoverOneActive(s.t, p, secret, s.now, calls);
    if s.intact { LeftoverSound(s.t, p, secret, s.now, calls); }
    InvStays(e, s.(intact := s.intact && !InsertedOnly(s.t, p, calls)), t', s.now);
  }

  lemma SenderKept(e: Env, s: State, m: SendReq, g: KeyGet, ch: Choice)
    requires Inv(e, s) && GetOk(s.t, s.now, RowKey(m.sender, e.serverId, m.keyId), g)
    ensures var (s', next) := StepTask(e, s, SendSender(m, g), ch);
            Kept(e, s, s') && NextOk(e, s', next)
  {
    GetKept(e, s, RowKey(m.sender, e.serverId, m.keyId), g, ch);
  }

  lemma ReceiverKept(e: Env, s: State, m: SendReq, plain: Text, keyId: int, g: KeyGet, ch: Choice)
    requires Lawful(e.c) && Inv(e, s) && NonceOk(ch.nonce)
    requires TaskOk(e, s.t, s.now, SendReceiver(m, plain, keyId, g))
    ensures var (s', next) := StepTask(e, s, SendReceiver(m, plain, keyId, g), ch);
            Kept(e, s, s') && NextOk(e, s', next)
  {
    GetKept(e, s, RowKey(m.receiver, e.serverId, keyId), g, ch);
    if g.Valid? { LogMade(e, s.t, m, plain, keyId, g.secret, ch.nonce, ch.msgId, s.now); }
  }

  lemma AgreeTaskKept(e: Env, s: State, p: Pair, secret: Text, ch: Choice)
    requires Inv(e, s)
    ensures var (s', next) := StepTask(e, s, AgreeCommit(p, secret), ch);
            Kept(e, s, s') && NextOk(e, s', next)
  {
    if StartTransaction in ch.calls {
    } else if Completes(s.t, p, ch.calls) && (CommitWork !in ch.calls || ch.landed) {
      AgreeKept(e, s, p, secret);
    } else if RollbackWork in ch.calls {
      LeaveOpenKept(e, s, p, secret, ch.calls);
    }
  }

  lemma CheckExpireKept(e: Env, s: State, k: RowKey, cachedId: int, ch: Choice)
    requires Inv(e, s)
    ensures var (s', next) := StepTask(e, s, CheckExpire(k, cachedId), ch);
            Kept(e, s, s') && NextOk(e, s', next)
  {
    ExpiryKept(e, s, k, ch);
  }

  lemma CheckSelectKept(e: Env, s: State, k: RowKey, cachedId: int, at: int, ch: Choice)
    requires Inv(e, s)
    ensures var (s', next) := StepTask(e, s, CheckSelect(k, cachedId, at), ch);
            Kept(e, s, s') && NextOk(e, s', next)
  {
    var ok := !ch.fails && IsActive(s.t, k);
    RecordKept(e, s, s, k, ok);
    assert Record(s, k, ok).verdicts[|s.verdicts|] == Verdict(k, ok);
  }

  lemma CheckReplyKept(e: Env, s: State, k: RowKey, ok: bool, ch: Choice)
    requires Inv(e, s) && ReplyOk(s.verdicts, CheckReply(k, ok))
    ensures Kept(e, s, StepTask(e, s, CheckReply(k, ok), ch).0)
  {
  }

  lemma CheckTaskKept(e: Env, s: State, task: Task, ch: Choice)
    requires Inv(e, s) && ReplyOk(s.verdicts, task)
    requires task.CheckRead? || task.CheckExpire? || task.CheckSelect? || task.CheckDisable? || task.CheckReply?
    ensures var (s', next) := StepTask(e, s, task, ch);
            Kept(e, s, s') && NextOk(e, s', next)
  {
    match task
    case CheckExpire(k, cachedId) => CheckExpireKept(e, s, k, cachedId, ch);
    case CheckSelect(k, cachedId, at) => CheckSelectKept(e, s, k, cachedId, at, ch);
    case CheckDisable(k) => SlotsKept(e, s, EMPTY, PairOf(k));
    case CheckReply(k, ok) => CheckReplyKept(e, s, k, ok, ch);
    case _ =>
  }

  lemma KeyTaskKept(e: Env, s: State, task: Task, ch: Choice)
    requires Inv(e, s) && TaskOk(e, s.t, s.now, task)
    requires task.AgreePublish? || task.AgreeReply? || task.LogoutUpdate? || task.LogoutCache?
    ensures var (s', next) := StepTask(e, s, task, ch);
            Kept(e, s, s') && NextOk(e, s', next)
  {
    match task
    case AgreePublish(node) => SlotsKept(e, s, node, node.Of());
    case LogoutUpdate(k) => TablesKept(e, s, OpRevoke(k, s.now));
    case LogoutCache(k) => SlotsKept(e, s, EMPTY, PairOf(k));
    case _ =>
  }

  lemma TaskKept(e: Env, s: State, task: Task, ch: Choice)
    requires Lawful(e.c) && Inv(e, s) && TaskOk(e, s.t, s.now, task) && ReplyOk(s.verdicts, task) && NonceOk(ch.nonce)
    ensures var (s', next) := StepTask(e, s, task, ch);
            Kept(e, s, s') && NextOk(e, s', next)
  {
    match task
    case SendSender(m, g) => SenderKept(e, s, m, g, ch);
    case SendPeek(m, plain) =>
    case SendReceiver(m, plain, keyId, g) => ReceiverKept(e, s, m, plain, keyId, g, ch);
    case SendStore(m, row) => StoreKept(e, s, row);
    case AgreeCommit(p, secret) => AgreeTaskKept(e, s, p, secret, ch);
    case AgreePublish(_) => KeyTaskKept(e, s, task, ch);
    case AgreeReply(_) => KeyTaskKept(e, s, task, ch);
    case LogoutUpdate(_) => KeyTaskKept(e, s, task, ch);
    case LogoutCache(_) => KeyTaskKept(e, s, task, ch);
    case _ => CheckTaskKept(e, s, task, ch);
  }

  lemma ClientKept(e: Env, s: State, a: Act)
    requires Lawful(e.c) && Inv(e, s) && (a.ClientStore? || a.ClientDisable? || a.ClientSeal?)
    ensures Inv(e, Apply(e, s, a))
  {
    match a
    case ClientStore(client, node) =>
      if client in s.clients && node in s.replies {
        SlotsStay(s.t, s.clients[client], node, node.Of());
      }
    case ClientDisable(client, p) =>
      if client in s.clients {
        SlotsStay(s.t, s.clients[client], EMPTY, p);
      }
    case ClientSeal(client, p, plain, nonce) =>
      if client in s.clients && NonceOk(nonce) {
        var n := Read(s.clients[client], p);
        ReadOk(s.t, s.clients[client], p);
        if EncryptText(e.c, n.secret, plain, nonce).Some? {
          SealedOpens(e.c, n.secret, plain, nonce);
        }
      }
  }

  lemma SetTaskKept(e: Env, s: State, id: nat, task: Option<Task>)
    requires Inv(e, s) && NextOk(e, s, task)
    ensures Inv(e, SetTask(s, id, task))
  {
  }

  lemma AdvanceKeepsInv(e: Env, s: State, id: nat, ch: Choice)
    requires Lawful(e.c) && Inv(e, s) && id in s.tasks && NonceOk(ch.nonce)
    ensures var r := StepTask(e, s, s.tasks[id], ch);
            Inv(e, SetTask(r.0, id, r.1)) && TablesEvolve(s.t, r.0.t) && NewVerdicts(s, r.0)
  {
    TaskKept(e, s, s.tasks[id], ch);
    var r := StepTask(e, s, s.tasks[id], ch);
    SetTaskKept(e, r.0, id, r.1);
  }

  lemma OtherKeepsInv(e: Env, s: State, a: Act)
    requires Inv(e, s) && (a.Tick? || a.Arrive? || a.Die?)
    ensures Inv(e, Apply(e, s, a))
  {
    match a
    case Tick(dt) => InvStays(e, s, s.t, s.now + dt);
    case Arrive(id, task) => if Initial(task) { SetTaskKept(e, s, id, Some(task)); }
    case Die(id) => SetTaskKept(e, s, id, None);
  }

  /** Only a worker's step touches the tables and checks keys. */
  lemma TablesUntouched(e: Env, s: State, a: Act)
    requires !a.Advance?
    ensures Apply(e, s, a).t == s.t && Apply(e, s, a).verdicts == s.verdicts
  {
  }

  /** Every step of the system keeps the invariant, and moves each row at most out of Active. */
  lemma ApplyKeepsInv(e: Env, s: State, a: Act)
    requires Lawful(e.c) && Inv(e, s)
    ensures Inv(e, Apply(e, s, a))
    ensures TablesEvolve(s.t, Apply(e, s, a).t) && NewVerdicts(s, Apply(e, s, a))
  {
    if a.Advance? {
      if a.id in s.tasks && NonceOk(a.choice.nonce) {
        AdvanceKeepsInv(e, s, a.id, a.choice);
      }
    } else {
      TablesUntouched(e, s, a);
      if a.Tick? || a.Arrive? || a.Die? {
        OtherKeepsInv(e, s, a);
      } else {
        ClientKept(e, s, a);
      }
    }
  }

  lemma {:induction false} RunKeepsInv(e: Env, s: State, acts: seq<Act>)
    requires Lawful(e.c) && Inv(e, s)
    ensures Inv(e, Run(e, s, acts)) && TablesEvolve(s.t, Run(e, s, acts).t)
    decreases |acts|
  {
    if acts == [] {
    } else {
      ApplyKeepsInv(e, s, acts[0]);
      RunKeepsInv(e, Apply(e, s, acts[0]), acts[1..]);
    }
  }

  /** A fresh installation: empty tables, zeroed slot arrays, nobody at work. */
  predicate Init(s: State) {
    && s.t == INITIAL && s.intact && s.verdicts == [] && s.answers == []
    && (forall i | 0 <= i < |s.slots| :: s.slots[i] == EMPTY)
    && (forall c | c in s.clients :: forall i | 0 <= i < |s.clients[c]| :: s.clients[c][i] == EMPTY)
    && s.tasks == map[] && s.replies == {} && s.sealed == {} && s.log == []
  }

  // ----- the results --------------------------------------------------------------------

  /**
    In every reachable state each used slot, on the server and on every client,
    holds the client, server and key material of the row that its key id names,
    every stored message keeps its meaning, and no pair has two Active keys. Ids,
    stamps and lineages are sound as long as no rollback has failed after a key was
    inserted and the counter not moved.
   */
  lemma ReachableStates(e: Env, s: State, acts: seq<Act>)
    requires Lawful(e.c) && Init(s)
    ensures var r := Run(e, s, acts);
            && SlotsOk(r.t, r.slots)
            && (forall c | c in r.clients :: SlotsOk(r.t, r.clients[c]))
            && (r.intact ==> Sound(r.t)) && (forall p: Pair :: OneActive(r.t, p))
            && (forall i | 0 <= i < |r.log| :: RecordOk(e.c, r.t, e.serverId, r.log[i]))
            && Inv(e, r)
  {
    RunKeepsInv(e, s, acts);
  }

  /** In every reachable state, a message sealed by a client is opened by the server to exactly the text the client sealed. */
  lemma ServerReadsWhatTheClientSealed(e: Env, s0: State, acts: seq<Act>, m: SendReq, plain: Text, id: nat, y: Sealed)
    requires Lawful(e.c) && Init(s0)
    requires var s := Run(e, s0, acts);
             && id in s.tasks
             && (s.tasks[id] == SendPeek(m, plain) || (s.tasks[id].SendReceiver? && s.tasks[id].m == m && s.tasks[id].plain == plain))
             && y in s.sealed
    requires y.plain != [] && y.k == RowKey(m.sender, e.serverId, m.keyId) && y.x == m.x && m.algorithm == ALGORITHM()
    ensures plain == y.plain
  {
    ReachableStates(e, s0, acts);
    var s := Run(e, s0, acts);
    assert TaskOk(e, s.t, s.now, s.tasks[id]);
  }

  /**
    End to end, in every reachable state: a stored message that a client sealed
    opens, under the cached key of any holder of the receiver's key, to the text
    that was sealed.
   */
  lemma ReceiverReadsWhatTheSenderSealed(e: Env, s0: State, acts: seq<Act>, i: nat, y: Sealed, holder: Text, slot: nat)
    requires Lawful(e.c) && Init(s0)
    requires var s := Run(e, s0, acts);
             && i < |s.log| && y in s.sealed && y.plain != [] && y.x == s.log[i].senderTriple
             && y.k == RowKey(s.log[i].senderId, e.serverId, s.log[i].senderKeyId)
             && holder in s.clients && slot < |s.clients[holder]| && s.clients[holder][slot] != EMPTY
             && KeyOf(s.clients[holder][slot]) == RowKey(s.log[i].receiverId, e.serverId, s.log[i].receiverKeyId)
    ensures var s := Run(e, s0, acts);
            DecryptMessage(e.c, s.clients[holder][slot].secret, s.log[i].receiverTriple, ALGORITHM()) == Some(y.plain)
  {
    ReachableStates(e, s0, acts);
    var s := Run(e, s0, acts);
    assert RecordOk(e.c, s.t, e.serverId, s.log[i]) && SealedOk(e, s.t, y);
    assert NodeOk(s.t, s.clients[holder][slot]);
  }

  /** Meaning lasts: a stored message still opens to the same text after any further run. */
  lemma StoredMeaningLasts(e: Env, s: State, acts: seq<Act>, row: LogRecord, plain: Text)
    requires Lawful(e.c) && Inv(e, s) && row in s.log
    requires Opens(e.c, s.t, RowKey(row.receiverId, e.serverId, row.receiverKeyId), row.receiverTriple, ALGORITHM(), plain)
    ensures Opens(e.c, Run(e, s, acts).t, RowKey(row.receiverId, e.serverId, row.receiverKeyId), row.receiverTriple, ALGORITHM(), plain)
  {
    RunKeepsInv(e, s, acts);
  }

  /** The cache is disabled for a logout only after its key has left Active, for good. */
  lemma LoggedOutIsDead(e: Env, s0: State, acts: seq<Act>, later: seq<Act>, id: nat)
    requires Lawful(e.c) && Init(s0)
    requires id in Run(e, s0, acts).tasks && Run(e, s0, acts).tasks[id].LogoutCache?
    ensures var s := Run(e, s0, acts);
            var k := s.tasks[id].k;
            && k in s.t.rows && s.t.rows[k].state != Active
            && k in Run(e, s, later).t.rows && Run(e, s, later).t.rows[k] == s.t.rows[k]
  {
    ReachableStates(e, s0, acts);
    var s := Run(e, s0, acts);
    assert TaskOk(e, s.t, s.now, s.tasks[id]);
    DeadKeysStayDead(e, s, later, s.tasks[id].k);
  }

  /** The lookup that a send task is in, and the row it is for. */
  function Lookup(e: Env, task: Task): Option<(RowKey, KeyGet)> {
    match task
    case SendSender(m, g) => Some((RowKey(m.sender, e.serverId, m.keyId), g))
    case SendReceiver(m, _, keyId, g) => Some((RowKey(m.receiver, e.serverId, keyId), g))
    case _ => None
  }

  /**
    In every reachable state `getActiveKey` turns valid only at a select step that
    finds the row Active, and the row had not expired when the expiry statement
    before it ran. The material it returns is the row's.
   */
  lemma ValidMeansLive(e: Env, s0: State, acts: seq<Act>, id: nat, ch: Choice)
    requires Lawful(e.c) && Init(s0)
    requires var s := Run(e, s0, acts);
             && id in s.tasks && Lookup(e, s.tasks[id]).Some?
             && var (k, g) := Lookup(e, s.tasks[id]).value; !g.Valid? && StepGet(s, k, g, ch).1.Valid?
    ensures var s := Run(e, s0, acts);
            var (k, g) := Lookup(e, s.tasks[id]).value;
            && g.AtSelect? && IsActive(s.t, k) && g.at <= s.now && g.at < s.t.rows[k].expire
            && StepGet(s, k, g, ch).1 == Valid(s.t.rows[k].secret, g.at)
  {
    ReachableStates(e, s0, acts);
    var s := Run(e, s0, acts);
    assert TaskOk(e, s.t, s.now, s.tasks[id]);
  }

  /** The select step that a task is at, for which row, and when its expiry statement ran. */
  function Selecting(e: Env, task: Task): Option<(RowKey, int)> {
    match task
    case CheckSelect(k, _, at) => Some((k, at))
    case SendSender(m, AtSelect(_, at)) => Some((RowKey(m.sender, e.serverId, m.keyId), at))
    case SendReceiver(m, _, keyId, AtSelect(_, at)) => Some((RowKey(m.receiver, e.serverId, keyId), at))
    case _ => None
  }

  lemma OnlySelectsSucceed(e: Env, s: State, task: Task, ch: Choice, k: RowKey)
    requires StepTask(e, s, task, ch).0.verdicts == s.verdicts + [Verdict(k, true)]
    ensures Selecting(e, task).Some? && Selecting(e, task).value.0 == k && IsActive(s.t, k)
  {
    var v := StepTask(e, s, task, ch).0.verdicts;
    assert v[|s.verdicts|] == Verdict(k, true);
  }

  /**
    In every reachable state a check succeeds, for `secKeyCheck` or for
    `getActiveKey`, only at a select that finds the row Active, and the row had not
    expired when the expiry statement before it ran.
   */
  lemma SuccessIsLive(e: Env, s0: State, acts: seq<Act>, id: nat, ch: Choice, k: RowKey)
    requires Lawful(e.c) && Init(s0)
    requires var s := Run(e, s0, acts);
             id in s.tasks && StepTask(e, s, s.tasks[id], ch).0.verdicts == s.verdicts + [Verdict(k, true)]
    ensures var s := Run(e, s0, acts);
            && Selecting(e, s.tasks[id]).Some? && Selecting(e, s.tasks[id]).value.0 == k
            && var at := Selecting(e, s.tasks[id]).value.1; IsActive(s.t, k) && at <= s.now && at < s.t.rows[k].expire
  {
    ReachableStates(e, s0, acts);
    var s := Run(e, s0, acts);
    assert TaskOk(e, s.t, s.now, s.tasks[id]);
    OnlySelectsSucceed(e, s, s.tasks[id], ch, k);
  }

  lemma {:induction false} DeadVerdicts(e: Env, s: State, acts: seq<Act>, k: RowKey)
    requires Lawful(e.c) && Inv(e, s) && k in s.t.rows && !IsActive(s.t, k)
    ensures var r := Run(e, s, acts);
            && s.verdicts <= r.verdicts
            && forall i | |s.verdicts| <= i < |r.verdicts| :: r.verdicts[i] != Verdict(k, true)
    decreases |acts|
  {
    if acts == [] {
    } else {
      ApplyKeepsInv(e, s, acts[0]);
      DeadVerdicts(e, Apply(e, s, acts[0]), acts[1..], k);
    }
  }

  /**
    Once a key has left Active its row never changes again and no later check of
    it succeeds, by `getActiveKey` or by `secKeyCheck`, whatever happens in between
    and whatever the caches hold; a SUCCESS that `secKeyCheck` still answers
    belongs to a check that had succeeded before.
   */
  lemma DeadKeysStayDead(e: Env, s: State, acts: seq<Act>, k: RowKey)
    requires Lawful(e.c) && Inv(e, s) && k in s.t.rows && !IsActive(s.t, k)
    ensures var r := Run(e, s, acts);
            && k in r.t.rows && r.t.rows[k] == s.t.rows[k]
            && s.verdicts <= r.verdicts
            && (forall i | |s.verdicts| <= i < |r.verdicts| :: r.verdicts[i] != Verdict(k, true))
            && (Verdict(k, true) in r.answers ==> Verdict(k, true) in s.verdicts)
  {
    RunKeepsInv(e, s, acts);
    DeadVerdicts(e, s, acts, k);
    var r := Run(e, s, acts);
    if Verdict(k, true) in r.answers {
      var i :| 0 <= i < |r.verdicts| && r.verdicts[i] == Verdict(k, true);
      assert s.verdicts[i] == r.verdicts[i];
    }
  }

  /** `getActiveKey` turns valid only together with a check that succeeds. */
  lemma ValidIsVerdict(s: State, k: RowKey, g: KeyGet, ch: Choice)
    requires !g.Valid? && StepGet(s, k, g, ch).1.Valid?
    ensures StepGet(s, k, g, ch).0.verdicts == s.verdicts + [Verdict(k, true)]
  {
  }
}
