/**
  The step system against the serial server: a request that nobody interrupts
  ends as the handler ends, statement faults included.
 */
module Alone {
  import opened Basics
  import opened KeyTables
  import opened KeyStore
  import opened SlotArray
  import opened Coherence
  import opened KeyLookup
  import opened MessageCrypto
  import opened MessageStore
  import opened Packets
  import opened Relay
  import opened KeyServer
  import opened Interleaving
  import Client

  // ----- running a task to its end ------------------------------------------------------

  function GetRank(g: KeyGet): nat {
    match g
    case AtRead => 4
    case AtExpire(_) => 3
    case AtSelect(_, _) => 2
    case AtDisable => 1
    case _ => 0
  }

  /** Steps that are left at most; each step of a task has a rank of its own. */
  function Rank(task: Task): nat {
    match task
    case AgreeCommit(_, _) => 3
    case AgreePublish(_) => 2
    case AgreeReply(_) => 1
    case CheckRead(_) => 5
    case CheckExpire(_, _) => 4
    case CheckSelect(_, _, _) => 3
    case CheckDisable(_) => 2
    case CheckReply(_, _) => 1
    case LogoutUpdate(_) => 2
    case LogoutCache(_) => 1
    case SendSender(_, g) => 8 + GetRank(g)
    case SendPeek(_, _) => 7
    case SendReceiver(_, _, _, g) => 2 + GetRank(g)
    case SendStore(_, _) => 1
  }

  lemma GetStepsDown(s: State, k: RowKey, g: KeyGet, ch: Choice)
    requires !g.Valid? && !g.Refused?
    ensures var (s', g') := StepGet(s, k, g, ch); s'.tasks == s.tasks && GetRank(g') < GetRank(g)
  {
  }

  lemma SendStepsDown(e: Env, s: State, task: Task, ch: Choice)
    requires task.SendSender? || task.SendReceiver?
    ensures var (s', next) := StepTask(e, s, task, ch);
            s'.tasks == s.tasks && (next.Some? ==> Rank(next.value) < Rank(task))
  {
    if !task.get.Valid? && !task.get.Refused? {
      match task {
        case SendSender(m, g) => GetStepsDown(s, RowKey(m.sender, e.serverId, m.keyId), g, ch);
        case SendReceiver(m, _, keyId, g) => GetStepsDown(s, RowKey(m.receiver, e.serverId, keyId), g, ch);
      }
    }
  }

  lemma KeyStepsDown(e: Env, s: State, task: Task, ch: Choice)
    requires task.AgreeCommit? || task.AgreePublish? || task.AgreeReply? || task.LogoutUpdate? || task.LogoutCache?
    ensures var (s', next) := StepTask(e, s, task, ch);
            s'.tasks == s.tasks && (next.Some? ==> Rank(next.value) < Rank(task))
  {
  }

  lemma StepsDown(e: Env, s: State, task: Task, ch: Choice)
    ensures var (s', next) := StepTask(e, s, task, ch);
            s'.tasks == s.tasks && (next.Some? ==> Rank(next.value) < Rank(task))
  {
    if task.SendSender? || task.SendReceiver? {
      SendStepsDown(e, s, task, ch);
    } else if task.AgreeCommit? || task.AgreePublish? || task.AgreeReply? || task.LogoutUpdate? || task.LogoutCache? {
      KeyStepsDown(e, s, task, ch);
    }
  }

  /** The state in which a task ends that runs alone; `how` says how the step of each rank turns out. */
  function Finish(e: Env, s: State, task: Task, how: nat -> Choice): State
    decreases Rank(task)
  {
    StepsDown(e, s, task, how(Rank(task)));
    var (s', next) := StepTask(e, s, task, how(Rank(task)));
    match next
    case None => s'
    case Some(t) => Finish(e, s', t, how)
  }

  /** The actions of that run. */
  function Advances(e: Env, s: State, id: nat, task: Task, how: nat -> Choice): seq<Act>
    decreases Rank(task)
  {
    StepsDown(e, s, task, how(Rank(task)));
    var (s', next) := StepTask(e, s, task, how(Rank(task)));
    [Advance(id, how(Rank(task)))] +
    match next
    case None => []
    case Some(t) => Advances(e, SetTask(s', id, next), id, t, how)
  }

  predicate NoncesOk(how: nat -> Choice) {
    forall r | 0 <= r <= 12 :: NonceOk(how(r).nonce)
  }

  lemma {:induction false} AdvancesFinish(e: Env, s: State, id: nat, task: Task, how: nat -> Choice)
    requires id in s.tasks && s.tasks[id] == task && NoncesOk(how)
    ensures var r := Interleaving.Run(e, s, Advances(e, s, id, task, how));
            && r == Finish(e, s, task, how).(tasks := r.tasks)
            && id !in r.tasks && forall i | i != id :: (i in r.tasks <==> i in s.tasks) && (i in s.tasks ==> r.tasks[i] == s.tasks[i])
    decreases Rank(task)
  {
    var ch := how(Rank(task));
    assert Rank(task) <= 12;
    StepsDown(e, s, task, ch);
    var (s', next) := StepTask(e, s, task, ch);
    var s1 := SetTask(s', id, next);
    assert Apply(e, s, Advance(id, ch)) == s1;
    var acts := Advances(e, s, id, task, how);
    if next.None? {
      assert acts[1..] == [];
    } else {
      assert acts[1..] == Advances(e, s1, id, next.value, how);
      AdvancesFinish(e, s1, id, next.value, how);
      FinishFrame(e, s', s1.tasks, next.value, how);
    }
  }

  /** What the other workers are at makes no difference to it. */
  lemma {:induction false} FinishFrame(e: Env, s: State, tasks: map<nat, Task>, task: Task, how: nat -> Choice)
    ensures Finish(e, s.(tasks := tasks), task, how) == Finish(e, s, task, how).(tasks := tasks)
    decreases Rank(task)
  {
    var ch := how(Rank(task));
    StepsDown(e, s, task, ch);
    StepFrame(e, s, tasks, task, ch);
    var (s', next) := StepTask(e, s, task, ch);
    if next.Some? {
      FinishFrame(e, s', tasks, next.value, how);
    }
  }

  lemma GetFrame(s: State, tasks: map<nat, Task>, k: RowKey, g: KeyGet, ch: Choice)
    ensures StepGet(s.(tasks := tasks), k, g, ch).0 == StepGet(s, k, g, ch).0.(tasks := tasks)
    ensures StepGet(s.(tasks := tasks), k, g, ch).1 == StepGet(s, k, g, ch).1
  {
  }

  lemma SendFrame(e: Env, s: State, tasks: map<nat, Task>, task: Task, ch: Choice)
    requires task.SendSender? || task.SendReceiver?
    ensures StepTask(e, s.(tasks := tasks), task, ch).0 == StepTask(e, s, task, ch).0.(tasks := tasks)
    ensures StepTask(e, s.(tasks := tasks), task, ch).1 == StepTask(e, s, task, ch).1
  {
    match task
    case SendSender(m, g) => GetFrame(s, tasks, RowKey(m.sender, e.serverId, m.keyId), g, ch);
    case SendReceiver(m, _, keyId, g) => GetFrame(s, tasks, RowKey(m.receiver, e.serverId, keyId), g, ch);
  }

  lemma CommitFrame(e: Env, s: State, tasks: map<nat, Task>, p: Pair, secret: Text, ch: Choice)
    ensures StepTask(e, s.(tasks := tasks), AgreeCommit(p, secret), ch).0 == StepTask(e, s, AgreeCommit(p, secret), ch).0.(tasks := tasks)
    ensures StepTask(e, s.(tasks := tasks), AgreeCommit(p, secret), ch).1 == StepTask(e, s, AgreeCommit(p, secret), ch).1
  {
  }

  lemma KeyFrame(e: Env, s: State, tasks: map<nat, Task>, task: Task, ch: Choice)
    requires task.AgreePublish? || task.AgreeReply? || task.LogoutUpdate? || task.LogoutCache?
    ensures StepTask(e, s.(tasks := tasks), task, ch).0 == StepTask(e, s, task, ch).0.(tasks := tasks)
    ensures StepTask(e, s.(tasks := tasks), task, ch).1 == StepTask(e, s, task, ch).1
  {
  }

  lemma StepFrame(e: Env, s: State, tasks: map<nat, Task>, task: Task, ch: Choice)
    ensures StepTask(e, s.(tasks := tasks), task, ch).0 == StepTask(e, s, task, ch).0.(tasks := tasks)
    ensures StepTask(e, s.(tasks := tasks), task, ch).1 == StepTask(e, s, task, ch).1
  {
    if task.SendSender? || task.SendReceiver? {
      SendFrame(e, s, tasks, task, ch);
    } else if task.AgreeCommit? {
      CommitFrame(e, s, tasks, task.p, task.secret, ch);
    } else if task.AgreePublish? || task.AgreeReply? || task.LogoutUpdate? || task.LogoutCache? {
      KeyFrame(e, s, tasks, task, ch);
    }
  }

  lemma FinishNext(e: Env, s: State, task: Task, how: nat -> Choice)
    ensures var (s', next) := StepTask(e, s, task, how(Rank(task)));
            Finish(e, s, task, how) == if next.None? then s' else Finish(e, s', next.value, how)
  {
  }

  // ----- key requests -------------------------------------------------------------------

  lemma AgreeFinish(e: Env, s: State, p: Pair, secret: Text, how: nat -> Choice)
    ensures var ch, r := how(3), Finish(e, s, AgreeCommit(p, secret), how);
            && r.t == AgreementLeaves(s.t, p, secret, s.now, ch.calls, ch.landed)
            && if StartTransaction !in ch.calls && Completes(s.t, p, ch.calls) && CommitWork !in ch.calls
               then r.slots == Write(s.slots, Node(1, s.t.counter.value, p.client, p.server, secret)).0
                    && r.replies == s.replies + {Node(1, s.t.counter.value, p.client, p.server, secret)}
               else r.slots == s.slots && r.replies == s.replies
  {
    var task := AgreeCommit(p, secret);
    FinishNext(e, s, task, how);
    var (s', next) := StepTask(e, s, task, how(3));
    if next.Some? {
      FinishNext(e, s', next.value, how);
      FinishNext(e, s'.(slots := Write(s'.slots, next.value.node).0), AgreeReply(next.value.node), how);
    }
  }

  /**
    An agreement, with any failing calls: tables, slots and the key that goes out
    are those of the handler.
   */
  method AgreementAlone(server: Server, packet: RequestPacket, now: int, secret: Text, wrapped: Text, calls: set<Call>, landed: bool,
                        ghost e: Env, ghost s: State, ghost how: nat -> Choice) returns (resp: ResponsePacket)
    requires packet.header.Some? && packet.body.KeyAgreeReq? && server.db.connected
    requires s.t == server.KeyTable() && s.slots == server.Slots() && s.now == now
    requires how(3).calls == calls && how(3).landed == landed
    modifies server.db, server.shm.slots
    ensures resp.body.KeyOpResp?
    ensures var p := Pair(packet.header.value.senderId, packet.header.value.receiverId);
            var r := Finish(e, s, AgreeCommit(p, secret), how);
            && r.t == server.KeyTable() && r.slots == server.Slots()
            && r.replies == s.replies + if resp.body.code == RESULT_SUCCESS
                                        then {Node(1, resp.body.keyId, p.client, p.server, secret)} else {}
  {
    AgreeFinish(e, s, Pair(packet.header.value.senderId, packet.header.value.receiverId), secret, how);
    resp := server.SeckeyAgree(packet, now, true, secret, wrapped, calls, landed);
  }

  /** An expiry statement that fails may have had its effect; the check fails all the same. */
  lemma CheckFinish(e: Env, s: State, k: RowKey, how: nat -> Choice)
    ensures var r, fault := Finish(e, s, CheckRead(k), how), CheckFault(how(4).fails, how(3).fails);
            && r.t == (if how(4).fails && !how(4).landed then s.t else ExpireRow(s.t, k, s.now))
            && r.slots == (if !Passes(s.t, k, s.now, fault) && Read(s.slots, PairOf(k)).keyId == k.keyId
                           then SetStatus(s.slots, PairOf(k), 0).0 else s.slots)
            && r.answers == s.answers + [Verdict(k, Passes(s.t, k, s.now, fault))]
  {
    var cachedId := Read(s.slots, PairOf(k)).keyId;
    FinishNext(e, s, CheckRead(k), how);
    ExpireFinish(e, s, k, cachedId, how);
  }

  lemma ExpireFinish(e: Env, s: State, k: RowKey, cachedId: int, how: nat -> Choice)
    ensures var r, fault := Finish(e, s, CheckExpire(k, cachedId), how), CheckFault(how(4).fails, how(3).fails);
            && r.t == (if how(4).fails && !how(4).landed then s.t else ExpireRow(s.t, k, s.now))
            && r.slots == (if !Passes(s.t, k, s.now, fault) && cachedId == k.keyId
                           then SetStatus(s.slots, PairOf(k), 0).0 else s.slots)
            && r.answers == s.answers + [Verdict(k, Passes(s.t, k, s.now, fault))]
  {
    SelectAfterExpiry(s.t, k, s.now);
    FinishNext(e, s, CheckExpire(k, cachedId), how);
    var s1 := StepTask(e, s, CheckExpire(k, cachedId), how(4)).0;
    if how(4).fails {
      AfterCheckFinish(e, s1, k, cachedId, false, how);
    } else {
      SelectFinish(e, s1, k, cachedId, s.now, how);
    }
  }

  lemma SelectFinish(e: Env, s: State, k: RowKey, cachedId: int, at: int, how: nat -> Choice)
    ensures var r, ok := Finish(e, s, CheckSelect(k, cachedId, at), how), !how(3).fails && IsActive(s.t, k);
            && r.t == s.t && r.answers == s.answers + [Verdict(k, ok)]
            && r.slots == if !ok && cachedId == k.keyId then SetStatus(s.slots, PairOf(k), 0).0 else s.slots
  {
    var ok := !how(3).fails && IsActive(s.t, k);
    FinishNext(e, s, CheckSelect(k, cachedId, at), how);
    AfterCheckFinish(e, Record(s, k, ok), k, cachedId, ok, how);
  }

  lemma AfterCheckFinish(e: Env, s: State, k: RowKey, cachedId: int, ok: bool, how: nat -> Choice)
    ensures var r := Finish(e, s, AfterCheck(k, cachedId, ok), how);
            && r.t == s.t && r.answers == s.answers + [Verdict(k, ok)]
            && r.slots == if !ok && cachedId == k.keyId then SetStatus(s.slots, PairOf(k), 0).0 else s.slots
  {
    FinishNext(e, s, AfterCheck(k, cachedId, ok), how);
    if !ok && cachedId == k.keyId {
      FinishNext(e, s.(slots := SetStatus(s.slots, PairOf(k), 0).0), CheckReply(k, false), how);
    }
  }

  /** A check, with either statement failing: tables, slots and answer are those of the handler. */
  method CheckAlone(server: Server, packet: RequestPacket, now: int, fault: CheckFault,
                    ghost e: Env, ghost s: State, ghost how: nat -> Choice) returns (resp: ResponsePacket)
    requires packet.header.Some? && packet.body.KeyCheckReq?
    requires s.t == server.KeyTable() && s.slots == server.Slots() && s.now == now
    requires how(4).fails == fault.expireFails && how(3).fails == fault.selectFails && !how(4).landed
    modifies server.db, server.shm.slots
    ensures var k := RowKey(packet.header.value.senderId, packet.header.value.receiverId, packet.body.checkedId);
            var r := Finish(e, s, CheckRead(k), how);
            && r.t == server.KeyTable() && r.slots == server.Slots()
            && r.answers == s.answers + [Verdict(k, resp.body.KeyOpResp? && resp.body.code == RESULT_SUCCESS)]
  {
    CheckFinish(e, s, RowKey(packet.header.value.senderId, packet.header.value.receiverId, packet.body.checkedId), how);
    resp := server.SecKeyCheck(packet, now, fault);
  }

  /** A logout that fails may have had its effect; the cache is then not told. */
  lemma LogoutFinish(e: Env, s: State, k: RowKey, how: nat -> Choice)
    ensures var r := Finish(e, s, LogoutUpdate(k), how);
            && r.t == (if how(2).fails && !how(2).landed then s.t else RevokeRow(s.t, k, s.now))
            && r.slots == if !how(2).fails && IsActive(s.t, k) then SetStatus(s.slots, PairOf(k), 0).0 else s.slots
  {
    FinishNext(e, s, LogoutUpdate(k), how);
    if !how(2).fails && IsActive(s.t, k) {
      FinishNext(e, s.(t := RevokeRow(s.t, k, s.now)), LogoutCache(k), how);
    }
  }

  /** A logout, whether or not its statement fails: tables and slots are those of the handler. */
  method LogoutAlone(server: Server, packet: RequestPacket, now: int, fails: bool,
                     ghost e: Env, ghost s: State, ghost how: nat -> Choice) returns (resp: ResponsePacket)
    requires packet.header.Some? && packet.body.KeyLogoutReq?
    requires s.t == server.KeyTable() && s.slots == server.Slots() && s.now == now
    requires how(2).fails == fails && !how(2).landed
    modifies server.db, server.shm.slots
    ensures var k := RowKey(packet.header.value.senderId, packet.header.value.receiverId, packet.body.loggedOutId);
            var r := Finish(e, s, LogoutUpdate(k), how);
            r.t == server.KeyTable() && r.slots == server.Slots()
  {
    LogoutFinish(e, s, RowKey(packet.header.value.senderId, packet.header.value.receiverId, packet.body.loggedOutId), how);
    resp := server.SeckeyLogout(packet, now, fails);
  }

  /** The expiry statement of a lookup likewise: the row expires, and the lookup is refused. */
  lemma LandedExpiry(s: State, k: RowKey, hit: Option<Node>, ch: Choice)
    requires ch.fails && ch.landed
    ensures var (s', g) := StepGet(s, k, AtExpire(hit), ch);
            s'.t == ExpireRow(s.t, k, s.now) && g == if hit.Some? then AtDisable else KeyGet.Refused
  {
  }

  /** A worker that dies leaves everything but its own task as it was, and its number free. */
  lemma DeathLeavesTheRest(e: Env, s: State, id: nat, task: Task)
    requires id in s.tasks && Initial(task)
    ensures var s' := Apply(e, s, Die(id));
            && s' == s.(tasks := s'.tasks) && id !in s'.tasks
            && (forall i | i in s.tasks && i != id :: i in s'.tasks && s'.tasks[i] == s.tasks[i])
            && id in Apply(e, s', Arrive(id, task)).tasks
  {
  }

  // ----- sends ------------------------------------------------------------------------------

  /** The send task at another point of its lookup. */
  function Carry(task: Task, g: KeyGet): Task
    requires task.SendSender? || task.SendReceiver?
  {
    task.(get := g)
  }

  /** All of `getActiveKey` in one go. */
  function GetAll(s: State, k: RowKey, g: KeyGet, how: nat -> Choice, base: nat): (State, KeyGet)
    decreases GetRank(g)
  {
    if g.Valid? || g.Refused? then (s, g)
    else
      GetStepsDown(s, k, g, how(base + GetRank(g)));
      var (s', g') := StepGet(s, k, g, how(base + GetRank(g)));
      GetAll(s', k, g', how, base)
  }

  lemma {:induction false} LookupFinish(e: Env, s: State, task: Task, g: KeyGet, how: nat -> Choice)
    requires task.SendSender? || task.SendReceiver?
    ensures var k, base := Interleaving.Lookup(e, task).value.0, if task.SendSender? then 8 else 2;
            var (s', g') := GetAll(s, k, g, how, base);
            Finish(e, s, Carry(task, g), how) == Finish(e, s', Carry(task, g'), how)
    decreases GetRank(g)
  {
    if !g.Valid? && !g.Refused? {
      var k, base := Interleaving.Lookup(e, task).value.0, if task.SendSender? then 8 else 2;
      FinishNext(e, s, Carry(task, g), how);
      GetStepsDown(s, k, g, how(base + GetRank(g)));
      var (s', g') := StepGet(s, k, g, how(base + GetRank(g)));
      assert StepTask(e, s, Carry(task, g), how(base + GetRank(g))) == (s', Some(Carry(task, g')));
      LookupFinish(e, s', task, g', how);
    }
  }

  /** From the select on. */
  lemma GetFromSelect(s: State, k: RowKey, hit: Option<Node>, at: int, how: nat -> Choice, base: nat)
    ensures var ok, (s', g') := !how(base + 2).fails && IsActive(s.t, k), GetAll(s, k, AtSelect(hit, at), how, base);
            && s'.t == s.t && s'.now == s.now && s'.log == s.log
            && s'.slots == (if hit.Some? && !ok then SetStatus(s.slots, PairOf(k), 0).0 else s.slots)
            && g' == if hit.Some? && ok then KeyGet.Valid(hit.value.secret, at) else KeyGet.Refused
  {
    GetNext(s, k, AtSelect(hit, at), how, base);
    var (s1, g1) := StepGet(s, k, AtSelect(hit, at), how(base + 2));
    GetFromDisable(s1, k, g1, how, base);
  }

  lemma GetFromDisable(s: State, k: RowKey, g: KeyGet, how: nat -> Choice, base: nat)
    requires g.AtDisable? || g.Valid? || g.Refused?
    ensures GetAll(s, k, g, how, base) ==
            if g.AtDisable? then (s.(slots := SetStatus(s.slots, PairOf(k), 0).0), KeyGet.Refused) else (s, g)
  {
    GetNext(s, k, g, how, base);
  }

  /** It finds what the serial lookup finds, and leaves what that leaves. */
  lemma GetAllIsLookUp(s: State, k: RowKey, how: nat -> Choice, base: nat)
    requires how(base + 3).fails ==> !how(base + 3).landed
    ensures var l := LookUp(s.t, s.slots, k, s.now, CheckFault(how(base + 3).fails, how(base + 2).fails));
            var (s', g') := GetAll(s, k, AtRead, how, base);
            && s'.t == l.t && s'.slots == l.ss && s'.now == s.now && s'.log == s.log
            && g' == if l.key.valid then KeyGet.Valid(l.key.secret, s.now) else KeyGet.Refused
  {
    GetNext(s, k, AtRead, how, base);
    var g1 := StepGet(s, k, AtRead, how(base + 4)).1;
    if g1.AtExpire? {
      GetFromExpire(s, k, g1.hit, how, base);
    } else {
      GetFromDisable(s, k, g1, how, base);
    }
  }

  /** What the select finds after the expiry statement. */
  lemma SelectAfterExpiry(t: Tables, k: RowKey, now: int)
    ensures IsActive(ExpireRow(t, k, now), k) <==> Live(t, k, now)
  {
  }

  /** From the expiry statement on. */
  lemma GetFromExpire(s: State, k: RowKey, hit: Option<Node>, how: nat -> Choice, base: nat)
    requires how(base + 3).fails ==> !how(base + 3).landed
    ensures var fault := CheckFault(how(base + 3).fails, how(base + 2).fails);
            var alive, (s', g') := Passes(s.t, k, s.now, fault), GetAll(s, k, AtExpire(hit), how, base);
            && s'.t == Checked(s.t, k, s.now, fault) && s'.now == s.now && s'.log == s.log
            && s'.slots == (if hit.Some? && !alive then SetStatus(s.slots, PairOf(k), 0).0 else s.slots)
            && g' == if hit.Some? && alive then KeyGet.Valid(hit.value.secret, s.now) else KeyGet.Refused
  {
    SelectAfterExpiry(s.t, k, s.now);
    GetNext(s, k, AtExpire(hit), how, base);
    var (s2, g2) := StepGet(s, k, AtExpire(hit), how(base + 3));
    if g2.AtSelect? {
      GetFromSelect(s2, k, hit, s.now, how, base);
    } else {
      GetFromDisable(s2, k, g2, how, base);
    }
  }

  lemma GetNext(s: State, k: RowKey, g: KeyGet, how: nat -> Choice, base: nat)
    ensures GetAll(s, k, g, how, base) ==
            if g.Valid? || g.Refused? then (s, g)
            else var (s', g') := StepGet(s, k, g, how(base + GetRank(g))); GetAll(s', k, g', how, base)
  {
  }

  /** The request of a packet, as the steps know it. */
  function ReqOf(packet: RequestPacket): SendReq
    requires ValidSend(packet)
  {
    var h, m := packet.header.value, packet.body.message.value;
    SendReq(h.senderId, h.receiverId, m.keyId, TripleOf(m), m.algorithm)
  }

  /** No expiry statement takes effect and fails all the same: the serial server has no such outcome. */
  predicate NoneLanded(how: nat -> Choice) {
    (how(11).fails ==> !how(11).landed) && (how(5).fails ==> !how(5).landed)
  }

  function Decision(e: Env, s: State, packet: RequestPacket, how: nat -> Choice): Outcome {
    Decide(e.c, e.serverId, packet, s.t, s.slots, s.now, CheckFault(how(11).fails, how(10).fails),
           CheckFault(how(5).fails, how(4).fails), how(2).nonce)
  }

  /** The last two steps: re-encryption and the insert, which may report an error and land. */
  lemma StoreFinish(e: Env, s: State, m: SendReq, plain: Text, keyId: int, secret: Text, at: int, how: nat -> Choice)
    ensures var x, r := EncryptMessage(e.c, secret, plain, how(2).nonce), Finish(e, s, SendReceiver(m, plain, keyId, Valid(secret, at)), how);
            && r.t == s.t && r.slots == s.slots
            && r.log == if x.Some? && (how(1).fails ==> how(1).landed)
                        then s.log + [LogRecord(how(2).msgId, m.sender, m.receiver, m.keyId, keyId, m.x, x.value, ALGORITHM(), s.now)]
                        else s.log
  {
    FinishNext(e, s, SendReceiver(m, plain, keyId, Valid(secret, at)), how);
    var next := StepTask(e, s, SendReceiver(m, plain, keyId, Valid(secret, at)), how(2)).1;
    if next.Some? {
      FinishNext(e, s, next.value, how);
    }
  }

  /** The serial delivery, once the slot was read. */
  lemma DeliverNext(c: Crypto, k: RowKey, plain: Text, t: Tables, ss: seq<Node>, now: int, fault: CheckFault, nonce: Text)
    requires Read(ss, PairOf(k)).client != [] && Read(ss, PairOf(k)).server != []
    ensures var o, l := Deliver(c, k, plain, t, ss, now, fault, nonce), LookUp(t, ss, k, now, fault);
            && o.t == l.t && o.ss == l.ss
            && (o.Relayed? <==> l.key.valid && EncryptMessage(c, l.key.secret, plain, nonce).Some?)
            && (o.Relayed? ==> o.receiverKeyId == k.keyId && EncryptMessage(c, l.key.secret, plain, nonce) == Some(o.triple))
  {
    ValidIsLive(t, ss, k, now, fault);
  }

  /** A send task after its lookup, which went as the serial one goes. */
  lemma LookedUp(e: Env, s: State, task: Task, how: nat -> Choice) returns (s': State, g: KeyGet)
    requires (task.SendSender? || task.SendReceiver?) && NoneLanded(how)
    ensures var k, base := Interleaving.Lookup(e, task).value.0, if task.SendSender? then 8 else 2;
            var l := LookUp(s.t, s.slots, k, s.now, CheckFault(how(base + 3).fails, how(base + 2).fails));
            && Finish(e, s, Carry(task, AtRead), how) == Finish(e, s', Carry(task, g), how)
            && s'.t == l.t && s'.slots == l.ss && s'.now == s.now && s'.log == s.log
            && g == if l.key.valid then KeyGet.Valid(l.key.secret, s.now) else KeyGet.Refused
  {
    var k, base := Interleaving.Lookup(e, task).value.0, if task.SendSender? then 8 else 2;
    LookupFinish(e, s, task, AtRead, how);
    GetAllIsLookUp(s, k, how, base);
    var r := GetAll(s, k, AtRead, how, base);
    s', g := r.0, r.1;
  }

  lemma RefusedEnds(e: Env, s: State, task: Task, how: nat -> Choice)
    requires (task.SendSender? || task.SendReceiver?) && task.get.Refused?
    ensures Finish(e, s, task, how) == s
  {
    FinishNext(e, s, task, how);
  }

  /** The receiver's lookup and what follows it. */
  lemma ReceiverFinish(e: Env, s: State, m: SendReq, plain: Text, keyId: int, how: nat -> Choice)
    requires NoneLanded(how)
    ensures var l := LookUp(s.t, s.slots, RowKey(m.receiver, e.serverId, keyId), s.now, CheckFault(how(5).fails, how(4).fails));
            var x, r := EncryptMessage(e.c, l.key.secret, plain, how(2).nonce), Finish(e, s, SendReceiver(m, plain, keyId, AtRead), how);
            && r.t == l.t && r.slots == l.ss
            && r.log == if l.key.valid && x.Some? && (how(1).fails ==> how(1).landed)
                        then s.log + [LogRecord(how(2).msgId, m.sender, m.receiver, m.keyId, keyId, m.x, x.value, ALGORITHM(), s.now)]
                        else s.log
  {
    var s', g := LookedUp(e, s, SendReceiver(m, plain, keyId, AtRead), how);
    if g.Valid? {
      StoreFinish(e, s', m, plain, keyId, g.secret, g.at, how);
    } else {
      RefusedEnds(e, s', SendReceiver(m, plain, keyId, g), how);
    }
  }

  /** From the decrypted text on: the receiver's half. */
  lemma DeliverFinish(e: Env, s: State, m: SendReq, plain: Text, how: nat -> Choice)
    requires NoneLanded(how)
    ensures var k := RowKey(m.receiver, e.serverId, Read(s.slots, Pair(m.receiver, e.serverId)).keyId);
            var o := Deliver(e.c, k, plain, s.t, s.slots, s.now, CheckFault(how(5).fails, how(4).fails), how(2).nonce);
            var r := Finish(e, s, SendPeek(m, plain), how);
            && r.t == o.t && r.slots == o.ss
            && r.log == if o.Relayed? && (how(1).fails ==> how(1).landed)
                        then s.log + [LogRecord(how(2).msgId, m.sender, m.receiver, m.keyId, o.receiverKeyId, m.x, o.triple, ALGORITHM(), s.now)]
                        else s.log
  {
    var n := Read(s.slots, Pair(m.receiver, e.serverId));
    var k := RowKey(m.receiver, e.serverId, n.keyId);
    FinishNext(e, s, SendPeek(m, plain), how);
    if n.client != [] && n.server != [] {
      ReceiverFinish(e, s, m, plain, n.keyId, how);
      DeliverNext(e.c, k, plain, s.t, s.slots, s.now, CheckFault(how(5).fails, how(4).fails), how(2).nonce);
    }
  }

  lemma SenderStep(e: Env, s: State, m: SendReq, secret: Text, at: int, ch: Choice)
    ensures var plain := DecryptMessage(e.c, secret, m.x, m.algorithm);
            StepTask(e, s, SendSender(m, Valid(secret, at)), ch) == (s, if plain.None? then None else Some(SendPeek(m, plain.value)))
  {
  }

  /** After the sender's lookup: the decrypted text goes on to the receiver's half, or there is none. */
  lemma SenderEnds(e: Env, s: State, m: SendReq, secret: Text, at: int, how: nat -> Choice)
    ensures var plain := DecryptMessage(e.c, secret, m.x, m.algorithm);
            Finish(e, s, SendSender(m, Valid(secret, at)), how) == if plain.None? then s else Finish(e, s, SendPeek(m, plain.value), how)
  {
    SenderStep(e, s, m, secret, at, how(8));
    FinishNext(e, s, SendSender(m, Valid(secret, at)), how);
  }

  /**
    A send, with any faults of its two lookups and of the insert: tables, slots
    and stored messages are those of the handler's decision.
   */
  lemma SendFinish(e: Env, s: State, packet: RequestPacket, how: nat -> Choice)
    requires ValidSend(packet) && NoneLanded(how)
    ensures var o, r := Decision(e, s, packet, how), Finish(e, s, SendSender(ReqOf(packet), AtRead), how);
            && r.t == o.t && r.slots == o.ss
            && r.log == if o.Relayed? && (how(1).fails ==> how(1).landed)
                        then s.log + [RecordOf(packet, how(2).msgId, o.receiverKeyId, o.triple, s.now)] else s.log
  {
    var m := ReqOf(packet);
    var s', g := LookedUp(e, s, SendSender(m, AtRead), how);
    if g.Valid? {
      SenderEnds(e, s', m, g.secret, g.at, how);
      var plain := DecryptMessage(e.c, g.secret, m.x, m.algorithm);
      if plain.Some? { DeliverFinish(e, s', m, plain.value, how); }
      ValidIsLive(s.t, s.slots, SenderKey(e.serverId, packet), s.now, CheckFault(how(11).fails, how(10).fails));
    } else {
      RefusedEnds(e, s', SendSender(m, g), how);
    }
  }

  // ----- the whole run, time, and clients ---------------------------------------------------

  /** An agreement, a check, a logout or a send that has just been read. */
  predicate Fresh(task: Task) {
    task.AgreeCommit? || task.CheckRead? || task.LogoutUpdate? || (task.SendSender? && task.get == AtRead)
  }

  /** Any request can arrive and run to its end, whatever else is under way, and leaves no task behind. */
  lemma RequestsCanFinish(e: Env, s: State, id: nat, task: Task, how: nat -> Choice)
    requires id !in s.tasks && Fresh(task) && NoncesOk(how)
    ensures var s1 := SetTask(s, id, Some(task));
            var r := Interleaving.Run(e, s, [Arrive(id, task)] + Advances(e, s1, id, task, how));
            r == Finish(e, s, task, how).(tasks := s.tasks)
  {
    var s1 := SetTask(s, id, Some(task));
    var acts := Advances(e, s1, id, task, how);
    ArriveFirst(e, s, id, task, acts);
    AdvancesFinish(e, s1, id, task, how);
    FinishFrame(e, s, s1.tasks, task, how);
    SameTasks(s.tasks, Interleaving.Run(e, s1, acts).tasks, id, task);
  }

  lemma ArriveFirst(e: Env, s: State, id: nat, task: Task, acts: seq<Act>)
    requires id !in s.tasks && Initial(task)
    ensures Interleaving.Run(e, s, [Arrive(id, task)] + acts) == Interleaving.Run(e, SetTask(s, id, Some(task)), acts)
  {
    assert ([Arrive(id, task)] + acts)[1..] == acts;
  }

  lemma SameTasks(before: map<nat, Task>, after: map<nat, Task>, id: nat, task: Task)
    requires id !in before && id !in after
    requires forall i | i != id :: (i in after <==> i in before[id := task]) && (i in before[id := task] ==> after[i] == before[id := task][i])
    ensures after == before
  {
    assert forall i :: i in after <==> i in before;
  }

  /** A key that is due and then checked is Expired, and the check says so. */
  lemma DueKeysExpire(e: Env, s: State, k: RowKey, dt: nat, how: nat -> Choice)
    requires IsActive(s.t, k) && s.t.rows[k].expire <= s.now + dt && !how(4).fails
    ensures var late := Interleaving.Run(e, s, [Tick(dt)]);
            var r := Finish(e, late, CheckRead(k), how);
            && k in r.t.rows && r.t.rows[k] == Left(s.t.rows[k], Expired, s.now + dt)
            && r.answers == s.answers + [Verdict(k, false)]
  {
    var late := Apply(e, s, Tick(dt));
    assert [Tick(dt)][1..] == [];
    assert Interleaving.Run(e, s, [Tick(dt)]) == Interleaving.Run(e, late, []);
    CheckFinish(e, late, k, how);
  }

  /** A reply that a client stores is what it then seals under, and what it disables it no longer does. */
  lemma ClientsSealUnderTheReply(e: Env, s: State, node: Node, plain: Text, nonce: Text)
    requires node in s.replies && node.client in s.clients && Client.HasPlace(s.clients[node.client], node.Of())
    requires node.client != [] && node.server != [] && node.status == 1 && NonceOk(nonce)
    requires EncryptText(e.c, node.secret, plain, nonce).Some?
    ensures var s1 := Apply(e, s, ClientStore(node.client, node));
            var s2, s3 := Apply(e, s1, ClientSeal(node.client, node.Of(), plain, nonce)), Apply(e, s1, ClientDisable(node.client, node.Of()));
            && Sealed(KeyOf(node), plain, EncryptText(e.c, node.secret, plain, nonce).value) in s2.sealed
            && Read(s3.clients[node.client], node.Of()) == node.(status := 0)
            && Apply(e, s3, ClientSeal(node.client, node.Of(), plain, nonce)) == s3
  {
    var p, ss := node.Of(), s.clients[node.client];
    StoredIsRead(ss, node);
    var s1 := Apply(e, s, ClientStore(node.client, node));
    assert s1.clients[node.client] == Write(ss, node).0;
    DisabledIsRead(Write(ss, node).0, p);
    var s3 := Apply(e, s1, ClientDisable(node.client, p));
    assert s3.clients[node.client] == SetStatus(Write(ss, node).0, p, 0).0;
  }

  lemma StoredIsRead(ss: seq<Node>, node: Node)
    requires Client.HasPlace(ss, node.Of())
    ensures Read(Write(ss, node).0, node.Of()) == node
  {
    var ss' := Write(ss, node).0;
    var j := if FindPair(ss, node.Of()) < |ss| then FindPair(ss, node.Of()) else FindEmpty(ss);
    assert ss' == ss[j := node] && ss'[j].Of() == node.Of();
    assert forall i | 0 <= i < j :: ss'[i] == ss[i] && ss[i].Of() != node.Of();
    assert FindPair(ss', node.Of()) == j;
  }

  lemma DisabledIsRead(ss: seq<Node>, p: Pair)
    ensures Read(SetStatus(ss, p, 0).0, p) == Read(ss, p).(status := 0)
  {
    var j, ss' := FindPair(ss, p), SetStatus(ss, p, 0).0;
    assert forall i | 0 <= i < j :: ss'[i] == ss[i];
    if j < |ss| { assert ss'[j].Of() == p; }
    assert FindPair(ss', p) == j;
  }
}
