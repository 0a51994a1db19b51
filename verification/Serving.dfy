/** `processV2Request` and whole runs of requests, one after the other. */
module Serving {
  import opened Basics
  import opened KeyTables
  import opened KeyStore
  import opened SlotArray
  import opened Coherence
  import opened KeyLookup
  import opened MessageCrypto
  import opened MessageStore
  import opened Packets
  import opened Relay
  import opened KeyServer
  import opened Survival

  /** Everything a request meets besides the stored state: clock, random bytes, results of other libraries, faults. */
  datatype Env = Env(
    now: int, micros: int, nonce: Text,
    verified: bool, secret: Text, wrapped: Text,
    agreeFails: set<Call>, landed: bool, logoutFails: bool, queryFails: bool,
    fault: CheckFault, receiverFault: CheckFault, insert: InsertOutcome)

  predicate FaultFree(env: Env) {
    env.agreeFails == {} && env.fault == NO_FAULT && env.receiverFault == NO_FAULT && |env.nonce| == GCM_NONCE_SIZE
  }

  predicate Accepted(resp: ResponsePacket) {
    resp.body.SendMsgResp? && resp.body.code == RESULT_SUCCESS
  }

  predicate IsAudited(packet: RequestPacket) {
    packet.body.SendMsgReq? || packet.body.QueryMsgReq? || packet.body.QueryMsgListReq?
  }

  function ReplyCommand(body: RequestBody): int {
    match body
    case QueryMsgReq(_) => CMD_QUERY_MSG_RESP
    case QueryMsgListReq(_, _) => CMD_QUERY_MSG_LIST_RESP
    case KeyAgreeReq(_, _) => CMD_KEY_AGREE_RESP
    case KeyCheckReq(_) => CMD_KEY_CHECK_RESP
    case KeyLogoutReq(_) => CMD_KEY_LOGOUT_RESP
    case _ => CMD_SEND_MSG_RESP
  }

  predicate SameKind(request: RequestBody, response: ResponseBody) {
    match request
    case QueryMsgReq(_) => response.QueryMsgResp?
    case QueryMsgListReq(_, _) => response.QueryMsgListResp?
    case KeyAgreeReq(_, _) => response.KeyOpResp?
    case KeyCheckReq(_) => response.KeyOpResp?
    case KeyLogoutReq(_) => response.KeyOpResp?
    case _ => response.SendMsgResp?
  }

  /** Key material leaves the server only in the answer to an agreement that succeeded. */
  predicate KeepsSecrets(packet: RequestPacket, body: ResponseBody) {
    body.KeyOpResp? && body.data != [] ==> packet.body.KeyAgreeReq? && body.code == RESULT_SUCCESS
  }

  /** A reply goes back to the sender, under the request's message id, in the form of its request. */
  predicate Answers(serverId: Text, packet: RequestPacket, resp: ResponsePacket) {
    && resp.header.Some? && SameKind(packet.body, resp.body) && resp.body.message == [] && KeepsSecrets(packet, resp.body)
    && var h := resp.header.value;
       && h.senderId == serverId && h.receiverId == NodeOf(packet) && h.command == ReplyCommand(packet.body)
       && (packet.header.Some? ==> h.messageId == packet.header.value.messageId)
  }

  /**
    An agreement or a logout succeeds only with a good signature or a statement
    that worked, and the agreed key goes out wrapped for its client.
   */
  predicate Justified(packet: RequestPacket, resp: ResponsePacket, env: Env) {
    && (resp.header.Some? ==> resp.header.value.timestamp == env.now)
    && (Succeeded(resp) && packet.body.KeyAgreeReq? ==> env.verified && resp.body.data == env.wrapped)
    && (Succeeded(resp) && packet.body.KeyLogoutReq? ==> !env.logoutFails)
  }

  ghost predicate LogOk(c: Crypto, t: Tables, serverId: Text, log: seq<LogRecord>) {
    forall i | 0 <= i < |log| :: RecordOk(c, t, serverId, log[i])
  }

  /** Cache and tables agree, and every stored message still means one text. */
  ghost predicate Healthy(s: Server)
    reads s, s.db, s.shm.slots
  {
    s.Synchronized() && LogOk(s.crypto, s.KeyTable(), s.serverId, s.log)
  }

  /** The request is relayed, and its insert lands although it reports an error. */
  ghost predicate LandsUnreported(s: Server, t: Tables, ss: seq<Node>, packet: RequestPacket, env: Env) {
    && packet.body.SendMsgReq? && env.insert.StoredUnreported?
    && Decide(s.crypto, s.serverId, packet, t, ss, env.now, env.fault, env.receiverFault, env.nonce).Relayed?
  }

  lemma LogLasts(c: Crypto, t: Tables, t': Tables, serverId: Text, log: seq<LogRecord>)
    requires TablesEvolve(t, t') && LogOk(c, t, serverId, log)
    ensures LogOk(c, t', serverId, log)
  {
    forall i | 0 <= i < |log|
      ensures RecordOk(c, t', serverId, log[i])
    {
      RecordLasts(c, t, t', serverId, log[i]);
    }
  }

  /**
    What a fault-free request does to a healthy server, of which `t` and `ss` were
    the tables and slots: it stays healthy, and the live keys it spares survive.
   */
  ghost predicate Thrives(s: Server, wasHealthy: bool, t: Tables, ss: seq<Node>, packet: RequestPacket, resp: ResponsePacket,
                          env: Env)
    reads s, s.db, s.shm.slots
  {
    Lawful(s.crypto) && s.serverId != [] && FaultFree(env) && wasHealthy ==>
      Healthy(s) && LiveKeysSurvive(t, ss, s.KeyTable(), s.Slots(), [packet], [resp], [env.now])
  }

  method ProcessSend(s: Server, packet: RequestPacket, env: Env) returns (resp: ResponsePacket)
    requires s.Valid() && packet.body.SendMsgReq?
    modifies s, s.Repr()
    ensures s.Valid() && Answers(s.serverId, packet, resp) && Justified(packet, resp, env)
    ensures |s.audits| == |old(s.audits)| + 1 && s.accepted == old(s.accepted) + if Accepted(resp) then 1 else 0
    ensures s.unreported == old(s.unreported) + if LandsUnreported(s, old(s.KeyTable()), old(s.Slots()), packet, env) then 1 else 0
    ensures TablesEvolve(old(s.KeyTable()), s.KeyTable()) && old(s.log) <= s.log
    ensures Thrives(s, old(Healthy(s)), old(s.KeyTable()), old(s.Slots()), packet, resp, env)
  {
    ghost var t, ss := s.KeyTable(), s.Slots();
    resp := s.HandleSendMessage(packet, env.now, env.micros, env.fault, env.receiverFault, env.nonce, env.insert);
    DecisionEvolves(s.crypto, s.serverId, packet, t, ss, env.now, env.fault, env.receiverFault, env.nonce);
    if Lawful(s.crypto) && s.serverId != [] && FaultFree(env) && old(Healthy(s)) {
      SendKeepsHealth(s.crypto, s.serverId, packet, resp, t, ss, env, old(s.log), s.log, s.audits[|old(s.audits)|].target);
    }
  }

  /** A fault-free send on healthy tables, slots and log. */
  lemma SendKeepsHealth(c: Crypto, serverId: Text, packet: RequestPacket, resp: ResponsePacket, t: Tables, ss: seq<Node>,
                        env: Env, log: seq<LogRecord>, log': seq<LogRecord>, msgId: Text)
    requires Lawful(c) && serverId != [] && FaultFree(env) && Coherent(t, ss) && LogOk(c, t, serverId, log)
    requires var o := Decide(c, serverId, packet, t, ss, env.now, env.fault, env.receiverFault, env.nonce);
             || log' == log
             || (o.Relayed? && ValidSend(packet) && log' == log + [RecordOf(packet, msgId, o.receiverKeyId, o.triple, env.now)])
    ensures var o := Decide(c, serverId, packet, t, ss, env.now, env.fault, env.receiverFault, env.nonce);
            Coherent(o.t, o.ss) && LogOk(c, o.t, serverId, log') && LiveKeysSurvive(t, ss, o.t, o.ss, [packet], [resp], [env.now])
  {
    var o := Decide(c, serverId, packet, t, ss, env.now, env.fault, env.receiverFault, env.nonce);
    RelayedExactly(c, serverId, packet, t, ss, env.now, env.nonce);
    DecisionEvolves(c, serverId, packet, t, ss, env.now, env.fault, env.receiverFault, env.nonce);
    LogLasts(c, t, o.t, serverId, log);
    if o.Relayed? {
      RelayedIsLive(c, serverId, packet, t, ss, env.now, env.fault, env.receiverFault, env.nonce);
      RelayedRecordOk(c, serverId, packet, msgId, t, ss, env.now, env.fault, env.receiverFault, env.nonce);
    }
    SendSparesAll(c, serverId, packet, resp, t, ss, env.now, env.fault, env.receiverFault, env.nonce);
  }

  method ProcessAgree(s: Server, packet: RequestPacket, env: Env) returns (resp: ResponsePacket)
    requires packet.body.KeyAgreeReq?
    modifies s.db, s.shm.slots
    ensures Answers(s.serverId, packet, resp) && Justified(packet, resp, env)
    ensures TablesEvolve(old(s.KeyTable()), s.KeyTable())
    ensures Thrives(s, old(Healthy(s)), old(s.KeyTable()), old(s.Slots()), packet, resp, env)
  {
    ghost var t, ss := s.KeyTable(), s.Slots();
    resp := s.SeckeyAgree(packet, env.now, env.verified, env.secret, env.wrapped, env.agreeFails, env.landed);
    if FaultFree(env) && old(Healthy(s)) {
      LogLasts(s.crypto, t, s.KeyTable(), s.serverId, s.log);
      if resp.body.code == RESULT_SUCCESS {
        AgreementSparesAll(t, ss, packet, resp, env.secret, env.now);
      } else {
        NothingSparesAll(t, ss, packet, resp, env.now);
      }
    }
  }

  method ProcessCheck(s: Server, packet: RequestPacket, env: Env) returns (resp: ResponsePacket)
    requires packet.body.KeyCheckReq?
    modifies s.db, s.shm.slots
    ensures Answers(s.serverId, packet, resp) && Justified(packet, resp, env)
    ensures TablesEvolve(old(s.KeyTable()), s.KeyTable())
    ensures Thrives(s, old(Healthy(s)), old(s.KeyTable()), old(s.Slots()), packet, resp, env)
  {
    ghost var t, ss := s.KeyTable(), s.Slots();
    resp := s.SecKeyCheck(packet, env.now, env.fault);
    if packet.header.Some? {
      var checked := RowKey(packet.header.value.senderId, packet.header.value.receiverId, packet.body.checkedId);
      CheckedEvolves(t, checked, env.now, env.fault);
      if FaultFree(env) && old(Healthy(s)) {
        LogLasts(s.crypto, t, s.KeyTable(), s.serverId, s.log);
        CheckSparesAll(t, ss, packet, resp, checked, env.now);
      }
    } else {
      NothingSparesAll(t, ss, packet, resp, env.now);
      if old(Healthy(s)) { LogLasts(s.crypto, t, s.KeyTable(), s.serverId, s.log); }
    }
  }

  method ProcessLogout(s: Server, packet: RequestPacket, env: Env) returns (resp: ResponsePacket)
    requires packet.body.KeyLogoutReq?
    modifies s.db, s.shm.slots
    ensures Answers(s.serverId, packet, resp) && Justified(packet, resp, env)
    ensures TablesEvolve(old(s.KeyTable()), s.KeyTable())
    ensures Thrives(s, old(Healthy(s)), old(s.KeyTable()), old(s.Slots()), packet, resp, env)
  {
    ghost var t, ss := s.KeyTable(), s.Slots();
    resp := s.SeckeyLogout(packet, env.now, env.logoutFails);
    if FaultFree(env) && old(Healthy(s)) {
      LogLasts(s.crypto, t, s.KeyTable(), s.serverId, s.log);
      if resp.body.code == RESULT_SUCCESS {
        LogoutSparesAll(t, ss, packet, resp, env.now);
      } else {
        NothingSparesAll(t, ss, packet, resp, env.now);
      }
    }
  }

  /** The queries, and a packet without a body: keys and messages stay as they are. */
  method ProcessQuery(s: Server, packet: RequestPacket, env: Env) returns (resp: ResponsePacket)
    requires s.Valid() && (packet.body.QueryMsgReq? || packet.body.QueryMsgListReq? || packet.body.NoRequest?)
    modifies s`audits, s.ids, s.queryIds
    ensures s.Valid() && Answers(s.serverId, packet, resp) && Justified(packet, resp, env)
    ensures |s.audits| == |old(s.audits)| + if IsAudited(packet) then 1 else 0
    ensures !Accepted(resp) && !Succeeded(resp)
    ensures Thrives(s, old(Healthy(s)), s.KeyTable(), s.Slots(), packet, resp, env)
  {
    match packet.body {
      case QueryMsgReq(_) =>
        resp := s.HandleQueryMessage(packet, env.now, env.micros, env.queryFails);
      case QueryMsgListReq(_, _) =>
        resp := s.HandleQueryMessageList(packet, env.now, env.micros, env.queryFails);
      case NoRequest =>
        var h := s.QueryHeader(packet, CMD_SEND_MSG_RESP, env.now);
        resp := ResponsePacket(Some(h), SendMsgResp(RESULT_INVALID_REQUEST, [], [], env.now, DELIVERY_REJECTED));
    }
    NothingSparesAll(s.KeyTable(), s.Slots(), packet, resp, env.now);
  }

  method ProcessV2Request(s: Server, packet: RequestPacket, env: Env) returns (resp: ResponsePacket)
    requires s.Valid()
    modifies s, s.Repr()
    ensures s.Valid() && Answers(s.serverId, packet, resp) && Justified(packet, resp, env)
    // accounting
    ensures |s.audits| == |old(s.audits)| + if IsAudited(packet) then 1 else 0
    ensures s.accepted == old(s.accepted) + if packet.body.SendMsgReq? && Accepted(resp) then 1 else 0
    ensures !packet.body.SendMsgReq? ==> !Accepted(resp)
    ensures s.unreported == old(s.unreported) + if LandsUnreported(s, old(s.KeyTable()), old(s.Slots()), packet, env) then 1 else 0
    // stored keys and messages only live on
    ensures TablesEvolve(old(s.KeyTable()), s.KeyTable()) && old(s.log) <= s.log
    ensures Thrives(s, old(Healthy(s)), old(s.KeyTable()), old(s.Slots()), packet, resp, env)
  {
    match packet.body {
      case SendMsgReq(_) =>
        resp := ProcessSend(s, packet, env);
      case KeyAgreeReq(_, _) =>
        resp := ProcessAgree(s, packet, env);
      case KeyCheckReq(_) =>
        resp := ProcessCheck(s, packet, env);
      case KeyLogoutReq(_) =>
        resp := ProcessLogout(s, packet, env);
      case _ =>
        resp := ProcessQuery(s, packet, env);
    }
  }

  // ----- runs -----------------------------------------------------------------------

  function AcceptedCount(resps: seq<ResponsePacket>): nat {
    if resps == [] then 0
    else AcceptedCount(resps[..|resps| - 1]) + if Accepted(resps[|resps| - 1]) then 1 else 0
  }

  function AuditedCount(requests: seq<RequestPacket>): nat {
    if requests == [] then 0
    else AuditedCount(requests[..|requests| - 1]) + if IsAudited(requests[|requests| - 1]) then 1 else 0
  }

  lemma AcceptedOneMore(resps: seq<ResponsePacket>, resp: ResponsePacket)
    ensures AcceptedCount(resps + [resp]) == AcceptedCount(resps) + if Accepted(resp) then 1 else 0
  {
    assert (resps + [resp])[..|resps|] == resps;
  }

  lemma AuditedOneMore(requests: seq<RequestPacket>, i: nat)
    requires i < |requests|
    ensures AuditedCount(requests[..i + 1]) == AuditedCount(requests[..i]) + if IsAudited(requests[i]) then 1 else 0
  {
    assert requests[..i + 1][..i] == requests[..i];
  }

  predicate AllAnswered(serverId: Text, requests: seq<RequestPacket>, resps: seq<ResponsePacket>) {
    |resps| == |requests| && forall i | 0 <= i < |resps| :: Answers(serverId, requests[i], resps[i])
  }

  lemma AnsweredOneMore(serverId: Text, requests: seq<RequestPacket>, resps: seq<ResponsePacket>, i: nat, resp: ResponsePacket)
    requires i < |requests| && AllAnswered(serverId, requests[..i], resps) && Answers(serverId, requests[i], resp)
    ensures AllAnswered(serverId, requests[..i + 1], resps + [resp])
  {
    assert requests[..i + 1] == requests[..i] + [requests[i]];
  }

  predicate AllJustified(requests: seq<RequestPacket>, resps: seq<ResponsePacket>, envs: seq<Env>)
    requires |requests| == |resps| == |envs|
  {
    forall i | 0 <= i < |resps| :: Justified(requests[i], resps[i], envs[i])
  }

  lemma JustifiedOneMore(requests: seq<RequestPacket>, resps: seq<ResponsePacket>, envs: seq<Env>, i: nat, resp: ResponsePacket)
    requires i == |resps| < |requests| == |envs|
    requires AllJustified(requests[..i], resps, envs[..i]) && Justified(requests[i], resp, envs[i])
    ensures AllJustified(requests[..i + 1], resps + [resp], envs[..i + 1])
  {
  }

  /** No request can end the key: nobody with a good signature agrees for its pair, no working logout names it, it is not due. */
  predicate Harmless(requests: seq<RequestPacket>, envs: seq<Env>, k: RowKey, expire: int)
    requires |requests| == |envs|
  {
    forall i | 0 <= i < |requests| ::
      && envs[i].now < expire
      && (AgreesFor(requests[i], PairOf(k)) ==> !envs[i].verified)
      && (LogsOut(requests[i], k) ==> envs[i].logoutFails)
  }

  lemma HarmlessSpares(requests: seq<RequestPacket>, resps: seq<ResponsePacket>, envs: seq<Env>, k: RowKey, expire: int)
    requires |requests| == |resps| == |envs| && AllJustified(requests, resps, envs) && Harmless(requests, envs, k, expire)
    ensures Spared(requests, resps, Times(envs), k, expire)
  {
    forall i | 0 <= i < |requests|
      ensures Spares(requests[i], resps[i], Times(envs)[i], k, expire)
    {
      assert Justified(requests[i], resps[i], envs[i]);
    }
  }

  /** Every insert that lands reports so. */
  predicate AllReported(envs: seq<Env>) {
    forall i | 0 <= i < |envs| :: envs[i].insert != StoredUnreported
  }

  predicate AllFaultFree(envs: seq<Env>) {
    forall i | 0 <= i < |envs| :: FaultFree(envs[i])
  }

  lemma EvolveTogether(a: Tables, b: Tables, c: Tables)
    requires TablesEvolve(a, b) && TablesEvolve(b, c)
    ensures TablesEvolve(a, c)
  {
  }

  function Times(envs: seq<Env>): (ts: seq<int>)
    ensures |ts| == |envs| && forall i | 0 <= i < |envs| :: ts[i] == envs[i].now
  {
    seq(|envs|, i requires 0 <= i < |envs| => envs[i].now)
  }

  lemma OneMore(requests: seq<RequestPacket>, envs: seq<Env>, i: nat)
    requires i < |requests| == |envs|
    ensures requests[..i + 1] == requests[..i] + [requests[i]]
    ensures Times(envs[..i + 1]) == Times(envs[..i]) + [envs[i].now]
  {
  }

  /** A healthy server in which the live keys of `t` and `ss` have survived the requests so far. */
  ghost predicate HealthyRun(s: Server, t: Tables, ss: seq<Node>, requests: seq<RequestPacket>, resps: seq<ResponsePacket>,
                             times: seq<int>)
    requires |times| == |requests| == |resps|
    reads s, s.db, s.shm.slots
  {
    Healthy(s) && LiveKeysSurvive(t, ss, s.KeyTable(), s.Slots(), requests, resps, times)
  }

  /** One more request of a run. */
  method ServeNext(s: Server, packet: RequestPacket, env: Env, ghost t: Tables, ghost ss: seq<Node>,
                   ghost requests: seq<RequestPacket>, ghost resps: seq<ResponsePacket>, ghost times: seq<int>)
    returns (resp: ResponsePacket)
    requires s.Valid() && |times| == |requests| == |resps|
    modifies s, s.Repr()
    ensures s.Valid() && Answers(s.serverId, packet, resp) && Justified(packet, resp, env)
    ensures |s.audits| == |old(s.audits)| + if IsAudited(packet) then 1 else 0
    ensures s.accepted == old(s.accepted) + if Accepted(resp) then 1 else 0
    ensures s.unreported == old(s.unreported) + if LandsUnreported(s, old(s.KeyTable()), old(s.Slots()), packet, env) then 1 else 0
    ensures TablesEvolve(t, old(s.KeyTable())) ==> TablesEvolve(t, s.KeyTable())
    ensures old(s.log) <= s.log
    ensures Lawful(s.crypto) && s.serverId != [] && FaultFree(env) && old(HealthyRun(s, t, ss, requests, resps, times)) ==>
              HealthyRun(s, t, ss, requests + [packet], resps + [resp], times + [env.now])
  {
    ghost var before, slots := s.KeyTable(), s.Slots();
    resp := ProcessV2Request(s, packet, env);
    if TablesEvolve(t, before) {
      EvolveTogether(t, before, s.KeyTable());
    }
    if Lawful(s.crypto) && s.serverId != [] && FaultFree(env) && old(HealthyRun(s, t, ss, requests, resps, times)) {
      SurvivalGoesOn(t, ss, before, slots, s.KeyTable(), s.Slots(), requests, resps, times, packet, resp, env.now);
    }
  }

  /**
    Any run of requests. New `message_log` rows are as many as SUCCESS/ACCEPTED
    answers and inserts that landed although they reported an error; audited
    successful sends are as many as those answers, and every send and query is
    audited once. A fault-free run ends as healthy as it began, and every Active
    key of a cached pair lives through it unless the run logs it out or agrees on
    another for its pair, answering SUCCESS, or lasts until it is due. Refused
    requests, whatever they name, do it no harm.
   */
  method Serve(s: Server, requests: seq<RequestPacket>, envs: seq<Env>) returns (resps: seq<ResponsePacket>)
    requires s.Valid() && |envs| == |requests|
    modifies s, s.Repr()
    ensures s.Valid()
    ensures AllAnswered(s.serverId, requests, resps) && AllJustified(requests, resps, envs)
    ensures SentCount(s.audits) == SentCount(old(s.audits)) + AcceptedCount(resps)
    ensures |s.audits| == |old(s.audits)| + AuditedCount(requests)
    ensures |s.log| == |old(s.log)| + AcceptedCount(resps) + (s.unreported - old(s.unreported))
    ensures old(s.unreported) <= s.unreported
    ensures AllReported(envs) ==> s.unreported == old(s.unreported)
    ensures TablesEvolve(old(s.KeyTable()), s.KeyTable()) && old(s.log) <= s.log
    ensures Lawful(s.crypto) && s.serverId != [] && old(Healthy(s)) && AllFaultFree(envs) ==>
              Healthy(s)
              && LiveKeysSurvive(old(s.KeyTable()), old(s.Slots()), s.KeyTable(), s.Slots(), requests, resps, Times(envs))
  {
    resps := [];
    ghost var t, ss := s.KeyTable(), s.Slots();
    NothingHappened(t, ss);
    for i := 0 to |requests|
      invariant s.Valid() && AllAnswered(s.serverId, requests[..i], resps)
      invariant AllJustified(requests[..i], resps, envs[..i])
      invariant s.accepted == old(s.accepted) + AcceptedCount(resps)
      invariant |s.audits| == |old(s.audits)| + AuditedCount(requests[..i])
      invariant old(s.log) <= s.log && TablesEvolve(t, s.KeyTable())
      invariant old(s.unreported) <= s.unreported
      invariant AllReported(envs) ==> s.unreported == old(s.unreported)
      invariant Lawful(s.crypto) && s.serverId != [] && old(Healthy(s)) && AllFaultFree(envs) ==>
                  HealthyRun(s, t, ss, requests[..i], resps, Times(envs[..i]))
    {
      var resp := ServeNext(s, requests[i], envs[i], t, ss, requests[..i], resps, Times(envs[..i]));
      OneMore(requests, envs, i);
      AnsweredOneMore(s.serverId, requests, resps, i, resp);
      JustifiedOneMore(requests, resps, envs, i, resp);
      AcceptedOneMore(resps, resp);
      AuditedOneMore(requests, i);
      resps := resps + [resp];
    }
    assert requests[..|requests|] == requests && envs[..|envs|] == envs;
  }
}
