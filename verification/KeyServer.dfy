/**
  The server, one request at a time: `ServerOP`, `MessageService` and
  `MessageQueryService` over the key tables and the slot array.
 */
module KeyServer {
  import opened Basics
  import opened KeyTables
  import opened KeyStore
  import opened SlotArray
  import opened Coherence
  import opened KeyLookup
  import opened MessageCrypto
  import opened MessageStore
  import opened Packets
  import opened Relay
  import opened ScopedIds

  /** What became of the `message_log` insert. */
  datatype InsertOutcome = Stored | NotStored | StoredUnreported

  /** What the handler does after its checks. */
  datatype Verdict =
    | Refuse(code: int, action: Action, target: Text)
    | Store(receiverKeyId: int, triple: Triple)

  /** The audited node: the sender named by the header, if there is one. */
  function NodeOf(packet: RequestPacket): Text {
    if packet.header.Some? then packet.header.value.senderId else []
  }

  /** The ids of the stored messages are among those issued, in the same order. */
  ghost predicate InIssueOrder(log: seq<LogRecord>, numbers: seq<nat>, issued: seq<Text>) {
    && |numbers| == |log|
    && (forall i | 0 <= i < |log| :: numbers[i] < |issued| && log[i].msgId == issued[numbers[i]])
    && (forall i, j | 0 <= i < j < |log| :: numbers[i] < numbers[j])
  }

  lemma LaterIssued(log: seq<LogRecord>, numbers: seq<nat>, issued: seq<Text>, later: seq<Text>)
    requires InIssueOrder(log, numbers, issued) && issued <= later
    ensures InIssueOrder(log, numbers, later)
  {
  }

  lemma StoredIdNotEmpty(log: seq<LogRecord>, numbers: seq<nat>, issued: seq<Text>, i: nat)
    requires InIssueOrder(log, numbers, issued) && Issued(issued) && i < |log|
    ensures log[i].msgId != []
  {
    NumberedNotEmpty(issued[numbers[i]], numbers[i] + 1);
  }

  /** As long as the id counter has not come round, the first message with the id of message `i` is message `i`. */
  lemma StoredIdsDiffer(log: seq<LogRecord>, numbers: seq<nat>, issued: seq<Text>, i: nat)
    requires InIssueOrder(log, numbers, issued) && Issued(issued) && |issued| <= TWO_64 && i < |log|
    ensures FindRecord(log, log[i].msgId) == i
  {
    var j := FindRecord(log, log[i].msgId);
    if j < i {
      IssuedIdsDiffer(issued, numbers[j], numbers[i]);
    }
  }

  /** The decision on a send as it shows in the answer, the audit entry and the stored messages. */
  predicate CarriedOut(o: Outcome, packet: RequestPacket, now: int, insert: InsertOutcome, code: int, a: Audit,
                       log: seq<LogRecord>, log': seq<LogRecord>)
  {
    match o
    case Refused(refusal, action, target, _, _) =>
      code == refusal && a.action == action && a.target == target && log' == log
    case Relayed(receiverKeyId, x, _, _) =>
      && ValidSend(packet)
      && code == (if insert.Stored? then RESULT_SUCCESS else RESULT_FAILED)
      && a.action == (if insert.Stored? then MSG_SEND else MSG_STORE)
      && log' == if insert.NotStored? then log else log + [RecordOf(packet, a.target, receiverKeyId, x, now)]
  }

  predicate OneAudit(before: seq<Audit>, after: seq<Audit>, node: Text, action: Action, target: Text, result: int) {
    && |after| == |before| + 1 && after[..|before|] == before
    && var a := after[|before|];
       a.nodeId == node && a.action == action && a.target == target && a.result == result
  }

  class Server {
    const serverId: Text
    const crypto: Crypto
    const db: MysqlOP
    const shm: SecKeyShm
    const ids: IdGenerator
    const queryIds: IdGenerator
    var log: seq<LogRecord>
    var audits: seq<Audit>
    /** Send requests answered SUCCESS/ACCEPTED. */
    ghost var accepted: nat
    /** Inserts that landed although they reported an error. */
    ghost var unreported: nat
    /** Where each stored message's id stands among the ids issued. */
    ghost var numbers: seq<nat>

    constructor (serverId: Text, crypto: Crypto, maxNode: nat)
      ensures this.serverId == serverId && this.crypto == crypto
      ensures Valid() && fresh(Repr()) && log == [] && audits == []
      ensures Synchronized()
    {
      this.serverId, this.crypto := serverId, crypto;
      db := new MysqlOP(true, INITIAL);
      shm := new SecKeyShm(maxNode);
      ids := new IdGenerator();
      queryIds := new IdGenerator();
      log, audits := [], [];
      accepted, unreported, numbers := 0, 0, [];
      new;
      ZeroRefines(maxNode);
    }

    ghost function Repr(): set<object> {
      {db, shm.slots, ids, queryIds}
    }

    /**
      Rows, responses and audit attempts balance: each accepted send has its row
      and its audited success. Rows carry ids that were issued, one after another.
     */
    ghost predicate Valid()
      reads this, ids, queryIds
    {
      && ids != queryIds && ids.Valid() && queryIds.Valid()
      && |log| == accepted + unreported
      && SentCount(audits) == accepted
      && InIssueOrder(log, numbers, ids.issued)
    }

    ghost function KeyTable(): Tables
      reads db
    {
      db.View()
    }

    ghost function Slots(): seq<Node>
      reads shm.slots
    {
      shm.slots[..]
    }

    /** The cache agrees exactly with the tables. */
    ghost predicate Synchronized()
      reads db, shm.slots
    {
      Coherent(KeyTable(), Slots())
    }

    // ----- ids and audit ----------------------------------------------------------

    /** One audit attempt. It does not touch the balance unless it records a successful send. */
    method LogAction(generator: IdGenerator, micros: int, node: Text, action: Action, target: Text, result: int)
      requires ids != queryIds && ids.Valid() && queryIds.Valid() && generator in {ids, queryIds}
      modifies this`audits, generator
      ensures ids.Valid() && queryIds.Valid() && old(ids.issued) <= ids.issued
      ensures old(InIssueOrder(log, numbers, ids.issued)) ==> InIssueOrder(log, numbers, ids.issued)
      ensures OneAudit(old(audits), audits, node, action, target, result)
      // under a fresh id of its own
      ensures generator.issued == old(generator.issued) + [audits[|old(audits)|].logId]
      ensures SentCount(audits) == SentCount(old(audits)) + if action == MSG_SEND && result == 1 then 1 else 0
    {
      ghost var was := ids.issued;
      var logId := generator.Generate(serverId + Bytes("_audit"), micros);
      if InIssueOrder(log, numbers, was) { LaterIssued(log, numbers, was, ids.issued); }
      var a := Audit(logId, node, action, target, result);
      SentCountStep(audits, a);
      audits := audits + [a];
    }

    // ----- key agreement -----------------------------------------------------------

    function KeyHeader(packet: RequestPacket, command: int, now: int): Header {
      match packet.header
      case None => Header([], command, serverId, [], now)
      case Some(h) => Header(h.messageId, command, serverId, h.senderId, now)
    }

    function KeyResponse(packet: RequestPacket, command: int, now: int, code: int, keyId: int, data: Text): ResponsePacket {
      ResponsePacket(Some(KeyHeader(packet, command, now)), KeyOpResp(code, [], keyId, data))
    }

    /**
      `verified` is the signature check, `secret` the Base64 of the fresh session
      key and `wrapped` that key under the client's RSA key.
     */
    method SeckeyAgree(packet: RequestPacket, now: int, verified: bool, secret: Text, wrapped: Text,
                       fails: set<Call>, landed: bool) returns (resp: ResponsePacket)
      modifies db, shm.slots
      ensures resp.header == Some(KeyHeader(packet, CMD_KEY_AGREE_RESP, now)) && resp.body.KeyOpResp?
      ensures packet.header.None? || !packet.body.KeyAgreeReq? ==>
                resp.body.code == RESULT_INVALID_REQUEST && KeyTable() == old(KeyTable()) && Slots() == old(Slots())
      // a refusal carries neither key id nor data
      ensures resp.body.code != RESULT_SUCCESS ==>
                resp.body == KeyOpResp(if packet.header.None? || !packet.body.KeyAgreeReq? then RESULT_INVALID_REQUEST
                                       else RESULT_KEY_AGREE_FAILED, [], 0, [])
      ensures resp.body.code == RESULT_SUCCESS <==>
                packet.header.Some? && packet.body.KeyAgreeReq? && verified
                && db.connected && StartTransaction !in fails && CommitWork !in fails
                && Completes(old(KeyTable()), Pair(packet.header.value.senderId, packet.header.value.receiverId), fails)
      ensures resp.body.code == RESULT_SUCCESS ==>
                var p := Pair(packet.header.value.senderId, packet.header.value.receiverId);
                AgreeEnabled(old(KeyTable()), p)
                && KeyTable() == Agree(old(KeyTable()), p, secret, now)
                && resp.body == KeyOpResp(RESULT_SUCCESS, [], old(KeyTable()).counter.value, wrapped)
                && Slots() == Write(old(Slots()), Node(1, resp.body.keyId, p.client, p.server, secret)).0
      // a bad signature is refused before any table or cache call
      ensures !verified ==> KeyTable() == old(KeyTable()) && Slots() == old(Slots())
      ensures packet.header.Some? && packet.body.KeyAgreeReq? && verified && db.connected ==>
                KeyTable() == AgreementLeaves(old(KeyTable()), Pair(packet.header.value.senderId, packet.header.value.receiverId),
                                              secret, now, fails, landed)
      // failure: the cache is untouched, and the tables too unless the commit landed or the rollback failed
      ensures resp.body.code != RESULT_SUCCESS ==> Slots() == old(Slots())
      ensures resp.body.code != RESULT_SUCCESS && RollbackWork !in fails && KeyTable() != old(KeyTable()) ==>
                && CommitWork in fails && landed && packet.header.Some?
                && var p := Pair(packet.header.value.senderId, packet.header.value.receiverId);
                   AgreeEnabled(old(KeyTable()), p) && KeyTable() == Agree(old(KeyTable()), p, secret, now)
      ensures TablesEvolve(old(KeyTable()), KeyTable())
      // a fault-free server stays synchronized
      ensures old(Synchronized()) && fails == {} ==> Synchronized()
    {
      if packet.header.None? || !packet.body.KeyAgreeReq? {
        return KeyResponse(packet, CMD_KEY_AGREE_RESP, now, RESULT_INVALID_REQUEST, 0, []);
      }
      var h := packet.header.value;
      if !verified {
        return KeyResponse(packet, CMD_KEY_AGREE_RESP, now, RESULT_KEY_AGREE_FAILED, 0, []);
      }
      var p := Pair(h.senderId, h.receiverId);
      var node := new NodeInfo(p, secret);
      var ok := db.WriteSecKeyWithTrans(node, now, fails, landed);
      LeftoverRows(old(KeyTable()), p, secret, now, fails);
      StepEvolves(old(KeyTable()), OpAgree(p, secret, now));
      if !ok {
        return KeyResponse(packet, CMD_KEY_AGREE_RESP, now, RESULT_KEY_AGREE_FAILED, 0, []);
      }
      var ret := shm.ShmWrite(Node(node.status, node.seckeyId, p.client, p.server, secret));
      if old(Synchronized()) {
        AgreeCoherent(old(KeyTable()), old(Slots()), p, secret, now);
      }
      return KeyResponse(packet, CMD_KEY_AGREE_RESP, now, RESULT_SUCCESS, node.seckeyId, wrapped);
    }

    // ----- key check ---------------------------------------------------------------

    method SecKeyCheck(packet: RequestPacket, now: int, fault: CheckFault) returns (resp: ResponsePacket)
      modifies db, shm.slots
      ensures resp.header == Some(KeyHeader(packet, CMD_KEY_CHECK_RESP, now)) && resp.body.KeyOpResp?
      ensures packet.header.None? || !packet.body.KeyCheckReq? ==>
                resp.body == KeyOpResp(RESULT_INVALID_REQUEST, [], 0, [])
                && KeyTable() == old(KeyTable()) && Slots() == old(Slots())
      ensures packet.header.Some? && packet.body.KeyCheckReq? ==>
                var k := RowKey(packet.header.value.senderId, packet.header.value.receiverId, packet.body.checkedId);
                var alive := !fault.expireFails && !fault.selectFails
                             && IsActive(old(KeyTable()), k) && now < old(KeyTable()).rows[k].expire;
                && KeyTable() == (if fault.expireFails then old(KeyTable()) else ExpireRow(old(KeyTable()), k, now))
                // success says that the key is alive, and only that: never what it is
                && resp.body == KeyOpResp(if alive then RESULT_SUCCESS else RESULT_KEY_INVALID, [], k.keyId, [])
                // a failed check disables the slot of the checked key, and no check that of another
                && Slots() == if !alive && Read(old(Slots()), Pair(k.client, k.server)).keyId == k.keyId
                              then SetStatus(old(Slots()), Pair(k.client, k.server), 0).0 else old(Slots())
      ensures old(Synchronized()) && fault == NO_FAULT ==> Synchronized()
    {
      if packet.header.None? || !packet.body.KeyCheckReq? {
        return KeyResponse(packet, CMD_KEY_CHECK_RESP, now, RESULT_INVALID_REQUEST, 0, []);
      }
      var h, keyId := packet.header.value, packet.body.checkedId;
      var p := Pair(h.senderId, h.receiverId);
      var k := RowKey(h.senderId, h.receiverId, keyId);
      var node := shm.ShmRead(p);
      var alive := db.CheckSecKey(k, now, fault.expireFails, fault.selectFails);
      if old(Synchronized()) {
        ReadCached(old(Slots()), p);
        ExpireCoherent(old(KeyTable()), old(Slots()), k, now);
      }
      if !alive {
        if node.keyId == keyId {
          var ret := shm.ShmUpdateStatus(p, 0);
        }
        return KeyResponse(packet, CMD_KEY_CHECK_RESP, now, RESULT_KEY_INVALID, keyId, []);
      }
      // the two success answers differ in their text only
      return KeyResponse(packet, CMD_KEY_CHECK_RESP, now, RESULT_SUCCESS, keyId, []);
    }

    // ----- key logout ----------------------------------------------------------------

    method SeckeyLogout(packet: RequestPacket, now: int, fails: bool) returns (resp: ResponsePacket)
      modifies db, shm.slots
      ensures resp.header == Some(KeyHeader(packet, CMD_KEY_LOGOUT_RESP, now)) && resp.body.KeyOpResp?
      ensures packet.header.None? || !packet.body.KeyLogoutReq? ==>
                resp.body == KeyOpResp(RESULT_INVALID_REQUEST, [], 0, [])
                && KeyTable() == old(KeyTable()) && Slots() == old(Slots())
      ensures packet.header.Some? && packet.body.KeyLogoutReq? ==>
                var k := RowKey(packet.header.value.senderId, packet.header.value.receiverId, packet.body.loggedOutId);
                && (if !fails && IsActive(old(KeyTable()), k)
                    then resp.body == KeyOpResp(RESULT_SUCCESS, [], k.keyId, [])
                         && KeyTable() == RevokeRow(old(KeyTable()), k, now)
                         && Slots() == SetStatus(old(Slots()), Pair(k.client, k.server), 0).0
                    else resp.body == KeyOpResp(RESULT_KEY_LOGOUT_FAILED, [], k.keyId, [])
                         && KeyTable() == old(KeyTable()) && Slots() == old(Slots()))
      ensures old(Synchronized()) ==> Synchronized()
      ensures TablesEvolve(old(KeyTable()), KeyTable())
    {
      if packet.header.None? || !packet.body.KeyLogoutReq? {
        return KeyResponse(packet, CMD_KEY_LOGOUT_RESP, now, RESULT_INVALID_REQUEST, 0, []);
      }
      var h, keyId := packet.header.value, packet.body.loggedOutId;
      var k := RowKey(h.senderId, h.receiverId, keyId);
      StepEvolves(KeyTable(), OpRevoke(k, now));
      if old(Synchronized()) && IsActive(old(KeyTable()), k) {
        RetireCoherent(old(KeyTable()), old(Slots()), k, Revoked, now);
      }
      var ok := db.LogoutSecKey(k, now, fails);
      if !ok {
        return KeyResponse(packet, CMD_KEY_LOGOUT_RESP, now, RESULT_KEY_LOGOUT_FAILED, keyId, []);
      }
      // success either way: the cache is secondary
      var ret := shm.ShmUpdateStatus(Pair(h.senderId, h.receiverId), 0);
      return KeyResponse(packet, CMD_KEY_LOGOUT_RESP, now, RESULT_SUCCESS, keyId, []);
    }

    // ----- getActiveKey -----------------------------------------------------------

    method GetActiveKey(k: RowKey, now: int, fault: CheckFault) returns (r: ActiveKey)
      modifies db, shm.slots
      ensures Lookup(KeyTable(), Slots(), r) == LookUp(old(KeyTable()), old(Slots()), k, now, fault)
    {
      var node := shm.ShmRead(PairOf(k));
      if node.client != [] && node.server != [] && node.keyId == k.keyId {
        if node.status == 1 {
          var alive := db.CheckSecKey(k, now, fault.expireFails, fault.selectFails);
          if !alive {
            var ret := shm.ShmUpdateStatus(PairOf(k), 0);
            return ActiveKey(true, false, [], k.keyId);
          }
          return ActiveKey(true, true, node.secret, k.keyId);
        }
        return ActiveKey(true, false, [], k.keyId);
      }
      var alive := db.CheckSecKey(k, now, fault.expireFails, fault.selectFails);
      if !alive {
        return ActiveKey(false, false, [], k.keyId);
      }
      // alive in the tables, but without cached material it cannot be used
      return ActiveKey(true, false, [], k.keyId);
    }

    // ----- storing ------------------------------------------------------------------

    /** A message id starts with the id of the server that issued it. */
    predicate NamesServer(msgId: Text) {
      serverId + Bytes("_msg_") <= msgId
    }

    /** Steps 7 to 9: a fresh id, and the `message_log` insert. */
    method InsertMessage(packet: RequestPacket, receiverKeyId: int, x: Triple, now: int, micros: int, insert: InsertOutcome)
      returns (msgId: Text)
      requires ids.Valid() && queryIds.Valid() && ids != queryIds && InIssueOrder(log, numbers, ids.issued)
      requires ValidSend(packet)
      modifies this`log, this`numbers, ids
      ensures ids.Valid() && queryIds.Valid() && InIssueOrder(log, numbers, ids.issued)
      ensures log == if insert.NotStored? then old(log)
                     else old(log) + [RecordOf(packet, msgId, receiverKeyId, x, now)]
      ensures NamesServer(msgId)
    {
      ghost var was := ids.issued;
      msgId := ids.Generate(serverId + Bytes("_msg"), micros);
      assert Bytes("_msg_") == Bytes("_msg") + [UNDERSCORE];
      LaterIssued(log, numbers, was, ids.issued);
      if insert != NotStored {
        log := log + [RecordOf(packet, msgId, receiverKeyId, x, now)];
        numbers := numbers + [|ids.issued| - 1];
      }
    }

    // ----- sending ------------------------------------------------------------------

    method BuildSendHeader(packet: RequestPacket, now: int, micros: int) returns (h: Header)
      requires ids.Valid()
      modifies ids
      ensures ids.Valid() && (old(InIssueOrder(log, numbers, ids.issued)) ==> InIssueOrder(log, numbers, ids.issued))
      ensures h.command == CMD_SEND_MSG_RESP && h.senderId == serverId && h.timestamp == now
      ensures h.receiverId == NodeOf(packet)
      ensures packet.header.Some? ==> h.messageId == packet.header.value.messageId
      ensures packet.header.None? ==> ids.issued == old(ids.issued) + [h.messageId]
    {
      match packet.header
      case Some(req) =>
        h := Header(req.messageId, CMD_SEND_MSG_RESP, serverId, req.senderId, now);
      case None =>
        ghost var was := ids.issued;
        var id := ids.Generate(serverId + Bytes("_msg"), micros);
        if InIssueOrder(log, numbers, was) { LaterIssued(log, numbers, was, ids.issued); }
        h := Header(id, CMD_SEND_MSG_RESP, serverId, [], now);
    }

    /** `validateRequest`, check by check. */
    method ValidateRequest(packet: RequestPacket) returns (ok: bool)
      ensures ok == ValidSend(packet)
    {
      if packet.header.None? {
        return false;
      }
      var h := packet.header.value;
      if !packet.body.SendMsgReq? {
        return false;
      }
      if packet.body.message.None? {
        return false;
      }
      var m := packet.body.message.value;
      if h.senderId == [] {
        return false;
      }
      if h.receiverId == [] {
        return false;
      }
      if m.keyId <= 0 {
        return false;
      }
      if m.ciphertext == [] {
        return false;
      }
      if m.algorithm == [] {
        return false;
      }
      return true;
    }

    /** Steps 2 to 6: validation, both keys, decryption and re-encryption; a refusal names its audit action and target. */
    method Authorize(packet: RequestPacket, now: int, senderFault: CheckFault, receiverFault: CheckFault, nonce: Text)
      returns (v: Verdict)
      modifies db, shm.slots
      ensures var o := Decide(crypto, serverId, packet, old(KeyTable()), old(Slots()), now, senderFault, receiverFault, nonce);
              && KeyTable() == o.t && Slots() == o.ss
              && match o
                 case Refused(code, action, target, _, _) => v == Refuse(code, action, target)
                 case Relayed(receiverKeyId, x, _, _) => v == Store(receiverKeyId, x) && ValidSend(packet)
    {
      var valid := ValidateRequest(packet);
      if !valid {
        return Refuse(RESULT_INVALID_REQUEST, MSG_SEND, []);
      }
      var h, m := packet.header.value, packet.body.message.value;
      var sender := GetActiveKey(SenderKey(serverId, packet), now, senderFault);
      if !sender.found {
        return Refuse(RESULT_KEY_NOT_FOUND, MSG_SEND, Number(m.keyId));
      }
      if !sender.valid {
        return Refuse(RESULT_KEY_INVALID, MSG_SEND, Number(m.keyId));
      }
      var plain := DecryptMessage(crypto, sender.secret, TripleOf(m), m.algorithm);
      if plain.None? {
        return Refuse(RESULT_DECRYPT_FAILED, MSG_DECRYPT, h.messageId);
      }
      v := SealForReceiver(h.receiverId, plain.value, now, receiverFault, nonce);
    }

    method SealForReceiver(receiverId: Text, plain: Text, now: int, fault: CheckFault, nonce: Text) returns (v: Verdict)
      modifies db, shm.slots
      ensures var k := RowKey(receiverId, serverId, Read(old(Slots()), Pair(receiverId, serverId)).keyId);
              var o := Deliver(crypto, k, plain, old(KeyTable()), old(Slots()), now, fault, nonce);
              && KeyTable() == o.t && Slots() == o.ss
              && match o
                 case Refused(code, action, target, _, _) => v == Refuse(code, action, target)
                 case Relayed(receiverKeyId, x, _, _) => v == Store(receiverKeyId, x)
    {
      var node := shm.ShmRead(Pair(receiverId, serverId));
      if node.client == [] || node.server == [] {
        return Refuse(RESULT_KEY_NOT_FOUND, MSG_DELIVER, receiverId);
      }
      var receiver := GetActiveKey(RowKey(receiverId, serverId, node.keyId), now, fault);
      if !receiver.found || !receiver.valid {
        return Refuse(if receiver.found then RESULT_KEY_INVALID else RESULT_KEY_NOT_FOUND, MSG_DELIVER, receiverId);
      }
      // under the material that passed the lifecycle check, not the raw slot
      var sealed := EncryptMessage(crypto, receiver.secret, plain, nonce);
      if sealed.None? {
        return Refuse(RESULT_FAILED, MSG_DELIVER, receiverId);
      }
      return Store(receiver.keyId, sealed.value);
    }

    /** Steps 7 to 11, for a message that has been re-encrypted. */
    method StoreAndReport(packet: RequestPacket, header: Header, receiverKeyId: int, x: Triple, now: int, micros: int,
                          insert: InsertOutcome) returns (resp: ResponsePacket)
      requires Valid() && ValidSend(packet)
      modifies this, ids
      ensures Valid() && |audits| == |old(audits)| + 1 && audits[..|old(audits)|] == old(audits)
      ensures var a := audits[|old(audits)|];
              && a.nodeId == NodeOf(packet)
              && log == (if insert.NotStored? then old(log)
                         else old(log) + [RecordOf(packet, a.target, receiverKeyId, x, now)])
              && if insert.Stored?
                 then a.action == MSG_SEND && a.result == 1
                      && resp == ResponsePacket(Some(header), SendMsgResp(RESULT_SUCCESS, [], a.target, now, DELIVERY_ACCEPTED))
                 else a.action == MSG_STORE && a.result == 0
                      && resp == ResponsePacket(Some(header), SendMsgResp(RESULT_FAILED, [], [], now, DELIVERY_REJECTED))
      ensures accepted == old(accepted) + if insert.Stored? then 1 else 0
      ensures unreported == old(unreported) + if insert.StoredUnreported? then 1 else 0
    {
      var msgId := InsertMessage(packet, receiverKeyId, x, now, micros, insert);
      if insert != Stored {
        if insert == StoredUnreported { unreported := unreported + 1; }
        LogAction(ids, micros, NodeOf(packet), MSG_STORE, msgId, 0);
        return ResponsePacket(Some(header), SendMsgResp(RESULT_FAILED, [], [], now, DELIVERY_REJECTED));
      }
      LogAction(ids, micros, NodeOf(packet), MSG_SEND, msgId, 1);
      accepted := accepted + 1;
      return ResponsePacket(Some(header), SendMsgResp(RESULT_SUCCESS, [], msgId, now, DELIVERY_ACCEPTED));
    }

    /** The code and the last audit entry say what was wrong with a send on tables `t` and slots `ss`. */
    ghost predicate MeansOneThing(packet: RequestPacket, t: Tables, ss: seq<Node>, now: int, insert: InsertOutcome, code: int)
      reads this
    {
      && audits != []
      && var a := audits[|audits| - 1];
         AnswersSend(crypto, serverId, packet, t, ss, now, insert.Stored?, Answer(code, a.action, a.target))
    }

    /**
      The relay. `nonce` is the 12 random bytes of the re-encryption, `insert`
      the fate of the `message_log` statement.
     */
    method HandleSendMessage(packet: RequestPacket, now: int, micros: int, senderFault: CheckFault,
                             receiverFault: CheckFault, nonce: Text, insert: InsertOutcome)
      returns (resp: ResponsePacket)
      requires Valid()
      modifies this, ids, db, shm.slots
      ensures Valid()
      ensures resp.header.Some? && resp.body.SendMsgResp?
      ensures var h := resp.header.value;
              && h.command == CMD_SEND_MSG_RESP && h.senderId == serverId && h.receiverId == NodeOf(packet) && h.timestamp == now
              && (packet.header.Some? ==> h.messageId == packet.header.value.messageId)
      // one audit attempt, its result 1 exactly for SUCCESS
      ensures |audits| == |old(audits)| + 1 && audits[..|old(audits)|] == old(audits)
      ensures var a := audits[|old(audits)|];
              a.nodeId == NodeOf(packet) && (a.result == 1 <==> resp.body.code == RESULT_SUCCESS)
      // the decision, taken on the tables and slots as they were
      ensures var o := Decide(crypto, serverId, packet, old(KeyTable()), old(Slots()), now, senderFault, receiverFault, nonce);
              && KeyTable() == o.t && Slots() == o.ss
              && CarriedOut(o, packet, now, insert, resp.body.code, audits[|old(audits)|], old(log), log)
      ensures unreported == old(unreported) + |log| - |old(log)| - if resp.body.code == RESULT_SUCCESS then 1 else 0
      // accepted exactly on success
      ensures resp.body.code == RESULT_SUCCESS ==>
                log == old(log) + [log[|log| - 1]] && resp.body.serverMessageId == log[|log| - 1].msgId
      ensures resp.body.code != RESULT_SUCCESS ==> resp.body.serverMessageId == []
      ensures resp.body.message == [] && resp.body.serverTime == now
      // in agreement and without faults, what each code and its audit entry mean
      ensures old(Synchronized()) && Lawful(crypto) && serverId != [] && senderFault == NO_FAULT && receiverFault == NO_FAULT ==>
                MeansOneThing(packet, old(KeyTable()), old(Slots()), now, insert, resp.body.code)
      ensures resp.body.deliveryStatus == if resp.body.code == RESULT_SUCCESS then DELIVERY_ACCEPTED else DELIVERY_REJECTED
      ensures accepted == old(accepted) + if resp.body.code == RESULT_SUCCESS then 1 else 0
    {
      RefusalIsNoSuccess(crypto, serverId, packet, KeyTable(), Slots(), now, senderFault, receiverFault, nonce);
      ghost var t, ss := KeyTable(), Slots();
      var header := BuildSendHeader(packet, now, micros);
      var v := Authorize(packet, now, senderFault, receiverFault, nonce);
      if v.Refuse? {
        LogAction(ids, micros, NodeOf(packet), v.action, v.target, 0);
        resp := ResponsePacket(Some(header), SendMsgResp(v.code, [], [], now, DELIVERY_REJECTED));
      } else {
        resp := StoreAndReport(packet, header, v.receiverKeyId, v.triple, now, micros, insert);
      }
      if Lawful(crypto) && serverId != [] && Coherent(t, ss) {
        RefusalsExactly(crypto, serverId, packet, t, ss, now, nonce, insert.Stored?, audits[|old(audits)|].target);
      }
    }

    // ----- queries ------------------------------------------------------------------

    /** The query service leaves the message id empty when the request has no header. */
    function QueryHeader(packet: RequestPacket, command: int, now: int): Header {
      match packet.header
      case None => Header([], command, serverId, [], now)
      case Some(h) => Header(h.messageId, command, serverId, h.senderId, now)
    }

    function QueryRefusal(packet: RequestPacket, now: int, code: int, msgId: Text): ResponsePacket {
      ResponsePacket(Some(QueryHeader(packet, CMD_QUERY_MSG_RESP, now)),
                     QueryMsgResp(code, [], MessageSummary(msgId, [], [], 0, [], 0, 0)))
    }

    /** `validateQueryRequest`, check by check. */
    method ValidateQuery(packet: RequestPacket) returns (ok: bool)
      ensures ok == ValidQuery(packet)
    {
      if packet.header.None? {
        return false;
      }
      if packet.header.value.senderId == [] {
        return false;
      }
      if !packet.body.QueryMsgReq? {
        return false;
      }
      if packet.body.serverMessageId == [] {
        return false;
      }
      return true;
    }

    /** `validateQueryListRequest`, check by check. */
    method ValidateListQuery(packet: RequestPacket) returns (ok: bool)
      ensures ok == ValidListQuery(packet)
    {
      if packet.header.None? {
        return false;
      }
      if !packet.body.QueryMsgListReq? {
        return false;
      }
      if packet.header.value.senderId == [] {
        return false;
      }
      if packet.body.senderId == [] {
        return false;
      }
      if packet.body.limit <= 0 || packet.body.limit > 100 {
        return false;
      }
      return true;
    }

    /** One stored message, for its sender or its receiver only; a refusal discloses nothing but the id asked for. */
    method HandleQueryMessage(packet: RequestPacket, now: int, micros: int, fails: bool) returns (resp: ResponsePacket)
      requires Valid()
      modifies this`audits, queryIds
      ensures Valid()
      ensures resp.header == Some(QueryHeader(packet, CMD_QUERY_MSG_RESP, now)) && resp.body.QueryMsgResp? && resp.body.message == []
      ensures resp.body.code == RESULT_SUCCESS <==>
                ValidQuery(packet) && !fails
                && FindRecord(log, packet.body.serverMessageId) < |log|
                && TakesPart(log[FindRecord(log, packet.body.serverMessageId)], packet.header.value.senderId)
      ensures if resp.body.code == RESULT_SUCCESS
              then resp.body.summary == Summary(log[FindRecord(log, packet.body.serverMessageId)])
              else resp == QueryRefusal(packet, now, resp.body.code,
                                        if ValidQuery(packet) then packet.body.serverMessageId else [])
      ensures resp.body.code in {RESULT_SUCCESS, RESULT_INVALID_REQUEST, RESULT_MSG_NOT_FOUND}
      ensures resp.body.code == RESULT_MSG_NOT_FOUND <==>
                ValidQuery(packet) && (fails || FindRecord(log, packet.body.serverMessageId) == |log|)
      ensures OneAudit(old(audits), audits, NodeOf(packet), MSG_QUERY,
                       if ValidQuery(packet) then packet.body.serverMessageId else [],
                       if resp.body.code == RESULT_SUCCESS then 1 else 0)
    {
      var valid := ValidateQuery(packet);
      if !valid {
        LogAction(queryIds, micros, NodeOf(packet), MSG_QUERY, [], 0);
        return QueryRefusal(packet, now, RESULT_INVALID_REQUEST, []);
      }
      var h, id := packet.header.value, packet.body.serverMessageId;
      var i := FindRecord(log, id);
      if fails || i == |log| {
        LogAction(queryIds, micros, h.senderId, MSG_QUERY, id, 0);
        return QueryRefusal(packet, now, RESULT_MSG_NOT_FOUND, id);
      }
      if h.senderId != log[i].senderId && h.senderId != log[i].receiverId {
        LogAction(queryIds, micros, h.senderId, MSG_QUERY, id, 0);
        return QueryRefusal(packet, now, RESULT_INVALID_REQUEST, id);
      }
      LogAction(queryIds, micros, h.senderId, MSG_QUERY, id, 1);
      return ResponsePacket(Some(QueryHeader(packet, CMD_QUERY_MSG_RESP, now)),
                            QueryMsgResp(RESULT_SUCCESS, [], Summary(log[i])));
    }

    method Summarize(stored: seq<LogRecord>) returns (messages: seq<MessageSummary>)
      ensures messages == Summaries(stored)
    {
      messages := [];
      for i := 0 to |stored|
        invariant messages == Summaries(stored[..i])
      {
        messages := messages + [Summary(stored[i])];
      }
      assert stored[..|stored|] == stored;
    }

    /** A sender's own recent messages. */
    method HandleQueryMessageList(packet: RequestPacket, now: int, micros: int, fails: bool)
      returns (resp: ResponsePacket)
      requires Valid()
      modifies this`audits, queryIds
      ensures Valid()
      ensures resp.header == Some(QueryHeader(packet, CMD_QUERY_MSG_LIST_RESP, now)) && resp.body.QueryMsgListResp?
      ensures resp.body.message == []
      ensures resp.body.code == if !ValidListQuery(packet) || packet.body.senderId != packet.header.value.senderId
                                then RESULT_INVALID_REQUEST
                                else if fails then RESULT_FAILED else RESULT_SUCCESS
      ensures resp.body.messages == if resp.body.code == RESULT_SUCCESS
                                    then Summaries(Recent(log, packet.header.value.senderId, packet.body.limit)) else []
      ensures OneAudit(old(audits), audits, NodeOf(packet), MSG_LIST_QUERY,
                       if ValidListQuery(packet) then packet.body.senderId else [],
                       if resp.body.code == RESULT_SUCCESS then 1 else 0)
    {
      var header := Some(QueryHeader(packet, CMD_QUERY_MSG_LIST_RESP, now));
      var valid := ValidateListQuery(packet);
      if !valid {
        LogAction(queryIds, micros, NodeOf(packet), MSG_LIST_QUERY, [], 0);
        return ResponsePacket(header, QueryMsgListResp(RESULT_INVALID_REQUEST, [], []));
      }
      var h, sender := packet.header.value, packet.body.senderId;
      if sender != h.senderId {
        LogAction(queryIds, micros, h.senderId, MSG_LIST_QUERY, sender, 0);
        return ResponsePacket(header, QueryMsgListResp(RESULT_INVALID_REQUEST, [], []));
      }
      if fails {
        LogAction(queryIds, micros, h.senderId, MSG_LIST_QUERY, sender, 0);
        return ResponsePacket(header, QueryMsgListResp(RESULT_FAILED, [], []));
      }
      var stored := Recent(log, sender, packet.body.limit);
      var messages := Summarize(stored);
      LogAction(queryIds, micros, h.senderId, MSG_LIST_QUERY, sender, 1);
      return ResponsePacket(header, QueryMsgListResp(RESULT_SUCCESS, [], messages));
    }
  }
}
