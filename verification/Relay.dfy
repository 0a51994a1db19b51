/**
  The relay decision of `handleSendMessage`: from the request, the tables and the
  slots to a refusal or a re-encrypted message.
 */
module Relay {
  import opened Basics
  import opened KeyTables
  import opened SlotArray
  import opened Coherence
  import opened KeyLookup
  import opened MessageCrypto
  import opened MessageStore
  import opened Packets
  import opened ScopedIds

  /** The checks of `validateRequest`. */
  predicate ValidSend(packet: RequestPacket) {
    && packet.header.Some? && packet.body.SendMsgReq? && packet.body.message.Some?
    && packet.header.value.senderId != [] && packet.header.value.receiverId != []
    && packet.body.message.value.keyId > 0
    && packet.body.message.value.ciphertext != [] && packet.body.message.value.algorithm != []
  }

  function TripleOf(m: EncryptedMessage): Triple {
    Triple(m.ciphertext, m.nonce, m.tag)
  }

  function SenderKey(serverId: Text, packet: RequestPacket): RowKey
    requires ValidSend(packet)
  {
    RowKey(packet.header.value.senderId, serverId, packet.body.message.value.keyId)
  }

  /** The receiver's key is whichever one the cache holds. */
  function ReceiverKey(serverId: Text, packet: RequestPacket, ss: seq<Node>): RowKey
    requires ValidSend(packet)
  {
    var receiver := packet.header.value.receiverId;
    RowKey(receiver, serverId, Read(ss, Pair(receiver, serverId)).keyId)
  }

  datatype Outcome =
    | Refused(code: int, action: Action, target: Text, t: Tables, ss: seq<Node>)
    | Relayed(receiverKeyId: int, triple: Triple, t: Tables, ss: seq<Node>)

  function Decide(c: Crypto, serverId: Text, packet: RequestPacket, t: Tables, ss: seq<Node>, now: int,
                  senderFault: CheckFault, receiverFault: CheckFault, nonce: Text): Outcome
  {
    if !ValidSend(packet) then Refused(RESULT_INVALID_REQUEST, MSG_SEND, [], t, ss)
    else
      var m := packet.body.message.value;
      var s := LookUp(t, ss, SenderKey(serverId, packet), now, senderFault);
      if !s.key.found then Refused(RESULT_KEY_NOT_FOUND, MSG_SEND, Number(m.keyId), s.t, s.ss)
      else if !s.key.valid then Refused(RESULT_KEY_INVALID, MSG_SEND, Number(m.keyId), s.t, s.ss)
      else
        match DecryptMessage(c, s.key.secret, TripleOf(m), m.algorithm)
        case None => Refused(RESULT_DECRYPT_FAILED, MSG_DECRYPT, packet.header.value.messageId, s.t, s.ss)
        case Some(plain) => Deliver(c, ReceiverKey(serverId, packet, s.ss), plain, s.t, s.ss, now, receiverFault, nonce)
  }

  function Deliver(c: Crypto, k: RowKey, plain: Text, t: Tables, ss: seq<Node>, now: int, fault: CheckFault,
                   nonce: Text): Outcome
  {
    var n := Read(ss, PairOf(k));
    if n.client == [] || n.server == [] then Refused(RESULT_KEY_NOT_FOUND, MSG_DELIVER, k.client, t, ss)
    else
      var r := LookUp(t, ss, k, now, fault);
      if !r.key.found || !r.key.valid then
        Refused(if r.key.found then RESULT_KEY_INVALID else RESULT_KEY_NOT_FOUND, MSG_DELIVER, k.client, r.t, r.ss)
      else
        match EncryptMessage(c, r.key.secret, plain, nonce)
        case None => Refused(RESULT_FAILED, MSG_DELIVER, k.client, r.t, r.ss)
        case Some(x) => Relayed(k.keyId, x, r.t, r.ss)
  }

  /** A refusal is never reported as a success. */
  lemma RefusalIsNoSuccess(c: Crypto, serverId: Text, packet: RequestPacket, t: Tables, ss: seq<Node>, now: int,
                           senderFault: CheckFault, receiverFault: CheckFault, nonce: Text)
    ensures var o := Decide(c, serverId, packet, t, ss, now, senderFault, receiverFault, nonce);
            o.Refused? ==> o.code != RESULT_SUCCESS && o.action in {MSG_SEND, MSG_DECRYPT, MSG_DELIVER}
  {
  }

  /** Whatever the decision, every key row lives on or expires. */
  lemma DecisionEvolves(c: Crypto, serverId: Text, packet: RequestPacket, t: Tables, ss: seq<Node>, now: int,
                        senderFault: CheckFault, receiverFault: CheckFault, nonce: Text)
    ensures TablesEvolve(t, Decide(c, serverId, packet, t, ss, now, senderFault, receiverFault, nonce).t)
  {
    if ValidSend(packet) {
      var sk := SenderKey(serverId, packet);
      ValidIsLive(t, ss, sk, now, senderFault);
      if LookUp(t, ss, sk, now, senderFault).key.valid {
        ValidIsLive(t, ss, ReceiverKey(serverId, packet, ss), now, receiverFault);
      }
    }
  }

  /** The text a request carries, opened under the cached material of the sender's pair. */
  function Carried(c: Crypto, serverId: Text, packet: RequestPacket, ss: seq<Node>): Option<Text>
    requires ValidSend(packet)
  {
    var m := packet.body.message.value;
    DecryptMessage(c, Read(ss, PairOf(SenderKey(serverId, packet))).secret, TripleOf(m), m.algorithm)
  }

  /**
    With any cache and any faults: a message is relayed only while both keys are
    live, and what the receiver's cached material opens is what the sender's opened.
   */
  lemma RelayedIsLive(c: Crypto, serverId: Text, packet: RequestPacket, t: Tables, ss: seq<Node>, now: int,
                      senderFault: CheckFault, receiverFault: CheckFault, nonce: Text)
    requires Lawful(c) && |nonce| == GCM_NONCE_SIZE
    requires Decide(c, serverId, packet, t, ss, now, senderFault, receiverFault, nonce).Relayed?
    ensures var o := Decide(c, serverId, packet, t, ss, now, senderFault, receiverFault, nonce);
            && ValidSend(packet) && o.t == t && o.ss == ss
            && Live(t, SenderKey(serverId, packet), now) && Live(t, ReceiverKey(serverId, packet, ss), now)
            && KeyOf(Read(ss, PairOf(SenderKey(serverId, packet)))) == SenderKey(serverId, packet)
            && KeyOf(Read(ss, PairOf(ReceiverKey(serverId, packet, ss)))) == ReceiverKey(serverId, packet, ss)
            && o.receiverKeyId == ReceiverKey(serverId, packet, ss).keyId
            && packet.body.message.value.algorithm == ALGORITHM()
            && Carried(c, serverId, packet, ss).Some?
            && DecryptMessage(c, Read(ss, Pair(packet.header.value.receiverId, serverId)).secret, o.triple, ALGORITHM())
               == Carried(c, serverId, packet, ss)
  {
    var sk := SenderKey(serverId, packet);
    ValidIsLive(t, ss, sk, now, senderFault);
    var rk := ReceiverKey(serverId, packet, ss);
    ValidIsLive(t, ss, rk, now, receiverFault);
    var plain := Carried(c, serverId, packet, ss).value;
    SealedOpens(c, Read(ss, PairOf(rk)).secret, plain, nonce);
  }

  /**
    In step and without faults: exactly when the sender's key is live and cached
    and opens the message, and the receiver's cached key is live and of a usable
    size. A client that seals under its agreed key is therefore relayed.
   */
  predicate Relayable(c: Crypto, serverId: Text, packet: RequestPacket, t: Tables, ss: seq<Node>, now: int) {
    && ValidSend(packet)
    && var sk, rk := SenderKey(serverId, packet), ReceiverKey(serverId, packet, ss);
       && Live(t, sk, now) && IsCached(ss, PairOf(sk))
       && DecryptMessage(c, t.rows[sk].secret, TripleOf(packet.body.message.value), packet.body.message.value.algorithm).Some?
       && IsCached(ss, PairOf(rk)) && Live(t, rk, now) && KeySizeOk(c.decode(t.rows[rk].secret))
  }

  lemma DeliverExactly(c: Crypto, k: RowKey, senderSecret: Text, x: Triple, algorithm: Text, t: Tables, ss: seq<Node>,
                       now: int, nonce: Text)
    requires Lawful(c) && Coherent(t, ss) && k.client != [] && k.server != []
    requires k.keyId == Read(ss, PairOf(k)).keyId
    requires DecryptMessage(c, senderSecret, x, algorithm).Some?
    ensures var o := Deliver(c, k, DecryptMessage(c, senderSecret, x, algorithm).value, t, ss, now, NO_FAULT, nonce);
            && Coherent(o.t, o.ss)
            && (o.Relayed? <==> IsCached(ss, PairOf(k)) && Live(t, k, now) && KeySizeOk(c.decode(t.rows[k].secret)))
  {
    LookUpCoherent(t, ss, k, now);
    ReadCached(ss, PairOf(k));
    var r := LookUp(t, ss, k, now, NO_FAULT);
    if r.key.valid {
      DecryptedIsRelayable(c, senderSecret, x, algorithm, r.key.secret, nonce);
    }
  }

  lemma RelayedExactly(c: Crypto, serverId: Text, packet: RequestPacket, t: Tables, ss: seq<Node>, now: int, nonce: Text)
    requires Lawful(c) && serverId != [] && Coherent(t, ss)
    ensures var o := Decide(c, serverId, packet, t, ss, now, NO_FAULT, NO_FAULT, nonce);
            Coherent(o.t, o.ss) && (o.Relayed? <==> Relayable(c, serverId, packet, t, ss, now))
  {
    if ValidSend(packet) {
      var sk, m := SenderKey(serverId, packet), packet.body.message.value;
      LookUpCoherent(t, ss, sk, now);
      ValidIsLive(t, ss, sk, now, NO_FAULT);
      var s := LookUp(t, ss, sk, now, NO_FAULT);
      if s.key.valid && DecryptMessage(c, s.key.secret, TripleOf(m), m.algorithm).Some? {
        DeliverExactly(c, ReceiverKey(serverId, packet, ss), s.key.secret, TripleOf(m), m.algorithm, t, ss, now, nonce);
      }
    }
  }

  // ----- what each refusal means ----------------------------------------------------------

  /** Code, audit action and audit target of a send. */
  datatype Answer = Answer(code: int, action: Action, target: Text)

  predicate Says(a: Answer, code: int, action: Action) {
    a.code == code && a.action == action
  }

  /** The sender's key is known, usable, and opens the message. */
  predicate SenderKnown(serverId: Text, packet: RequestPacket, t: Tables, ss: seq<Node>, now: int) {
    ValidSend(packet) && (HoldsKey(ss, SenderKey(serverId, packet)) || Live(t, SenderKey(serverId, packet), now))
  }

  predicate SenderUsable(serverId: Text, packet: RequestPacket, t: Tables, ss: seq<Node>, now: int) {
    ValidSend(packet) && Live(t, SenderKey(serverId, packet), now) && IsCached(ss, PairOf(SenderKey(serverId, packet)))
  }

  predicate SenderOpens(c: Crypto, serverId: Text, packet: RequestPacket, t: Tables, ss: seq<Node>, now: int) {
    && SenderUsable(serverId, packet, t, ss, now)
    && DecryptMessage(c, t.rows[SenderKey(serverId, packet)].secret, TripleOf(packet.body.message.value),
                      packet.body.message.value.algorithm).Some?
  }

  /** The receiver has a cached key, which is live, and of a cipher size. */
  predicate ReceiverCached(serverId: Text, packet: RequestPacket, ss: seq<Node>) {
    ValidSend(packet) && IsCached(ss, Pair(packet.header.value.receiverId, serverId))
  }

  predicate ReceiverLive(serverId: Text, packet: RequestPacket, t: Tables, ss: seq<Node>, now: int) {
    ReceiverCached(serverId, packet, ss) && Live(t, ReceiverKey(serverId, packet, ss), now)
  }

  predicate ReceiverSized(c: Crypto, serverId: Text, packet: RequestPacket, t: Tables, ss: seq<Node>, now: int) {
    && ReceiverLive(serverId, packet, t, ss, now)
    && KeySizeOk(c.decode(t.rows[ReceiverKey(serverId, packet, ss)].secret))
  }

  /** What is wrong on the sender's side, each fault with its own answer. */
  predicate SenderAnswers(c: Crypto, serverId: Text, packet: RequestPacket, t: Tables, ss: seq<Node>, now: int, a: Answer) {
    && (Says(a, RESULT_INVALID_REQUEST, MSG_SEND) <==> !ValidSend(packet))
    && (Says(a, RESULT_KEY_NOT_FOUND, MSG_SEND) <==> ValidSend(packet) && !SenderKnown(serverId, packet, t, ss, now))
    && (Says(a, RESULT_KEY_INVALID, MSG_SEND) <==>
          SenderKnown(serverId, packet, t, ss, now) && !SenderUsable(serverId, packet, t, ss, now))
    && (Says(a, RESULT_DECRYPT_FAILED, MSG_DECRYPT) <==>
          SenderUsable(serverId, packet, t, ss, now) && !SenderOpens(c, serverId, packet, t, ss, now))
  }

  /** What is wrong on the receiver's side, once the message was opened. */
  predicate ReceiverAnswers(c: Crypto, serverId: Text, packet: RequestPacket, t: Tables, ss: seq<Node>, now: int, a: Answer) {
    && (Says(a, RESULT_KEY_NOT_FOUND, MSG_DELIVER) <==>
          SenderOpens(c, serverId, packet, t, ss, now) && !ReceiverCached(serverId, packet, ss))
    && (Says(a, RESULT_KEY_INVALID, MSG_DELIVER) <==>
          SenderOpens(c, serverId, packet, t, ss, now) && ReceiverCached(serverId, packet, ss)
          && !ReceiverLive(serverId, packet, t, ss, now))
    && (Says(a, RESULT_FAILED, MSG_DELIVER) <==>
          SenderOpens(c, serverId, packet, t, ss, now) && ReceiverLive(serverId, packet, t, ss, now)
          && !ReceiverSized(c, serverId, packet, t, ss, now))
  }

  predicate StoreAnswers(c: Crypto, serverId: Text, packet: RequestPacket, t: Tables, ss: seq<Node>, now: int, stored: bool,
                         a: Answer)
  {
    && (Says(a, RESULT_FAILED, MSG_STORE) <==> Relayable(c, serverId, packet, t, ss, now) && !stored)
    && (Says(a, RESULT_SUCCESS, MSG_SEND) <==> Relayable(c, serverId, packet, t, ss, now) && stored)
  }

  /** What the audit entry of a refusal is about: the key, the message or the receiver. */
  predicate Targets(packet: RequestPacket, a: Answer) {
    && (Says(a, RESULT_INVALID_REQUEST, MSG_SEND) ==> a.target == [])
    && (ValidSend(packet) && a.action == MSG_SEND && a.code != RESULT_SUCCESS ==> a.target == Number(packet.body.message.value.keyId))
    && (ValidSend(packet) && a.action == MSG_DECRYPT ==> a.target == packet.header.value.messageId)
    && (ValidSend(packet) && a.action == MSG_DELIVER ==> a.target == packet.header.value.receiverId)
  }

  predicate AnswersSend(c: Crypto, serverId: Text, packet: RequestPacket, t: Tables, ss: seq<Node>, now: int, stored: bool,
                        a: Answer)
  {
    && SenderAnswers(c, serverId, packet, t, ss, now, a) && ReceiverAnswers(c, serverId, packet, t, ss, now, a)
    && StoreAnswers(c, serverId, packet, t, ss, now, stored, a) && Targets(packet, a)
  }

  /** The answer that a decision leads to, once the row of a relayed message is stored or not. */
  function AnswerOf(o: Outcome, stored: bool, msgId: Text): Answer {
    match o
    case Refused(code, action, target, _, _) => Answer(code, action, target)
    case Relayed(_, _, _, _) => if stored then Answer(RESULT_SUCCESS, MSG_SEND, msgId) else Answer(RESULT_FAILED, MSG_STORE, msgId)
  }

  lemma DeliveryRefusals(c: Crypto, k: RowKey, plain: Text, t: Tables, ss: seq<Node>, now: int, nonce: Text)
    requires Lawful(c) && Coherent(t, ss) && k.client != [] && k.server != [] && plain != []
    requires k.keyId == Read(ss, PairOf(k)).keyId
    ensures var o := Deliver(c, k, plain, t, ss, now, NO_FAULT, nonce);
            && (!IsCached(ss, PairOf(k)) ==> o == Refused(RESULT_KEY_NOT_FOUND, MSG_DELIVER, k.client, o.t, o.ss))
            && (IsCached(ss, PairOf(k)) && !Live(t, k, now) ==> o == Refused(RESULT_KEY_INVALID, MSG_DELIVER, k.client, o.t, o.ss))
            && (IsCached(ss, PairOf(k)) && Live(t, k, now) ==>
                  if KeySizeOk(c.decode(t.rows[k].secret)) then o.Relayed?
                  else o == Refused(RESULT_FAILED, MSG_DELIVER, k.client, o.t, o.ss))
  {
    LookUpCoherent(t, ss, k, now);
    ReadCached(ss, PairOf(k));
    var n := Read(ss, PairOf(k));
    if IsCached(ss, PairOf(k)) { assert SlotCoherent(t, n); }
  }

  lemma SenderRefusals(c: Crypto, serverId: Text, packet: RequestPacket, t: Tables, ss: seq<Node>, now: int, nonce: Text)
    requires Lawful(c) && serverId != [] && Coherent(t, ss) && ValidSend(packet)
    ensures var o, m := Decide(c, serverId, packet, t, ss, now, NO_FAULT, NO_FAULT, nonce), packet.body.message.value;
            && (!SenderKnown(serverId, packet, t, ss, now) ==> o == Refused(RESULT_KEY_NOT_FOUND, MSG_SEND, Number(m.keyId), o.t, o.ss))
            && (SenderKnown(serverId, packet, t, ss, now) && !SenderUsable(serverId, packet, t, ss, now) ==>
                  o == Refused(RESULT_KEY_INVALID, MSG_SEND, Number(m.keyId), o.t, o.ss))
            && (SenderUsable(serverId, packet, t, ss, now) && !SenderOpens(c, serverId, packet, t, ss, now) ==>
                  o == Refused(RESULT_DECRYPT_FAILED, MSG_DECRYPT, packet.header.value.messageId, o.t, o.ss))
            && (SenderOpens(c, serverId, packet, t, ss, now) ==>
                  var plain := DecryptMessage(c, t.rows[SenderKey(serverId, packet)].secret, TripleOf(m), m.algorithm).value;
                  plain != [] && o == Deliver(c, ReceiverKey(serverId, packet, ss), plain, t, ss, now, NO_FAULT, nonce))
  {
    var sk, m := SenderKey(serverId, packet), packet.body.message.value;
    LookUpCoherent(t, ss, sk, now);
    ValidIsLive(t, ss, sk, now, NO_FAULT);
    if SenderOpens(c, serverId, packet, t, ss, now) {
      var plain := DecryptMessage(c, t.rows[sk].secret, TripleOf(m), m.algorithm).value;
      assert |plain| == |c.decode(m.ciphertext)|;
    }
  }

  /**
    In agreement and without faults, every answer of a send means one thing, in
    terms of the request, the rows and the cached pairs alone.
   */
  lemma RefusalsExactly(c: Crypto, serverId: Text, packet: RequestPacket, t: Tables, ss: seq<Node>, now: int, nonce: Text,
                        stored: bool, msgId: Text)
    requires Lawful(c) && serverId != [] && Coherent(t, ss)
    ensures AnswersSend(c, serverId, packet, t, ss, now, stored,
                        AnswerOf(Decide(c, serverId, packet, t, ss, now, NO_FAULT, NO_FAULT, nonce), stored, msgId))
  {
    if ValidSend(packet) {
      SenderRefusals(c, serverId, packet, t, ss, now, nonce);
      if SenderOpens(c, serverId, packet, t, ss, now) {
        var m := packet.body.message.value;
        var plain := DecryptMessage(c, t.rows[SenderKey(serverId, packet)].secret, TripleOf(m), m.algorithm).value;
        DeliveryRefusals(c, ReceiverKey(serverId, packet, ss), plain, t, ss, now, nonce);
      }
    }
  }

  /** The row that a relayed message becomes. */
  function RecordOf(packet: RequestPacket, msgId: Text, receiverKeyId: int, x: Triple, now: int): LogRecord
    requires ValidSend(packet)
  {
    var h, m := packet.header.value, packet.body.message.value;
    LogRecord(msgId, h.senderId, h.receiverId, m.keyId, receiverKeyId, TripleOf(m), x, ALGORITHM(), now)
  }

  /** In step with the tables, the stored row opens to one text on both sides under the rows it names. */
  lemma RelayedRecordOk(c: Crypto, serverId: Text, packet: RequestPacket, msgId: Text, t: Tables, ss: seq<Node>, now: int,
                        senderFault: CheckFault, receiverFault: CheckFault, nonce: Text)
    requires Lawful(c) && |nonce| == GCM_NONCE_SIZE && Coherent(t, ss)
    requires Decide(c, serverId, packet, t, ss, now, senderFault, receiverFault, nonce).Relayed?
    ensures var o := Decide(c, serverId, packet, t, ss, now, senderFault, receiverFault, nonce);
            ValidSend(packet) && RecordOk(c, t, serverId, RecordOf(packet, msgId, o.receiverKeyId, o.triple, now))
  {
    RelayedIsLive(c, serverId, packet, t, ss, now, senderFault, receiverFault, nonce);
    var o := Decide(c, serverId, packet, t, ss, now, senderFault, receiverFault, nonce);
    var sk, rk := SenderKey(serverId, packet), ReceiverKey(serverId, packet, ss);
    CachedSecret(t, ss, sk);
    CachedSecret(t, ss, rk);
    var plain := Carried(c, serverId, packet, ss).value;
    assert Opens(c, t, sk, TripleOf(packet.body.message.value), ALGORITHM(), plain);
    assert Opens(c, t, rk, o.triple, ALGORITHM(), plain);
  }

  lemma CachedSecret(t: Tables, ss: seq<Node>, k: RowKey)
    requires Coherent(t, ss) && k.client != [] && k in t.rows
    requires Read(ss, PairOf(k)).keyId == k.keyId && Read(ss, PairOf(k)).client != []
    ensures Read(ss, PairOf(k)).secret == t.rows[k].secret
  {
    ReadCached(ss, PairOf(k));
    assert SlotCoherent(t, Read(ss, PairOf(k)));
  }
}
