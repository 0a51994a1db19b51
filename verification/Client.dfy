/**
  `ClientOP` and `MessageClient`: the client's requests and what it does with the
  replies. A reply is None when connecting, sending or receiving failed.
 */
module Client {
  import opened Basics
  import opened SlotArray
  import opened MessageCrypto
  import opened Packets
  import opened ScopedIds

  /** `char[12]` and `char[128]` of a slot, less the terminating zero. */
  const ID_MAX := 11
  const SECRET_MAX := 127

  /** `strncpy` of NUL-free text into a zeroed buffer. */
  function Cut(t: Text, max: nat): (c: Text)
    ensures c <= t && |c| <= max && (|c| < max ==> c == t)
  {
    if |t| <= max then t else t[..max]
  }

  predicate IdFits(id: Text) {
    1 <= |id| <= ID_MAX
  }

  predicate SlotFits(n: Node) {
    |n.client| <= ID_MAX && |n.server| <= ID_MAX
  }

  predicate SlotsFit(ss: seq<Node>) {
    forall i | 0 <= i < |ss| :: SlotFits(ss[i])
  }

  /** The pair has a slot or could get one. */
  predicate HasPlace(ss: seq<Node>, p: Pair) {
    FindPair(ss, p) < |ss| || FindEmpty(ss) < |ss|
  }

  predicate Succeeded(reply: Option<ResponsePacket>) {
    reply.Some? && reply.value.body.KeyOpResp? && reply.value.body.code == RESULT_SUCCESS
  }

  /** A request of `sender`, addressed and dated. */
  predicate Heads(h: Option<Header>, command: int, sender: Text, receiver: Text, now: int) {
    && h.Some? && h.value.command == command && h.value.senderId == sender && h.value.receiverId == receiver
    && h.value.timestamp == now
  }

  class ClientOP {
    const clientId: Text
    const serverId: Text
    const crypto: Crypto
    /** RSA decryption under the client's private key. */
    const unwrap: Text -> Text
    const shm: SecKeyShm
    /** The two source files keep one counter each. */
    const keyIds: IdGenerator
    const messageIds: IdGenerator
    var lastServerMessageId: Text

    constructor (clientId: Text, serverId: Text, crypto: Crypto, unwrap: Text -> Text, maxNode: nat)
      ensures this.clientId == clientId && this.serverId == serverId && this.crypto == crypto && this.unwrap == unwrap
      ensures Valid() && shm.slots[..] == seq(maxNode, _ => EMPTY) && fresh({shm.slots, keyIds, messageIds})
    {
      this.clientId, this.serverId, this.crypto, this.unwrap := clientId, serverId, crypto, unwrap;
      shm := new SecKeyShm(maxNode);
      keyIds := new IdGenerator();
      messageIds := new IdGenerator();
      lastServerMessageId := [];
    }

    ghost predicate Valid()
      reads shm.slots, keyIds, messageIds
    {
      && keyIds != messageIds && keyIds.Valid() && messageIds.Valid()
      && SlotsFit(shm.slots[..])
    }

    function MyPair(): Pair {
      Pair(clientId, serverId)
    }

    ghost function MySlot(): Node
      reads shm.slots
    {
      Read(shm.slots[..], MyPair())
    }

    method KeyHeader(command: int, micros: int, now: int) returns (h: Header)
      requires keyIds.Valid()
      modifies keyIds
      ensures keyIds.Valid()
      ensures h.command == command && h.senderId == clientId && h.receiverId == serverId && h.timestamp == now
    {
      var id := keyIds.Generate(clientId, micros);
      h := Header(id, command, clientId, serverId, now);
    }

    // ----- agreement -------------------------------------------------------------------

    method AgreementRequest(publicKey: Text, sign: Text, micros: int, now: int) returns (packet: RequestPacket)
      requires Valid()
      modifies keyIds
      ensures Valid()
      ensures Heads(packet.header, CMD_KEY_AGREE_REQ, clientId, serverId, now)
      ensures packet.body == KeyAgreeReq(publicKey, sign)
    {
      var h := KeyHeader(CMD_KEY_AGREE_REQ, micros, now);
      packet := RequestPacket(Some(h), KeyAgreeReq(publicKey, sign));
    }

    /** What a successful reply puts into the slot. */
    function AgreedNode(reply: ResponsePacket): Node
      requires reply.body.KeyOpResp?
    {
      Node(1, reply.body.keyId, Cut(clientId, ID_MAX), Cut(serverId, ID_MAX),
           Cut(crypto.encode(unwrap(reply.body.data)), SECRET_MAX))
    }

    /**
      Stores the agreed key and reads it back. True exactly for a successful
      reply to a client whose ids survive the copy into the slot, when there is
      a slot to be had; the client then holds the server's key.
     */
    method FinishAgreement(reply: Option<ResponsePacket>) returns (ok: bool)
      requires Valid()
      modifies shm.slots
      ensures Valid()
      ensures ok <==> Succeeded(reply) && IdFits(clientId) && IdFits(serverId) && HasPlace(old(shm.slots[..]), MyPair())
      ensures ok ==> MySlot() == AgreedNode(reply.value)
      ensures shm.slots[..] == if Succeeded(reply) then Write(old(shm.slots[..]), AgreedNode(reply.value)).0
                               else old(shm.slots[..])
    {
      if !Succeeded(reply) {
        return false;
      }
      ghost var before := shm.slots[..];
      var n := AgreedNode(reply.value);
      WrittenIsRead(before, n, MyPair());
      var ret := shm.ShmWrite(n);
      var back := shm.ShmRead(MyPair());
      if back.client == [] || back.server == [] {
        return false;
      }
      return true;
    }

    // ----- check and logout -----------------------------------------------------------

    /** None when there is no local key to check. */
    method VerificationRequest(micros: int, now: int) returns (packet: Option<RequestPacket>)
      requires Valid()
      modifies keyIds
      ensures Valid()
      ensures packet.Some? <==> MySlot().client != [] && MySlot().server != [] && MySlot().status != 0
      ensures packet.Some? ==> Heads(packet.value.header, CMD_KEY_CHECK_REQ, clientId, serverId, now)
                               && packet.value.body == KeyCheckReq(MySlot().keyId)
    {
      var node := shm.ShmRead(MyPair());
      if node.client == [] || node.server == [] {
        return None;
      }
      if node.status == 0 {
        return None;
      }
      var h := KeyHeader(CMD_KEY_CHECK_REQ, micros, now);
      return Some(RequestPacket(Some(h), KeyCheckReq(node.keyId)));
    }

    /** Only a readable refusal disables the local key; a lost reply leaves it. */
    method FinishVerification(reply: Option<ResponsePacket>)
      requires Valid()
      modifies shm.slots
      ensures Valid()
      ensures shm.slots[..] == if reply.Some? && reply.value.body.KeyOpResp? && !Succeeded(reply)
                               then SetStatus(old(shm.slots[..]), MyPair(), 0).0 else old(shm.slots[..])
    {
      if reply.None? || !reply.value.body.KeyOpResp? {
        return;
      }
      if reply.value.body.code != RESULT_SUCCESS {
        var ret := shm.ShmUpdateStatus(MyPair(), 0);
      }
    }

    /** None unless the local key is usable. */
    method LogoutRequest(micros: int, now: int) returns (packet: Option<RequestPacket>)
      requires Valid()
      modifies keyIds
      ensures Valid()
      ensures packet.Some? <==> MySlot().status == 1
      ensures packet.Some? ==> Heads(packet.value.header, CMD_KEY_LOGOUT_REQ, clientId, serverId, now)
                               && packet.value.body == KeyLogoutReq(MySlot().keyId)
    {
      var node := shm.ShmRead(MyPair());
      if node.status != 1 {
        return None;
      }
      var h := KeyHeader(CMD_KEY_LOGOUT_REQ, micros, now);
      return Some(RequestPacket(Some(h), KeyLogoutReq(node.keyId)));
    }

    /** Only a confirmed logout disables the local key. */
    method FinishLogout(reply: Option<ResponsePacket>)
      requires Valid()
      modifies shm.slots
      ensures Valid()
      ensures shm.slots[..] == if Succeeded(reply) then SetStatus(old(shm.slots[..]), MyPair(), 0).0
                               else old(shm.slots[..])
    {
      if reply.None? || !reply.value.body.KeyOpResp? {
        return;
      }
      if reply.value.body.code == RESULT_SUCCESS {
        var ret := shm.ShmUpdateStatus(MyPair(), 0);
      }
    }

    // ----- sending ---------------------------------------------------------------------

    predicate Usable(n: Node) {
      n.client != [] && n.server != [] && n.status == 1
    }

    method GetActiveKey() returns (node: Option<Node>)
      ensures node == if Usable(MySlot()) then Some(MySlot()) else None
    {
      var n := shm.ShmRead(MyPair());
      if n.client == [] || n.server == [] {
        return None;
      }
      if n.status != 1 {
        return None;
      }
      return Some(n);
    }

    /** The sealed request; None without a usable key or when sealing fails. */
    method SendRequest(receiverId: Text, plain: Text, nonce: Text, micros: int, now: int)
      returns (packet: Option<RequestPacket>)
      requires Valid()
      modifies messageIds
      ensures Valid()
      ensures packet.Some? <==> Usable(MySlot()) && EncryptText(crypto, MySlot().secret, plain, nonce).Some?
      ensures packet.Some? ==>
                var h, b, x := packet.value.header, packet.value.body, EncryptText(crypto, MySlot().secret, plain, nonce).value;
                && Heads(h, CMD_SEND_MSG_REQ, clientId, receiverId, now)
                && b == SendMsgReq(Some(EncryptedMessage(MySlot().keyId, MSG_TYPE_TEXT, x.ciphertext, x.nonce, x.tag, ALGORITHM())))
    {
      var node := GetActiveKey();
      if node.None? {
        return None;
      }
      var sealed := EncryptText(crypto, node.value.secret, plain, nonce);
      if sealed.None? {
        return None;
      }
      var id := messageIds.Generate(clientId, micros);
      var h := Header(id, CMD_SEND_MSG_REQ, clientId, receiverId, now);
      var m := EncryptedMessage(node.value.keyId, MSG_TYPE_TEXT, sealed.value.ciphertext, sealed.value.nonce,
                                sealed.value.tag, ALGORITHM());
      return Some(RequestPacket(Some(h), SendMsgReq(Some(m))));
    }

    /** Success remembers the id under which the server stored the message. */
    method FinishSend(reply: Option<ResponsePacket>) returns (ok: bool)
      modifies this`lastServerMessageId
      ensures ok <==> reply.Some? && reply.value.body.SendMsgResp? && reply.value.body.code == RESULT_SUCCESS
      ensures lastServerMessageId == if ok then reply.value.body.serverMessageId else old(lastServerMessageId)
    {
      if reply.None? || !reply.value.body.SendMsgResp? {
        return false;
      }
      if reply.value.body.code != RESULT_SUCCESS {
        return false;
      }
      lastServerMessageId := reply.value.body.serverMessageId;
      return true;
    }

    // ----- querying --------------------------------------------------------------------

    /** None for the empty id. */
    method QueryRequest(msgId: Text, micros: int, now: int) returns (packet: Option<RequestPacket>)
      requires Valid()
      modifies messageIds
      ensures Valid()
      ensures packet.Some? <==> msgId != []
      ensures packet.Some? ==> Heads(packet.value.header, CMD_QUERY_MSG_REQ, clientId, serverId, now)
                               && packet.value.body == QueryMsgReq(msgId)
    {
      if msgId == [] {
        return None;
      }
      var id := messageIds.Generate(clientId, micros);
      return Some(RequestPacket(Some(Header(id, CMD_QUERY_MSG_REQ, clientId, serverId, now)), QueryMsgReq(msgId)));
    }
  }

  /**
    The read-back finds ids exactly when the pair's own slot was written: the ids
    were copied whole and a slot was to be had.
   */
  lemma WrittenIsRead(ss: seq<Node>, n: Node, p: Pair)
    requires SlotsFit(ss) && n.status == 1
    requires n.client == Cut(p.client, ID_MAX) && n.server == Cut(p.server, ID_MAX)
    ensures var ss' := Write(ss, n).0;
            && SlotsFit(ss')
            && (Read(ss', p).client != [] && Read(ss', p).server != []
                <==> IdFits(p.client) && IdFits(p.server) && HasPlace(ss, p))
            && (Read(ss', p).client != [] && Read(ss', p).server != [] ==> Read(ss', p) == n)
  {
    var ss' := Write(ss, n).0;
    var i := FindPair(ss', p);
    if !IdFits(p.client) || !IdFits(p.server) {
      if i < |ss'| { assert SlotFits(ss'[i]); }
    } else {
      assert n.Of() == p;
      var j := if FindPair(ss, p) < |ss| then FindPair(ss, p) else FindEmpty(ss);
      if j < |ss| {
        assert ss' == ss[j := n] && ss'[j].Of() == p;
        assert forall k | 0 <= k < j :: ss'[k] == ss[k] && ss[k].Of() != p;
        assert i == j;
      }
    }
  }
}
