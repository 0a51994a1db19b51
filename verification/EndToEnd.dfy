/** Clients and the server together, whole calls at a time: what an agreed key is for. */
module EndToEnd {
  import opened Basics
  import opened KeyTables
  import opened KeyStore
  import opened SlotArray
  import opened Coherence
  import opened KeyLookup
  import opened MessageCrypto
  import opened MessageStore
  import opened Packets
  import opened Relay
  import opened KeyServer
  import opened Serving
  import opened Client

  /** Client and server are separate processes. */
  predicate Apart(c: ClientOP, s: Server) {
    c.shm.slots != s.shm.slots && {c.keyIds, c.messageIds} !! {s.ids, s.queryIds}
  }

  /** Every key that client and server cache is the key of the row it names. */
  ghost predicate Linked(c: ClientOP, s: Server)
    reads c.shm.slots, c.keyIds, c.messageIds, s, s.db, s.shm.slots, s.ids, s.queryIds
  {
    && c.Valid() && s.Valid() && Apart(c, s)
    && c.crypto == s.crypto && c.serverId == s.serverId && IdFits(c.clientId) && IdFits(c.serverId)
    && SlotsOk(s.KeyTable(), c.shm.slots[..]) && SlotsOk(s.KeyTable(), s.Slots())
  }

  lemma SlotsLast(t: Tables, t': Tables, ss: seq<Node>)
    requires TablesEvolve(t, t') && SlotsOk(t, ss)
    ensures SlotsOk(t', ss)
  {
    forall i | 0 <= i < |ss|
      ensures NodeOk(t', ss[i])
    {
      assert NodeOk(t, ss[i]);
    }
  }

  // ----- agreement ------------------------------------------------------------------

  /** The node that an agreement publishes. */
  function Agreed(t: Tables, p: Pair, secret: Text): Node
    requires t.counter.Some?
  {
    Node(1, t.counter.value, p.client, p.server, secret)
  }

  lemma AgreementLinks(t: Tables, p: Pair, secret: Text, now: int, ss: seq<Node>)
    requires AgreeEnabled(t, p) && SlotsOk(t, ss)
    ensures var t', n := Agree(t, p, secret, now), Agreed(t, p, secret);
            TablesEvolve(t, t') && SlotsOk(t', ss) && SlotsOk(t', Write(ss, n).0)
  {
    var t', n := Agree(t, p, secret, now), Agreed(t, p, secret);
    StepEvolves(t, OpAgree(p, secret, now));
    SlotsLast(t, t', ss);
    assert Holds(t', NewKey(t, p), secret);
    SlotsStay(t', ss, n, p);
  }

  /** The server answers the agreement with SUCCESS. */
  predicate Granted(connected: bool, t: Tables, p: Pair, env: Env) {
    && env.verified && connected && StartTransaction !in env.agreeFails && CommitWork !in env.agreeFails
    && Completes(t, p, env.agreeFails)
  }

  /** The request's way to the server and back. */
  method ExchangeAgreement(c: ClientOP, s: Server, publicKey: Text, sign: Text, env: Env, arrives: bool) returns (ok: bool)
    requires c.Valid() && Apart(c, s)
    requires IdFits(c.clientId) && IdFits(c.serverId)
    requires c.crypto.encode(c.unwrap(env.wrapped)) == env.secret && |env.secret| <= SECRET_MAX
    modifies c.keyIds, c.shm.slots, s.db, s.shm.slots
    ensures c.Valid()
    ensures ok <==> arrives && Granted(s.db.connected, old(s.KeyTable()), c.MyPair(), env) && HasPlace(old(c.shm.slots[..]), c.MyPair())
    ensures Granted(s.db.connected, old(s.KeyTable()), c.MyPair(), env) ==>
              && AgreeEnabled(old(s.KeyTable()), c.MyPair())
              && s.KeyTable() == Agree(old(s.KeyTable()), c.MyPair(), env.secret, env.now)
              && s.Slots() == Write(old(s.Slots()), Agreed(old(s.KeyTable()), c.MyPair(), env.secret)).0
              && (arrives ==> c.shm.slots[..] == Write(old(c.shm.slots[..]), Agreed(old(s.KeyTable()), c.MyPair(), env.secret)).0)
              && (ok ==> c.MySlot() == Agreed(old(s.KeyTable()), c.MyPair(), env.secret))
    ensures !Granted(s.db.connected, old(s.KeyTable()), c.MyPair(), env) ==>
              s.Slots() == old(s.Slots()) && TablesEvolve(old(s.KeyTable()), s.KeyTable())
    ensures !(arrives && Granted(s.db.connected, old(s.KeyTable()), c.MyPair(), env)) ==> c.shm.slots[..] == old(c.shm.slots[..])
    ensures old(s.Synchronized()) && env.agreeFails == {} ==> s.Synchronized()
  {
    ghost var p, cs := c.MyPair(), c.shm.slots[..];
    var packet := c.AgreementRequest(publicKey, sign, env.micros, env.now);
    var resp := s.SeckeyAgree(packet, env.now, env.verified, env.secret, env.wrapped, env.agreeFails, env.landed);
    assert c.Valid() && c.MyPair() == p && c.shm.slots[..] == cs;
    ok := c.FinishAgreement(if arrives then Some(resp) else None);
  }

  /** All three stores hold the new key: tables, server slots, and the client's slot `mine`. */
  predicate Concluded(t: Tables, ss: seq<Node>, p: Pair, env: Env, t': Tables, ss': seq<Node>, mine: Node) {
    && AgreeEnabled(t, p) && t' == Agree(t, p, env.secret, env.now)
    && mine == Agreed(t, p, env.secret) && ss' == Write(ss, mine).0
  }

  /**
    `keyAgreement` against the server. Whatever fails in the tables, rollbacks
    included, and whether or not the reply arrives, all caches stay true to the
    tables.
   */
  method AgreeKey(c: ClientOP, s: Server, publicKey: Text, sign: Text, env: Env, arrives: bool) returns (ok: bool)
    requires Linked(c, s)
    // the requester recovers the key that was wrapped for it, and Base64 of a session key fits its slot
    requires c.crypto.encode(c.unwrap(env.wrapped)) == env.secret && |env.secret| <= SECRET_MAX
    modifies c.keyIds, c.shm.slots, s.db, s.shm.slots
    ensures Linked(c, s) && TablesEvolve(old(s.KeyTable()), s.KeyTable())
    ensures ok <==> arrives && Granted(s.db.connected, old(s.KeyTable()), c.MyPair(), env) && HasPlace(old(c.shm.slots[..]), c.MyPair())
    ensures ok ==> Concluded(old(s.KeyTable()), old(s.Slots()), c.MyPair(), env, s.KeyTable(), s.Slots(), c.MySlot())
    ensures old(s.Synchronized()) && env.agreeFails == {} ==> s.Synchronized()
  {
    ghost var t, p := s.KeyTable(), c.MyPair();
    if AgreeEnabled(t, p) {
      AgreementLinks(t, p, env.secret, env.now, s.Slots());
      AgreementLinks(t, p, env.secret, env.now, c.shm.slots[..]);
    }
    ghost var cs, ss := c.shm.slots[..], s.Slots();
    ok := ExchangeAgreement(c, s, publicKey, sign, env, arrives);
    if TablesEvolve(t, s.KeyTable()) {
      SlotsLast(t, s.KeyTable(), cs);
      SlotsLast(t, s.KeyTable(), ss);
    }
  }

  // ----- sending --------------------------------------------------------------------

  /** The packet in which a client seals `plain` under its slot `mine`. */
  predicate SealedUnder(c: Crypto, packet: RequestPacket, mine: Node, receiverId: Text, plain: Text, nonce: Text) {
    && packet.header.Some? && packet.header.value.senderId == mine.client && packet.header.value.receiverId == receiverId
    && packet.body.SendMsgReq? && packet.body.message.Some?
    && var m := packet.body.message.value;
       m.keyId == mine.keyId && m.algorithm == ALGORITHM()
       && EncryptText(c, mine.secret, plain, nonce) == Some(TripleOf(m))
  }

  /** Both keys of a stored message are live, and the receiver's opens it to `plain`. */
  predicate StoredFor(c: Crypto, serverId: Text, t: Tables, r: LogRecord, now: int, plain: Text) {
    var sk, rk := RowKey(r.senderId, serverId, r.senderKeyId), RowKey(r.receiverId, serverId, r.receiverKeyId);
    Live(t, sk, now) && Live(t, rk, now) && Opens(c, t, rk, r.receiverTriple, r.algorithm, plain)
  }

  lemma RelayedIsRead(c: Crypto, serverId: Text, packet: RequestPacket, mine: Node, receiverId: Text, plain: Text,
                      clientNonce: Text, t: Tables, ss: seq<Node>, now: int, f: CheckFault, g: CheckFault, nonce: Text,
                      msgId: Text)
    requires Lawful(c) && |clientNonce| == GCM_NONCE_SIZE && |nonce| == GCM_NONCE_SIZE
    requires SlotsOk(t, ss) && NodeOk(t, mine) && mine.server == serverId && mine != EMPTY
    requires ValidSend(packet) && SealedUnder(c, packet, mine, receiverId, plain, clientNonce)
    requires Decide(c, serverId, packet, t, ss, now, f, g, nonce).Relayed?
    ensures var o := Decide(c, serverId, packet, t, ss, now, f, g, nonce);
            && o.t == t && o.receiverKeyId == Read(ss, Pair(receiverId, serverId)).keyId
            && StoredFor(c, serverId, t, RecordOf(packet, msgId, o.receiverKeyId, o.triple, now), now, plain)
  {
    RelayedIsLive(c, serverId, packet, t, ss, now, f, g, nonce);
    var sk, rk := SenderKey(serverId, packet), ReceiverKey(serverId, packet, ss);
    ReadOk(t, ss, PairOf(sk));
    ReadOk(t, ss, PairOf(rk));
    assert Read(ss, PairOf(sk)).secret == mine.secret;
    SealedOpens(c, mine.secret, plain, clientNonce);
  }

  predicate GetsThrough(c: Crypto, serverId: Text, receiverId: Text, mine: Node, t: Tables, ss: seq<Node>, now: int) {
    var rk := RowKey(receiverId, serverId, Read(ss, Pair(receiverId, serverId)).keyId);
    && mine.status == 1 && KeySizeOk(c.decode(mine.secret))
    && Live(t, KeyOf(mine), now) && IsCached(ss, mine.Of())
    && Live(t, rk, now) && IsCached(ss, PairOf(rk)) && KeySizeOk(c.decode(t.rows[rk].secret))
  }

  lemma SealedIsValid(c: Crypto, packet: RequestPacket, mine: Node, receiverId: Text, plain: Text, nonce: Text)
    requires Lawful(c) && |nonce| == GCM_NONCE_SIZE && plain != [] && receiverId != []
    requires SealedUnder(c, packet, mine, receiverId, plain, nonce) && mine.client != [] && mine.keyId > 0
    ensures ValidSend(packet)
  {
    var m := packet.body.message.value;
    SealedOpens(c, mine.secret, plain, nonce);
    assert c.decode(m.ciphertext) != [];
    assert c.decode(c.encode([])) == [];
  }

  /** Without faults the sealed packet is relayed exactly when it can get through. */
  lemma SealedGetsThrough(c: Crypto, serverId: Text, packet: RequestPacket, mine: Node, receiverId: Text, plain: Text,
                          clientNonce: Text, t: Tables, ss: seq<Node>, now: int, nonce: Text)
    requires Lawful(c) && |clientNonce| == GCM_NONCE_SIZE && plain != [] && receiverId != [] && serverId != []
    requires Coherent(t, ss) && NodeOk(t, mine) && mine.server == serverId && mine.client != [] && mine.status == 1
    requires SealedUnder(c, packet, mine, receiverId, plain, clientNonce)
    ensures Decide(c, serverId, packet, t, ss, now, NO_FAULT, NO_FAULT, nonce).Relayed?
            <==> GetsThrough(c, serverId, receiverId, mine, t, ss, now)
  {
    assert KeyOf(mine) in t.rows;
    SealedIsValid(c, packet, mine, receiverId, plain, clientNonce);
    RelayedExactly(c, serverId, packet, t, ss, now, nonce);
    SealedOpens(c, mine.secret, plain, clientNonce);
  }

  /** The request's way to the server and back. */
  method Exchange(c: ClientOP, s: Server, packet: RequestPacket, env: Env, arrives: bool) returns (ok: bool)
    requires s.Valid()
    modifies c`lastServerMessageId, s, s.Repr()
    ensures s.Valid()
    ensures var o := Decide(s.crypto, s.serverId, packet, old(s.KeyTable()), old(s.Slots()), env.now,
                            env.fault, env.receiverFault, env.nonce);
            && s.KeyTable() == o.t && s.Slots() == o.ss
            && (ok <==> arrives && o.Relayed? && env.insert.Stored?)
            && (ok ==> ValidSend(packet)
                       && s.log == old(s.log) + [RecordOf(packet, c.lastServerMessageId, o.receiverKeyId, o.triple, env.now)])
    ensures !ok ==> c.lastServerMessageId == old(c.lastServerMessageId)
  {
    RefusalIsNoSuccess(s.crypto, s.serverId, packet, s.KeyTable(), s.Slots(), env.now, env.fault, env.receiverFault, env.nonce);
    var resp := s.HandleSendMessage(packet, env.now, env.micros, env.fault, env.receiverFault, env.nonce, env.insert);
    ok := c.FinishSend(if arrives then Some(resp) else None);
  }

  /** Stored last, under the id the client remembers, and readable by the receiver's key; nothing else changed. */
  ghost predicate Delivered(c: ClientOP, s: Server, t: Tables, ss: seq<Node>, count: nat, keyId: int, receiverId: Text,
                            plain: Text, now: int)
    reads c, s, s.db
  {
    && s.KeyTable() == t && |s.log| == count + 1
    && var r := s.log[count];
       && r.msgId == c.lastServerMessageId && r.senderId == c.clientId && r.receiverId == receiverId
       && r.senderKeyId == keyId && r.sendTime == now && r.algorithm == ALGORITHM()
       && r.receiverKeyId == Read(ss, Pair(receiverId, s.serverId)).keyId
       && StoredFor(s.crypto, s.serverId, t, r, now, plain)
  }

  /** A sealed request's way to the server and back. */
  method ExchangeSealed(c: ClientOP, s: Server, packet: RequestPacket, receiverId: Text, plain: Text, nonce: Text, env: Env,
                        arrives: bool) returns (ok: bool)
    requires s.Valid() && Lawful(s.crypto) && |nonce| == GCM_NONCE_SIZE && |env.nonce| == GCM_NONCE_SIZE
    requires c.MySlot().client == c.clientId && c.MySlot().server == s.serverId && c.Usable(c.MySlot())
    requires SlotsOk(s.KeyTable(), s.Slots()) && NodeOk(s.KeyTable(), c.MySlot())
    requires SealedUnder(s.crypto, packet, c.MySlot(), receiverId, plain, nonce)
    modifies c`lastServerMessageId, s, s.Repr()
    ensures s.Valid()
    ensures ok ==> Delivered(c, s, old(s.KeyTable()), old(s.Slots()), |old(s.log)|, old(c.MySlot()).keyId, receiverId, plain, env.now)
    ensures !ok ==> c.lastServerMessageId == old(c.lastServerMessageId)
    ensures old(s.Synchronized()) && FaultFree(env) && env.insert.Stored? && arrives && plain != [] && receiverId != [] ==>
              (ok <==> GetsThrough(s.crypto, s.serverId, receiverId, old(c.MySlot()), old(s.KeyTable()), old(s.Slots()), env.now))
  {
    ghost var t, ss, mine := s.KeyTable(), s.Slots(), c.MySlot();
    if s.Synchronized() && FaultFree(env) && plain != [] && receiverId != [] {
      SealedGetsThrough(s.crypto, s.serverId, packet, mine, receiverId, plain, nonce, t, ss, env.now, env.nonce);
    }
    ok := Exchange(c, s, packet, env, arrives);
    if ok {
      RelayedIsRead(s.crypto, s.serverId, packet, mine, receiverId, plain, nonce, t, ss, env.now,
                    env.fault, env.receiverFault, env.nonce, c.lastServerMessageId);
    }
  }

  /**
    `sendTextMessage` against the server. Whatever the caches hold and whatever
    fails: when the client is told SUCCESS, the server has stored, under the id
    the client remembers, a message that the receiver's key opens to exactly the
    text the client sealed, and both keys were live. In step and without faults it
    gets through exactly when both keys are live and cached.
   */
  method SendText(c: ClientOP, s: Server, receiverId: Text, plain: Text, nonce: Text, env: Env, arrives: bool)
    returns (ok: bool)
    requires Linked(c, s) && Lawful(c.crypto) && |nonce| == GCM_NONCE_SIZE && |env.nonce| == GCM_NONCE_SIZE
    modifies c.messageIds, c`lastServerMessageId, s, s.Repr()
    ensures c.Valid() && s.Valid()
    ensures ok ==> Delivered(c, s, old(s.KeyTable()), old(s.Slots()), |old(s.log)|, old(c.MySlot()).keyId, receiverId, plain, env.now)
    ensures !ok ==> c.lastServerMessageId == old(c.lastServerMessageId)
    ensures old(s.Synchronized()) && FaultFree(env) && env.insert.Stored? && arrives && plain != [] && receiverId != [] ==>
              (ok <==> GetsThrough(s.crypto, s.serverId, receiverId, old(c.MySlot()), old(s.KeyTable()), old(s.Slots()), env.now))
  {
    ReadOk(s.KeyTable(), c.shm.slots[..], c.MyPair());
    var packet := c.SendRequest(receiverId, plain, nonce, env.micros, env.now);
    if packet.None? {
      return false;
    }
    ok := ExchangeSealed(c, s, packet.value, receiverId, plain, nonce, env, arrives);
  }

  // ----- agreement makes sending possible ---------------------------------------------

  /** A write with room caches its pair and keeps every other pair cached. */
  lemma WriteCaches(ss: seq<Node>, n: Node, other: Pair)
    requires Packed(ss) && Solid(n) && (IsCached(ss, n.Of()) || FindEmpty(ss) < |ss|)
    ensures var ss' := Write(ss, n).0;
            && Packed(ss') && |ss'| == |ss| && FindEmpty(ss') <= FindEmpty(ss) + 1
            && IsCached(ss', n.Of()) && Read(ss', n.Of()) == n
            && (IsCached(ss, other) ==> IsCached(ss', other))
  {
    var ss' := Write(ss, n).0;
    var k := if IsCached(ss, n.Of()) then FindPair(ss, n.Of()) else FindEmpty(ss);
    WritePlace(ss, n);
    CachedIndex(ss, n.Of());
    CachedIndex(ss, other);
    PutPacked(ss, k, n);
    EmptyAfter(ss, k, n);
    CachedIndex(ss', n.Of());
    CachedIndex(ss', other);
    assert ss'[k] == n;
  }

  /** After agreements of two clients a message of the first gets through to the second. */
  lemma BothAgreed(c: Crypto, serverId: Text, a: Text, b: Text, x: Text, y: Text, t: Tables, ss: seq<Node>,
                   atA: int, atB: int, now: int)
    requires Coherent(t, ss) && a != b && FindEmpty(ss) + 2 <= |ss| && t.counter.value + 1 < MAX_INT
    requires AgreeEnabled(t, Pair(a, serverId)) && KeySizeOk(c.decode(x)) && KeySizeOk(c.decode(y))
    requires now < atA + VALIDITY && now < atB + VALIDITY
    ensures var t1, n1 := Agree(t, Pair(a, serverId), x, atA), Agreed(t, Pair(a, serverId), x);
            && AgreeEnabled(t1, Pair(b, serverId))
            && var t2, n2 := Agree(t1, Pair(b, serverId), y, atB), Agreed(t1, Pair(b, serverId), y);
               && GetsThrough(c, serverId, b, n1, t2, Write(Write(ss, n1).0, n2).0, now)
               && Read(Write(Write(ss, n1).0, n2).0, Pair(b, serverId)) == n2
  {
    var pa, pb := Pair(a, serverId), Pair(b, serverId);
    var t1, n1 := Agree(t, pa, x, atA), Agreed(t, pa, x);
    AgreeIds(t, pa, x, atA);
    WriteCaches(ss, n1, pa);
    var t2, n2 := Agree(t1, pb, y, atB), Agreed(t1, pb, y);
    WriteCaches(Write(ss, n1).0, n2, pa);
    assert t1.rows[KeyOf(n1)] == Row(x, atA + VALIDITY, Active, None, RotationSource(t, pa));
    assert t2.rows[KeyOf(n1)] == t1.rows[KeyOf(n1)];
    assert t2.rows[KeyOf(n2)] == Row(y, atB + VALIDITY, Active, None, RotationSource(t1, pb));
  }

  /** Two clients that could agree with this server and have room for the result. */
  ghost predicate CanAgree(alice: ClientOP, bob: ClientOP, s: Server)
    reads alice.shm.slots, alice.keyIds, alice.messageIds, bob.shm.slots, bob.keyIds, bob.messageIds,
          s, s.db, s.shm.slots, s.ids, s.queryIds
  {
    && Linked(alice, s) && Linked(bob, s) && s.Synchronized() && s.db.connected
    && alice.clientId != bob.clientId && alice != bob && alice.shm.slots != bob.shm.slots
    && {alice.keyIds, alice.messageIds} !! {bob.keyIds, bob.messageIds}
    && HasPlace(alice.shm.slots[..], alice.MyPair()) && HasPlace(bob.shm.slots[..], bob.MyPair())
    && s.KeyTable().counter.value + 1 < MAX_INT && FindEmpty(s.Slots()) + 2 <= s.shm.slots.Length
  }

  /** A fault-free agreement in which the client recovers a key of a usable size. */
  ghost predicate GoodAgreement(c: ClientOP, env: Env) {
    && env.verified && FaultFree(env) && |env.secret| <= SECRET_MAX
    && c.crypto.encode(c.unwrap(env.wrapped)) == env.secret && KeySizeOk(c.crypto.decode(env.secret))
  }

  /** An agreement leaves other clients' caches true to the tables. */
  method AgreeBeside(c: ClientOP, other: ClientOP, s: Server, publicKey: Text, sign: Text, env: Env) returns (ok: bool)
    requires Linked(c, s) && GoodAgreement(c, env) && HasPlace(c.shm.slots[..], c.MyPair())
    requires AgreeEnabled(s.KeyTable(), c.MyPair()) && s.db.connected && s.Synchronized()
    requires Linked(other, s) && c.shm.slots != other.shm.slots
    requires c.keyIds !in {other.keyIds, other.messageIds}
    modifies c.keyIds, c.shm.slots, s.db, s.shm.slots
    ensures Linked(c, s) && Linked(other, s) && s.Synchronized() && unchanged(other.shm.slots)
    ensures Concluded(old(s.KeyTable()), old(s.Slots()), c.MyPair(), env, s.KeyTable(), s.Slots(), c.MySlot())
  {
    ghost var t, slots := s.KeyTable(), other.shm.slots[..];
    ok := AgreeKey(c, s, publicKey, sign, env, true);
    assert other.shm.slots[..] == slots;
    SlotsLast(t, s.KeyTable(), slots);
  }

  lemma NextEnabled(t: Tables, p: Pair, secret: Text, now: int, q: Pair)
    requires IdsOk(t) && AgreeEnabled(t, p) && t.counter.value + 1 < MAX_INT
    ensures AgreeEnabled(Agree(t, p, secret, now), q)
  {
    AgreeIds(t, p, secret, now);
  }

  method AgreeBoth(alice: ClientOP, bob: ClientOP, s: Server, publicKeys: (Text, Text), signs: (Text, Text),
                   atA: Env, atB: Env)
    requires CanAgree(alice, bob, s) && GoodAgreement(alice, atA) && GoodAgreement(bob, atB)
    modifies alice.keyIds, alice.shm.slots, bob.keyIds, bob.shm.slots, s.db, s.shm.slots
    ensures Linked(alice, s) && Linked(bob, s) && s.Synchronized()
    ensures AgreeEnabled(old(s.KeyTable()), alice.MyPair())
    ensures var t1 := Agree(old(s.KeyTable()), alice.MyPair(), atA.secret, atA.now);
            && AgreeEnabled(t1, bob.MyPair())
            && s.KeyTable() == Agree(t1, bob.MyPair(), atB.secret, atB.now)
            && alice.MySlot() == Agreed(old(s.KeyTable()), alice.MyPair(), atA.secret)
            && bob.MySlot() == Agreed(t1, bob.MyPair(), atB.secret)
            && s.Slots() == Write(Write(old(s.Slots()), alice.MySlot()).0, bob.MySlot()).0
  {
    NextEnabled(s.KeyTable(), alice.MyPair(), atA.secret, atA.now, bob.MyPair());
    var a := AgreeBeside(alice, bob, s, publicKeys.0, signs.0, atA);
    var b := AgreeBeside(bob, alice, s, publicKeys.1, signs.1, atB);
  }

  method AgreeBothAndGetThrough(alice: ClientOP, bob: ClientOP, s: Server, publicKeys: (Text, Text), signs: (Text, Text),
                                atA: Env, atB: Env, ghost sendTime: int)
    requires CanAgree(alice, bob, s) && GoodAgreement(alice, atA) && GoodAgreement(bob, atB)
    requires sendTime < atA.now + VALIDITY && sendTime < atB.now + VALIDITY
    modifies alice.keyIds, alice.shm.slots, bob.keyIds, bob.shm.slots, s.db, s.shm.slots
    ensures Linked(alice, s) && s.Synchronized()
    ensures GetsThrough(s.crypto, s.serverId, bob.clientId, alice.MySlot(), s.KeyTable(), s.Slots(), sendTime)
    ensures bob.MySlot() == Read(s.Slots(), Pair(bob.clientId, s.serverId))
    ensures Holds(s.KeyTable(), RowKey(bob.clientId, s.serverId, bob.MySlot().keyId), bob.MySlot().secret)
  {
    BothAgreed(s.crypto, s.serverId, alice.clientId, bob.clientId, atA.secret, atB.secret, s.KeyTable(), s.Slots(),
               atA.now, atB.now, sendTime);
    AgreeBoth(alice, bob, s, publicKeys, signs, atA, atB);
  }

  /** What the key in node `n` reads in the last stored message, if that has this id and is for this key. */
  ghost function ReadLast(s: Server, n: Node, msgId: Text): Option<Text>
    reads s
  {
    if s.log == [] then None
    else
      var r := s.log[|s.log| - 1];
      if r.msgId == msgId && r.receiverKeyId == n.keyId
      then DecryptMessage(s.crypto, n.secret, r.receiverTriple, r.algorithm) else None
  }

  /** A message gets through now, to a receiver whose cached key is `n`. */
  ghost predicate Reaches(alice: ClientOP, s: Server, receiverId: Text, n: Node, now: int)
    reads alice.shm.slots, s.db, s.shm.slots
  {
    && GetsThrough(s.crypto, s.serverId, receiverId, alice.MySlot(), s.KeyTable(), s.Slots(), now)
    && n == Read(s.Slots(), Pair(receiverId, s.serverId))
    && Holds(s.KeyTable(), RowKey(receiverId, s.serverId, n.keyId), n.secret)
  }

  /** Sending to the holder of the receiver's cached key `n`. */
  method SendToHolder(alice: ClientOP, s: Server, receiverId: Text, ghost n: Node, atSend: Env, plain: Text, nonce: Text)
    returns (ok: bool)
    requires Linked(alice, s) && s.Synchronized() && Lawful(s.crypto) && receiverId != []
    requires FaultFree(atSend) && atSend.insert.Stored? && plain != [] && |nonce| == GCM_NONCE_SIZE
    modifies alice.messageIds, alice`lastServerMessageId, s, s.Repr()
    ensures old(Reaches(alice, s, receiverId, n, atSend.now)) ==> ok && ReadLast(s, n, alice.lastServerMessageId) == Some(plain)
  {
    ghost var t, reaches := s.KeyTable(), Reaches(alice, s, receiverId, n, atSend.now);
    ok := SendText(alice, s, receiverId, plain, nonce, atSend, true);
    if reaches {
      OpensForHolder(s.crypto, t, RowKey(receiverId, s.serverId, n.keyId), n.secret, s.log[|s.log| - 1], plain);
    }
  }

  lemma OpensForHolder(c: Crypto, t: Tables, k: RowKey, secret: Text, r: LogRecord, plain: Text)
    requires Holds(t, k, secret) && Opens(c, t, k, r.receiverTriple, r.algorithm, plain)
    ensures DecryptMessage(c, secret, r.receiverTriple, r.algorithm) == Some(plain)
  {
  }

  /** Sending leaves the receiver's own cache alone. */
  method SendBeside(alice: ClientOP, bob: ClientOP, s: Server, ghost n: Node, atSend: Env, plain: Text, nonce: Text)
    returns (ok: bool)
    requires Linked(alice, s) && s.Synchronized() && Lawful(s.crypto) && bob.clientId != []
    requires FaultFree(atSend) && atSend.insert.Stored? && plain != [] && |nonce| == GCM_NONCE_SIZE
    requires bob.shm.slots != s.shm.slots
    modifies alice.messageIds, alice`lastServerMessageId, s, s.Repr()
    ensures old(Reaches(alice, s, bob.clientId, n, atSend.now)) ==> ok && ReadLast(s, n, alice.lastServerMessageId) == Some(plain)
    ensures unchanged(bob.shm.slots)
  {
    ok := SendToHolder(alice, s, bob.clientId, n, atSend, plain, nonce);
  }

  /**
    The whole story: two clients agree with a healthy server that has room for
    them, then one sends to the other. It succeeds, and the receiver's own cached
    key opens the stored message to the text that was sent.
   */
  method AgreeAndSend(alice: ClientOP, bob: ClientOP, s: Server, publicKeys: (Text, Text), signs: (Text, Text),
                      atA: Env, atB: Env, atSend: Env, plain: Text, nonce: Text) returns (ok: bool)
    requires CanAgree(alice, bob, s) && GoodAgreement(alice, atA) && GoodAgreement(bob, atB) && Lawful(s.crypto)
    requires FaultFree(atSend) && atSend.insert.Stored? && plain != [] && |nonce| == GCM_NONCE_SIZE
    requires atSend.now < atA.now + VALIDITY && atSend.now < atB.now + VALIDITY
    modifies alice, alice.keyIds, alice.messageIds, alice.shm.slots, bob.keyIds, bob.shm.slots, s, s.Repr()
    ensures ok && ReadLast(s, bob.MySlot(), alice.lastServerMessageId) == Some(plain)
  {
    AgreeBothAndGetThrough(alice, bob, s, publicKeys, signs, atA, atB, atSend.now);
    ok := SendBeside(alice, bob, s, bob.MySlot(), atSend, plain, nonce);
  }
}
