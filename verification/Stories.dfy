/** Clients and the server over time, with any other requests in between. */
module Stories {
  import opened Basics
  import opened KeyTables
  import opened SlotArray
  import opened Coherence
  import opened KeyLookup
  import opened MessageCrypto
  import opened MessageStore
  import opened Packets
  import opened Survival
  import opened KeyServer
  import opened Serving
  import opened Client
  import opened EndToEnd

  // ----- an agreed key stays usable ---------------------------------------------------

  /** The cached node of an Active row is the one its agreement published. */
  lemma CachedNode(t: Tables, ss: seq<Node>, n: Node)
    requires Coherent(t, ss) && IsActive(t, KeyOf(n)) && IsCached(ss, n.Of()) && n.status == 1
    requires t.rows[KeyOf(n)].secret == n.secret
    ensures Read(ss, n.Of()) == n
  {
    ActiveIsCachedKey(t, ss, KeyOf(n));
    ReadCached(ss, n.Of());
    assert SlotCoherent(t, Read(ss, n.Of()));
  }

  /** Tables and slots in which the node is published, and its key live at `now`. */
  predicate Held(t: Tables, ss: seq<Node>, n: Node, now: int) {
    && n.status == 1 && n.client != [] && n.server != []
    && Live(t, KeyOf(n), now) && t.rows[KeyOf(n)].secret == n.secret && IsCached(ss, n.Of())
  }

  /** A held key that the run gave no reason to end. */
  predicate HeldAndSpared(t: Tables, ss: seq<Node>, n: Node, now: int,
                          requests: seq<RequestPacket>, resps: seq<ResponsePacket>, times: seq<int>)
    requires |times| == |requests| == |resps|
  {
    Held(t, ss, n, now) && Spared(requests, resps, times, KeyOf(n), t.rows[KeyOf(n)].expire)
  }

  /** A key that was held before a run that spared it is still there, live and in its slot. */
  lemma StillHeld(t: Tables, ss: seq<Node>, t': Tables, ss': seq<Node>, n: Node, now: int,
                  requests: seq<RequestPacket>, resps: seq<ResponsePacket>, times: seq<int>)
    requires |times| == |requests| == |resps| && LiveKeysSurvive(t, ss, t', ss', requests, resps, times)
    requires Coherent(t', ss') && HeldAndSpared(t, ss, n, now, requests, resps, times)
    ensures Live(t', KeyOf(n), now) && Holds(t', KeyOf(n), n.secret)
    ensures IsCached(ss', n.Of()) && Read(ss', n.Of()) == n
    ensures LookUp(t', ss', KeyOf(n), now, NO_FAULT).key == ActiveKey(true, true, n.secret, n.keyId)
  {
    assert Survives(t, t', ss', KeyOf(n));
    CachedNode(t', ss', n);
    SurvivorIsUsable(t, t', ss', KeyOf(n), now);
  }

  /** After the run a message still gets through between two held keys. */
  lemma StillGetsThrough(c: Crypto, t: Tables, ss: seq<Node>, t': Tables, ss': seq<Node>, a: Node, b: Node, now: int,
                         requests: seq<RequestPacket>, resps: seq<ResponsePacket>, times: seq<int>)
    requires |times| == |requests| == |resps| && LiveKeysSurvive(t, ss, t', ss', requests, resps, times) && Coherent(t', ss')
    requires HeldAndSpared(t, ss, a, now, requests, resps, times) && HeldAndSpared(t, ss, b, now, requests, resps, times)
    requires a.server == b.server && KeySizeOk(c.decode(a.secret)) && KeySizeOk(c.decode(b.secret))
    ensures GetsThrough(c, a.server, b.client, a, t', ss', now)
    ensures Read(ss', b.Of()) == b && Holds(t', KeyOf(b), b.secret)
  {
    StillHeld(t, ss, t', ss', a, now, requests, resps, times);
    StillHeld(t, ss, t', ss', b, now, requests, resps, times);
    assert PairOf(KeyOf(b)) == b.Of() == Pair(b.client, a.server);
  }

  /** In agreement every used slot holds the key of the row it names. */
  lemma CoherentSlotsOk(t: Tables, ss: seq<Node>)
    requires Coherent(t, ss)
    ensures SlotsOk(t, ss)
  {
    forall i | 0 <= i < |ss|
      ensures NodeOk(t, ss[i])
    {
      assert i < FindEmpty(ss) ==> SlotCoherent(t, ss[i]);
    }
  }

  /** Serving requests leaves the clients' caches alone and true to the tables. */
  method ServeBeside(alice: ClientOP, bob: ClientOP, s: Server, requests: seq<RequestPacket>, envs: seq<Env>)
    returns (resps: seq<ResponsePacket>)
    requires Linked(alice, s) && bob.shm.slots != s.shm.slots && Healthy(s) && Lawful(s.crypto)
    requires |envs| == |requests| && AllFaultFree(envs)
    modifies s, s.Repr()
    ensures Linked(alice, s) && Healthy(s)
    ensures unchanged(alice.shm.slots) && unchanged(bob.shm.slots)
    ensures |resps| == |requests| && AllJustified(requests, resps, envs)
    ensures LiveKeysSurvive(old(s.KeyTable()), old(s.Slots()), s.KeyTable(), s.Slots(), requests, resps, Times(envs))
  {
    ghost var t, cs := s.KeyTable(), alice.shm.slots[..];
    resps := Serve(s, requests, envs);
    SlotsLast(t, s.KeyTable(), cs);
    CoherentSlotsOk(s.KeyTable(), s.Slots());
  }

  /** The run gave neither key a reason to end. */
  predicate BothSpared(t: Tables, a: Node, b: Node, requests: seq<RequestPacket>, resps: seq<ResponsePacket>, times: seq<int>)
    requires |times| == |requests| == |resps| && KeyOf(a) in t.rows && KeyOf(b) in t.rows
  {
    && Spared(requests, resps, times, KeyOf(a), t.rows[KeyOf(a)].expire)
    && Spared(requests, resps, times, KeyOf(b), t.rows[KeyOf(b)].expire)
  }

  lemma RunSparesBoth(c: Crypto, t: Tables, ss: seq<Node>, t': Tables, ss': seq<Node>, a: Node, b: Node, now: int,
                      requests: seq<RequestPacket>, resps: seq<ResponsePacket>, times: seq<int>)
    requires |times| == |requests| == |resps| && LiveKeysSurvive(t, ss, t', ss', requests, resps, times) && Coherent(t', ss')
    requires Held(t, ss, a, now) && Held(t, ss, b, now)
    requires a.server == b.server && KeySizeOk(c.decode(a.secret)) && KeySizeOk(c.decode(b.secret))
    ensures BothSpared(t, a, b, requests, resps, times) ==>
              GetsThrough(c, a.server, b.client, a, t', ss', now) && Read(ss', b.Of()) == b && Holds(t', KeyOf(b), b.secret)
  {
    if BothSpared(t, a, b, requests, resps, times) {
      StillGetsThrough(c, t, ss, t', ss', a, b, now, requests, resps, times);
    }
  }

  /** Two clients with live keys, before the server serves requests. */
  ghost predicate BothHold(alice: ClientOP, bob: ClientOP, s: Server, now: int)
    reads alice.shm.slots, bob.shm.slots, s.db, s.shm.slots
  {
    && alice.MySlot().Of() == alice.MyPair() && bob.MySlot().Of() == bob.MyPair()
    && alice.serverId == bob.serverId == s.serverId
    && Held(s.KeyTable(), s.Slots(), alice.MySlot(), now) && Held(s.KeyTable(), s.Slots(), bob.MySlot(), now)
    && KeySizeOk(s.crypto.decode(alice.MySlot().secret)) && KeySizeOk(s.crypto.decode(bob.MySlot().secret))
  }

  /** The run itself: unless it ended one of the keys, a message gets through after it. */
  method ServeHolders(alice: ClientOP, bob: ClientOP, s: Server, requests: seq<RequestPacket>, envs: seq<Env>, ghost now: int)
    returns (resps: seq<ResponsePacket>)
    requires Linked(alice, s) && bob.shm.slots != s.shm.slots && Healthy(s) && Lawful(s.crypto)
    requires |envs| == |requests| && AllFaultFree(envs) && BothHold(alice, bob, s, now)
    modifies s, s.Repr()
    ensures Linked(alice, s) && Healthy(s)
    ensures unchanged(alice.shm.slots) && unchanged(bob.shm.slots)
    ensures |resps| == |requests| && AllJustified(requests, resps, envs)
    ensures BothSpared(old(s.KeyTable()), alice.MySlot(), bob.MySlot(), requests, resps, Times(envs)) ==>
              Reaches(alice, s, bob.clientId, bob.MySlot(), now)
  {
    ghost var t, ss, a, b := s.KeyTable(), s.Slots(), alice.MySlot(), bob.MySlot();
    resps := ServeBeside(alice, bob, s, requests, envs);
    RunSparesBoth(s.crypto, t, ss, s.KeyTable(), s.Slots(), a, b, now, requests, resps, Times(envs));
  }

  /**
    Two clients hold live keys; the server then serves any requests; then one
    sends to the other. Unless an agreement for one of the pairs or a logout of one
    of the keys was answered SUCCESS, or a key came due, it gets through, and the
    receiver's own cached key opens it.
   */
  method ServeThenSend(alice: ClientOP, bob: ClientOP, s: Server, requests: seq<RequestPacket>, envs: seq<Env>,
                       atSend: Env, plain: Text, nonce: Text) returns (resps: seq<ResponsePacket>, ok: bool)
    requires Linked(alice, s) && alice != bob && bob.shm.slots != s.shm.slots && Healthy(s) && Lawful(s.crypto)
    requires |envs| == |requests| && AllFaultFree(envs) && BothHold(alice, bob, s, atSend.now)
    requires FaultFree(atSend) && atSend.insert.Stored? && plain != [] && |nonce| == GCM_NONCE_SIZE
    modifies alice.messageIds, alice`lastServerMessageId, s, s.Repr()
    ensures |resps| == |requests| && AllJustified(requests, resps, envs)
    ensures BothSpared(old(s.KeyTable()), old(alice.MySlot()), old(bob.MySlot()), requests, resps, Times(envs)) ==>
              ok && ReadLast(s, bob.MySlot(), alice.lastServerMessageId) == Some(plain)
  {
    resps := ServeHolders(alice, bob, s, requests, envs, atSend.now);
    ok := SendBeside(alice, bob, s, bob.MySlot(), atSend, plain, nonce);
  }

  /** Two agreements leave both new keys held. */
  lemma BothHeld(serverId: Text, a: Text, b: Text, x: Text, y: Text, t: Tables, ss: seq<Node>, atA: int, atB: int, now: int)
    requires Coherent(t, ss) && a != b && a != [] && b != [] && serverId != []
    requires FindEmpty(ss) + 2 <= |ss| && t.counter.value + 1 < MAX_INT && AgreeEnabled(t, Pair(a, serverId))
    requires now < atA + VALIDITY && now < atB + VALIDITY
    ensures var t1, n1 := Agree(t, Pair(a, serverId), x, atA), Agreed(t, Pair(a, serverId), x);
            && AgreeEnabled(t1, Pair(b, serverId))
            && var t2, n2 := Agree(t1, Pair(b, serverId), y, atB), Agreed(t1, Pair(b, serverId), y);
               var ss2 := Write(Write(ss, n1).0, n2).0;
               && Held(t2, ss2, n1, now) && t2.rows[KeyOf(n1)].expire == atA + VALIDITY
               && Held(t2, ss2, n2, now) && t2.rows[KeyOf(n2)].expire == atB + VALIDITY
  {
    var pa, pb := Pair(a, serverId), Pair(b, serverId);
    var t1, n1 := Agree(t, pa, x, atA), Agreed(t, pa, x);
    AgreeIds(t, pa, x, atA);
    WriteCaches(ss, n1, pa);
    var t2, n2 := Agree(t1, pb, y, atB), Agreed(t1, pb, y);
    WriteCaches(Write(ss, n1).0, n2, pa);
    assert t1.rows[KeyOf(n1)] == Row(x, atA + VALIDITY, Active, None, RotationSource(t, pa));
    assert t2.rows[KeyOf(n1)] == t1.rows[KeyOf(n1)];
    assert t2.rows[KeyOf(n2)] == Row(y, atB + VALIDITY, Active, None, RotationSource(t1, pb));
  }

  /** The key is held in the client's slot and in the server's, and expires at `expire`. */
  ghost predicate HoldsKey(c: ClientOP, s: Server, k: RowKey, secret: Text, expire: int, now: int)
    reads c.shm.slots, s.db, s.shm.slots
  {
    && Held(s.KeyTable(), s.Slots(), c.MySlot(), now)
    && c.MySlot().Of() == c.MyPair() && c.MySlot().secret == secret && KeyOf(c.MySlot()) == k
    && s.KeyTable().rows[k].expire == expire
  }

  /** Two clients of one server, in processes of their own. */
  predicate Separate(alice: ClientOP, bob: ClientOP, s: Server) {
    alice != bob && bob.shm.slots != s.shm.slots && bob.serverId == s.serverId
  }

  /** Both agreements, on a healthy server. */
  method AgreeBothHealthy(alice: ClientOP, bob: ClientOP, s: Server, publicKeys: (Text, Text), signs: (Text, Text),
                          atA: Env, atB: Env, ghost sendTime: int)
    requires CanAgree(alice, bob, s) && GoodAgreement(alice, atA) && GoodAgreement(bob, atB) && Healthy(s)
    requires sendTime < atA.now + VALIDITY && sendTime < atB.now + VALIDITY
    modifies alice.keyIds, alice.shm.slots, bob.keyIds, bob.shm.slots, s.db, s.shm.slots
    ensures Linked(alice, s) && Healthy(s) && Separate(alice, bob, s)
    ensures KeySizeOk(s.crypto.decode(atA.secret)) && KeySizeOk(s.crypto.decode(atB.secret))
    ensures HoldsKey(alice, s, RowKey(alice.clientId, s.serverId, old(s.KeyTable().counter.value)), atA.secret, atA.now + VALIDITY, sendTime)
    ensures HoldsKey(bob, s, RowKey(bob.clientId, s.serverId, old(s.KeyTable().counter.value) + 1), atB.secret, atB.now + VALIDITY, sendTime)
  {
    ghost var t := s.KeyTable();
    NextEnabled(t, alice.MyPair(), atA.secret, atA.now, bob.MyPair());
    BothHeld(s.serverId, alice.clientId, bob.clientId, atA.secret, atB.secret, t, s.Slots(), atA.now, atB.now, sendTime);
    AgreeBoth(alice, bob, s, publicKeys, signs, atA, atB);
    TwoAgreementsEvolve(t, alice.MyPair(), bob.MyPair(), atA.secret, atB.secret, atA.now, atB.now);
    LogLasts(s.crypto, t, s.KeyTable(), s.serverId, s.log);
  }

  lemma TwoAgreementsEvolve(t: Tables, p: Pair, q: Pair, x: Text, y: Text, atP: int, atQ: int)
    requires AgreeEnabled(t, p) && AgreeEnabled(Agree(t, p, x, atP), q)
    ensures TablesEvolve(t, Agree(Agree(t, p, x, atP), q, y, atQ))
  {
    StepEvolves(t, OpAgree(p, x, atP));
    StepEvolves(Agree(t, p, x, atP), OpAgree(q, y, atQ));
    EvolveTogether(t, Agree(t, p, x, atP), Agree(Agree(t, p, x, atP), q, y, atQ));
  }

  /** What the send needs of its own call. */
  predicate GoodSend(atSend: Env, plain: Text, nonce: Text) {
    FaultFree(atSend) && atSend.insert.Stored? && plain != [] && |nonce| == GCM_NONCE_SIZE
  }

  /** The run gave neither key a reason to end. */
  predicate KeysSpared(requests: seq<RequestPacket>, resps: seq<ResponsePacket>, envs: seq<Env>,
                       a: RowKey, dueA: int, b: RowKey, dueB: int)
  {
    && |resps| == |requests| == |envs|
    && Spared(requests, resps, Times(envs), a, dueA) && Spared(requests, resps, Times(envs), b, dueB)
  }

  /** From the agreements on: serve whatever comes, then send. */
  method ServeThenSendKeys(alice: ClientOP, bob: ClientOP, s: Server, requests: seq<RequestPacket>, envs: seq<Env>,
                           ghost a: RowKey, ghost b: RowKey, ghost x: Text, ghost y: Text, ghost dueA: int, ghost dueB: int,
                           atSend: Env, plain: Text, nonce: Text) returns (resps: seq<ResponsePacket>, ok: bool)
    requires Linked(alice, s) && Separate(alice, bob, s) && Healthy(s) && Lawful(s.crypto)
    requires |envs| == |requests| && AllFaultFree(envs)
    requires HoldsKey(alice, s, a, x, dueA, atSend.now) && HoldsKey(bob, s, b, y, dueB, atSend.now)
    requires KeySizeOk(s.crypto.decode(x)) && KeySizeOk(s.crypto.decode(y))
    requires GoodSend(atSend, plain, nonce)
    modifies alice.messageIds, alice`lastServerMessageId, s, s.Repr()
    ensures |resps| == |requests| && AllJustified(requests, resps, envs)
    ensures KeysSpared(requests, resps, envs, a, dueA, b, dueB) ==>
              ok && ReadLast(s, bob.MySlot(), alice.lastServerMessageId) == Some(plain)
  {
    resps, ok := ServeThenSend(alice, bob, s, requests, envs, atSend, plain, nonce);
  }

  /**
    Agree, serve whatever comes, send: the keys of two agreements outlast every
    request that is refused and every request but a logout or another agreement of
    the pair, and until their day the message gets through.
   */
  method AgreeServeAndSend(alice: ClientOP, bob: ClientOP, s: Server, publicKeys: (Text, Text), signs: (Text, Text),
                           atA: Env, atB: Env, requests: seq<RequestPacket>, envs: seq<Env>,
                           atSend: Env, plain: Text, nonce: Text) returns (resps: seq<ResponsePacket>, ok: bool, ghost a: RowKey, ghost b: RowKey)
    requires CanAgree(alice, bob, s) && GoodAgreement(alice, atA) && GoodAgreement(bob, atB)
    requires Healthy(s) && Lawful(s.crypto) && |envs| == |requests| && AllFaultFree(envs)
    requires atSend.now < atA.now + VALIDITY && atSend.now < atB.now + VALIDITY
    requires GoodSend(atSend, plain, nonce)
    modifies alice, alice.keyIds, alice.messageIds, alice.shm.slots, bob.keyIds, bob.shm.slots, s, s.Repr()
    ensures |resps| == |requests| && AllJustified(requests, resps, envs)
    // the new keys
    ensures a == RowKey(alice.clientId, s.serverId, old(s.KeyTable().counter.value))
    ensures b == RowKey(bob.clientId, s.serverId, old(s.KeyTable().counter.value) + 1)
    ensures KeysSpared(requests, resps, envs, a, atA.now + VALIDITY, b, atB.now + VALIDITY) ==>
              ok && ReadLast(s, bob.MySlot(), alice.lastServerMessageId) == Some(plain)
  {
    ghost var n := s.KeyTable().counter.value;
    a, b := RowKey(alice.clientId, s.serverId, n), RowKey(bob.clientId, s.serverId, n + 1);
    AgreeBothHealthy(alice, bob, s, publicKeys, signs, atA, atB, atSend.now);
    resps, ok := ServeThenSendKeys(alice, bob, s, requests, envs, a, b, atA.secret, atB.secret, atA.now + VALIDITY,
                                   atB.now + VALIDITY, atSend, plain, nonce);
  }

  // ----- a stored message stays findable ------------------------------------------------

  /** What a query discloses of a stored message: who, to whom, under which key, when; it is text, and stored. */
  predicate Describes(x: MessageSummary, r: LogRecord) {
    && x.serverMessageId == r.msgId && x.senderId == r.senderId && x.receiverId == r.receiverId
    && x.keyId == r.senderKeyId && x.sendTime == r.sendTime
    && x.msgType == [116, 101, 120, 116] && x.status == 1
  }

  lemma SummaryDescribes(r: LogRecord)
    ensures Describes(Summary(r), r)
  {
    assert Bytes("text") == [116, 101, 120, 116];
  }

  /**
    At any time, until the id counter comes round: a query for the id of a stored
    message by its sender or its receiver returns that message.
   */
  method QueryStored(c: ClientOP, s: Server, i: nat, now: int, micros: int) returns (resp: ResponsePacket)
    requires c.Valid() && s.Valid() && Apart(c, s)
    requires i < |s.log| && c.clientId != [] && TakesPart(s.log[i], c.clientId)
    modifies c.messageIds, s`audits, s.queryIds
    ensures |s.ids.issued| <= TWO_64 ==>
              resp.body.QueryMsgResp? && resp.body.code == RESULT_SUCCESS && Describes(resp.body.summary, s.log[i])
  {
    StoredIdNotEmpty(s.log, s.numbers, s.ids.issued, i);
    if |s.ids.issued| <= TWO_64 {
      StoredIdsDiffer(s.log, s.numbers, s.ids.issued, i);
    }
    SummaryDescribes(s.log[i]);
    var packet := c.QueryRequest(s.log[i].msgId, micros, now);
    resp := s.HandleQueryMessage(packet.value, now, micros, false);
  }

  /** Serving requests leaves a client alone. */
  method ServeApart(c: ClientOP, s: Server, requests: seq<RequestPacket>, envs: seq<Env>)
    requires c.Valid() && s.Valid() && Apart(c, s) && |envs| == |requests|
    modifies s, s.Repr()
    ensures c.Valid() && s.Valid() && old(s.log) <= s.log
  {
    var resps := Serve(s, requests, envs);
  }

  lemma StillThere(log: seq<LogRecord>, later: seq<LogRecord>, i: nat)
    requires log <= later && i < |log|
    ensures later[i] == log[i]
  {
  }

  /** The same after any further requests: stored messages stay, under ids that stay theirs. */
  method ServeThenQuery(c: ClientOP, s: Server, i: nat, requests: seq<RequestPacket>, envs: seq<Env>, now: int, micros: int)
    returns (resp: ResponsePacket)
    requires c.Valid() && s.Valid() && Apart(c, s) && |envs| == |requests|
    requires i < |s.log| && c.clientId != [] && TakesPart(s.log[i], c.clientId)
    modifies c.messageIds, s, s.Repr()
    ensures |s.ids.issued| <= TWO_64 ==>
              resp.body.QueryMsgResp? && resp.body.code == RESULT_SUCCESS && Describes(resp.body.summary, old(s.log[i]))
  {
    ghost var log := s.log;
    ServeApart(c, s, requests, envs);
    StillThere(log, s.log, i);
    resp := QueryStored(c, s, i, now, micros);
  }

  /** The client that sent a message finds it under the id it remembers. */
  method SendThenQuery(c: ClientOP, s: Server, receiverId: Text, plain: Text, nonce: Text, env: Env, now: int, micros: int)
    returns (ok: bool, resp: ResponsePacket)
    requires Linked(c, s) && Lawful(c.crypto) && |nonce| == GCM_NONCE_SIZE && |env.nonce| == GCM_NONCE_SIZE
    modifies c.messageIds, c`lastServerMessageId, s, s.Repr()
    ensures ok && |s.ids.issued| <= TWO_64 ==>
              && resp.body.QueryMsgResp? && resp.body.code == RESULT_SUCCESS
              && resp.body.summary.serverMessageId == c.lastServerMessageId
              && resp.body.summary.senderId == c.clientId && resp.body.summary.receiverId == receiverId
              && resp.body.summary.keyId == old(c.MySlot()).keyId && resp.body.summary.sendTime == env.now
  {
    resp := ResponsePacket(None, NoResponse);
    ghost var i := |s.log|;
    ok := SendText(c, s, receiverId, plain, nonce, env, true);
    if ok {
      resp := QueryStored(c, s, |s.log| - 1, now, micros);
    }
  }
}
