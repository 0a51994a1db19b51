/**
  What does not end a key: any request but a logout of that key or an agreement
  for its pair that is answered SUCCESS, as long as the key is not due.
 */
module Survival {
  import opened Basics
  import opened KeyTables
  import opened SlotArray
  import opened Coherence
  import opened KeyLookup
  import opened MessageCrypto
  import opened Packets
  import opened Relay

  /** The row is as it was, and its pair is still cached. */
  predicate Survives(t: Tables, t': Tables, ss': seq<Node>, k: RowKey) {
    && k in t.rows && k in t'.rows && t'.rows[k] == t.rows[k]
    && IsCached(ss', PairOf(k))
  }

  predicate LogsOut(packet: RequestPacket, k: RowKey) {
    packet.header.Some? && packet.body.KeyLogoutReq?
    && k == RowKey(packet.header.value.senderId, packet.header.value.receiverId, packet.body.loggedOutId)
  }

  predicate AgreesFor(packet: RequestPacket, p: Pair) {
    packet.header.Some? && packet.body.KeyAgreeReq?
    && p == Pair(packet.header.value.senderId, packet.header.value.receiverId)
  }

  /** A key request that was carried out. */
  predicate Succeeded(resp: ResponsePacket) {
    resp.body.KeyOpResp? && resp.body.code == RESULT_SUCCESS
  }

  /** A request at time `now`, so answered, gives the key no reason to end. */
  predicate Spares(packet: RequestPacket, resp: ResponsePacket, now: int, k: RowKey, expire: int) {
    now < expire && (Succeeded(resp) ==> !LogsOut(packet, k) && !AgreesFor(packet, PairOf(k)))
  }

  // ----- slots ---------------------------------------------------------------------

  lemma DisablingKeepsCached(ss: seq<Node>, p: Pair, q: Pair)
    requires Packed(ss)
    ensures var ss' := SetStatus(ss, p, 0).0;
            Packed(ss') && (IsCached(ss, q) ==> IsCached(ss', q))
  {
    ReadCached(ss, p);
    CachedIndex(ss, p);
    CachedIndex(ss, q);
    if IsCached(ss, p) {
      var j := FindPair(ss, p);
      PutPacked(ss, j, ss[j].(status := 0));
      CachedIndex(SetStatus(ss, p, 0).0, q);
    }
  }

  lemma WritingKeepsCached(ss: seq<Node>, n: Node, q: Pair)
    requires Packed(ss) && Solid(n)
    ensures Packed(Write(ss, n).0) && (IsCached(ss, q) ==> IsCached(Write(ss, n).0, q))
  {
    WritePlace(ss, n);
    CachedIndex(ss, n.Of());
    CachedIndex(ss, q);
    var k := if IsCached(ss, n.Of()) then FindPair(ss, n.Of()) else FindEmpty(ss);
    if k < |ss| {
      PutPacked(ss, k, n);
      CachedIndex(Write(ss, n).0, q);
    }
  }

  // ----- handlers ------------------------------------------------------------------

  lemma AgreementSpares(t: Tables, ss: seq<Node>, p: Pair, secret: Text, now: int, k: RowKey)
    requires IdsOk(t) && AgreeEnabled(t, p) && Packed(ss) && k in t.rows && PairOf(k) != p && IsCached(ss, PairOf(k))
    ensures Survives(t, Agree(t, p, secret, now), Write(ss, Node(1, t.counter.value, p.client, p.server, secret)).0, k)
  {
    WritingKeepsCached(ss, Node(1, t.counter.value, p.client, p.server, secret), PairOf(k));
  }

  lemma LookUpSpares(t: Tables, ss: seq<Node>, checked: RowKey, now: int, fault: CheckFault, k: RowKey)
    requires Packed(ss) && k in t.rows && now < t.rows[k].expire && IsCached(ss, PairOf(k))
    ensures var l := LookUp(t, ss, checked, now, fault);
            Survives(t, l.t, l.ss, k) && Packed(l.ss)
  {
    DisablingKeepsCached(ss, PairOf(checked), PairOf(k));
  }

  lemma DecisionSpares(c: Crypto, serverId: Text, packet: RequestPacket, t: Tables, ss: seq<Node>, now: int,
                       senderFault: CheckFault, receiverFault: CheckFault, nonce: Text, k: RowKey)
    requires Packed(ss) && k in t.rows && now < t.rows[k].expire && IsCached(ss, PairOf(k))
    ensures var o := Decide(c, serverId, packet, t, ss, now, senderFault, receiverFault, nonce);
            Survives(t, o.t, o.ss, k)
  {
    if ValidSend(packet) {
      var sk := SenderKey(serverId, packet);
      LookUpSpares(t, ss, sk, now, senderFault, k);
      ValidIsLive(t, ss, sk, now, senderFault);
      if LookUp(t, ss, sk, now, senderFault).key.valid {
        LookUpSpares(t, ss, ReceiverKey(serverId, packet, ss), now, receiverFault, k);
      }
    }
  }

  // ----- runs ----------------------------------------------------------------------

  /** No request of the run gives the key a reason to end. */
  predicate Spared(requests: seq<RequestPacket>, resps: seq<ResponsePacket>, times: seq<int>, k: RowKey, expire: int)
    requires |times| == |requests| == |resps|
  {
    forall i | 0 <= i < |requests| :: Spares(requests[i], resps[i], times[i], k, expire)
  }

  /** Every Active key of a cached pair that the requests spare survives them. */
  ghost predicate LiveKeysSurvive(t: Tables, ss: seq<Node>, t': Tables, ss': seq<Node>,
                                  requests: seq<RequestPacket>, resps: seq<ResponsePacket>, times: seq<int>)
    requires |times| == |requests| == |resps|
  {
    forall k | IsActive(t, k) && IsCached(ss, PairOf(k)) && Spared(requests, resps, times, k, t.rows[k].expire) ::
      Survives(t, t', ss', k)
  }

  lemma NothingHappened(t: Tables, ss: seq<Node>)
    ensures LiveKeysSurvive(t, ss, t, ss, [], [], [])
  {
  }

  lemma OneSpared(packet: RequestPacket, resp: ResponsePacket, now: int, k: RowKey, expire: int)
    ensures Spared([packet], [resp], [now], k, expire) <==> Spares(packet, resp, now, k, expire)
  {
    assert [packet][0] == packet && [resp][0] == resp && [now][0] == now;
  }

  lemma AgreementSparesAll(t: Tables, ss: seq<Node>, packet: RequestPacket, resp: ResponsePacket, secret: Text, now: int)
    requires Succeeded(resp)
    requires packet.header.Some? && packet.body.KeyAgreeReq? && IdsOk(t) && Packed(ss)
    requires AgreeEnabled(t, Pair(packet.header.value.senderId, packet.header.value.receiverId))
    ensures var p := Pair(packet.header.value.senderId, packet.header.value.receiverId);
            LiveKeysSurvive(t, ss, Agree(t, p, secret, now),
                            Write(ss, Node(1, t.counter.value, p.client, p.server, secret)).0, [packet], [resp], [now])
  {
    var p := Pair(packet.header.value.senderId, packet.header.value.receiverId);
    forall k | IsActive(t, k) && IsCached(ss, PairOf(k)) && Spared([packet], [resp], [now], k, t.rows[k].expire)
      ensures Survives(t, Agree(t, p, secret, now), Write(ss, Node(1, t.counter.value, p.client, p.server, secret)).0, k)
    {
      OneSpared(packet, resp, now, k, t.rows[k].expire);
      AgreementSpares(t, ss, p, secret, now, k);
    }
  }

  /** A check expires its row if due, and may disable a slot. */
  lemma CheckSparesAll(t: Tables, ss: seq<Node>, packet: RequestPacket, resp: ResponsePacket, checked: RowKey, now: int)
    requires Packed(ss)
    ensures LiveKeysSurvive(t, ss, ExpireRow(t, checked, now), ss, [packet], [resp], [now])
    ensures LiveKeysSurvive(t, ss, ExpireRow(t, checked, now), SetStatus(ss, PairOf(checked), 0).0, [packet], [resp], [now])
  {
    forall k | IsActive(t, k) && IsCached(ss, PairOf(k)) && Spared([packet], [resp], [now], k, t.rows[k].expire)
      ensures Survives(t, ExpireRow(t, checked, now), ss, k)
      ensures Survives(t, ExpireRow(t, checked, now), SetStatus(ss, PairOf(checked), 0).0, k)
    {
      OneSpared(packet, resp, now, k, t.rows[k].expire);
      DisablingKeepsCached(ss, PairOf(checked), PairOf(k));
    }
  }

  lemma LogoutSparesAll(t: Tables, ss: seq<Node>, packet: RequestPacket, resp: ResponsePacket, now: int)
    requires Succeeded(resp)
    requires Packed(ss) && packet.header.Some? && packet.body.KeyLogoutReq?
    ensures var k := RowKey(packet.header.value.senderId, packet.header.value.receiverId, packet.body.loggedOutId);
            LiveKeysSurvive(t, ss, RevokeRow(t, k, now), SetStatus(ss, PairOf(k), 0).0, [packet], [resp], [now])
  {
    var dead := RowKey(packet.header.value.senderId, packet.header.value.receiverId, packet.body.loggedOutId);
    forall k | IsActive(t, k) && IsCached(ss, PairOf(k)) && Spared([packet], [resp], [now], k, t.rows[k].expire)
      ensures Survives(t, RevokeRow(t, dead, now), SetStatus(ss, PairOf(dead), 0).0, k)
    {
      OneSpared(packet, resp, now, k, t.rows[k].expire);
      DisablingKeepsCached(ss, PairOf(dead), PairOf(k));
    }
  }

  lemma SendSparesAll(c: Crypto, serverId: Text, packet: RequestPacket, resp: ResponsePacket, t: Tables, ss: seq<Node>, now: int,
                      senderFault: CheckFault, receiverFault: CheckFault, nonce: Text)
    requires Packed(ss)
    ensures var o := Decide(c, serverId, packet, t, ss, now, senderFault, receiverFault, nonce);
            LiveKeysSurvive(t, ss, o.t, o.ss, [packet], [resp], [now])
  {
    forall k | IsActive(t, k) && IsCached(ss, PairOf(k)) && Spared([packet], [resp], [now], k, t.rows[k].expire)
      ensures var o := Decide(c, serverId, packet, t, ss, now, senderFault, receiverFault, nonce);
              Survives(t, o.t, o.ss, k)
    {
      OneSpared(packet, resp, now, k, t.rows[k].expire);
      DecisionSpares(c, serverId, packet, t, ss, now, senderFault, receiverFault, nonce, k);
    }
  }

  lemma NothingSparesAll(t: Tables, ss: seq<Node>, packet: RequestPacket, resp: ResponsePacket, now: int)
    ensures LiveKeysSurvive(t, ss, t, ss, [packet], [resp], [now])
  {
  }

  lemma SurvivalGoesOn(t: Tables, ss: seq<Node>, t1: Tables, ss1: seq<Node>, t2: Tables, ss2: seq<Node>,
                       requests: seq<RequestPacket>, resps: seq<ResponsePacket>, times: seq<int>,
                       packet: RequestPacket, resp: ResponsePacket, now: int)
    requires |times| == |requests| == |resps| && LiveKeysSurvive(t, ss, t1, ss1, requests, resps, times)
    requires LiveKeysSurvive(t1, ss1, t2, ss2, [packet], [resp], [now])
    ensures LiveKeysSurvive(t, ss, t2, ss2, requests + [packet], resps + [resp], times + [now])
  {
    var rs, ans, ts := requests + [packet], resps + [resp], times + [now];
    forall k | IsActive(t, k) && IsCached(ss, PairOf(k)) && Spared(rs, ans, ts, k, t.rows[k].expire)
      ensures Survives(t, t2, ss2, k)
    {
      assert Spared(requests, resps, times, k, t.rows[k].expire) by {
        forall i | 0 <= i < |requests|
          ensures Spares(requests[i], resps[i], times[i], k, t.rows[k].expire)
        {
          assert rs[i] == requests[i] && ans[i] == resps[i] && ts[i] == times[i];
        }
      }
      assert rs[|requests|] == packet && ans[|requests|] == resp && ts[|requests|] == now;
      assert Survives(t, t1, ss1, k);
      assert Spared([packet], [resp], [now], k, t1.rows[k].expire);
    }
  }

  /**
    In agreement, a surviving key that is not due is still the valid answer of the
    lookup, with its own material: an agreed key stays usable.
   */
  lemma SurvivorIsUsable(t: Tables, t': Tables, ss': seq<Node>, k: RowKey, now: int)
    requires Coherent(t', ss') && Survives(t, t', ss', k) && IsActive(t, k) && now < t.rows[k].expire
    requires k.client != [] && k.server != []
    ensures LookUp(t', ss', k, now, NO_FAULT).key == ActiveKey(true, true, t.rows[k].secret, k.keyId)
  {
    LookUpCoherent(t', ss', k, now);
    ValidIsLive(t', ss', k, now, NO_FAULT);
  }
}
