/**
  Packets with strings that are not valid UTF-8. The encoder writes them, the
  parser refuses them, and `decodeMsg` hands on what was stored by then.
 */
module RefusedPackets {
  import opened Basics
  import opened Varint
  import opened WireFormat
  import opened WireProofs
  import opened Packets
  import opened Codec

  // ----- what a decoder has stored when it stops -----------------------------------------

  predicate HeaderClean(h: Header) {
    ValidUtf8(h.messageId) && ValidUtf8(h.senderId) && ValidUtf8(h.receiverId)
  }

  /** Every field up to and including the first invalid string. */
  function ReceivedHeader(h: Header): Header {
    if !ValidUtf8(h.messageId) then Header(h.messageId, 0, [], [], 0)
    else if !ValidUtf8(h.senderId) then Header(h.messageId, h.command, h.senderId, [], 0)
    else if !ValidUtf8(h.receiverId) then Header(h.messageId, h.command, h.senderId, h.receiverId, 0)
    else h
  }

  function ReceivedEncrypted(e: EncryptedMessage): EncryptedMessage {
    if !ValidUtf8(e.ciphertext) then EncryptedMessage(e.keyId, e.msgType, e.ciphertext, [], [], [])
    else if !ValidUtf8(e.nonce) then EncryptedMessage(e.keyId, e.msgType, e.ciphertext, e.nonce, [], [])
    else if !ValidUtf8(e.tag) then EncryptedMessage(e.keyId, e.msgType, e.ciphertext, e.nonce, e.tag, [])
    else e
  }

  function ReceivedBody(b: RequestBody): RequestBody {
    match b
    case SendMsgReq(Some(e)) => SendMsgReq(Some(ReceivedEncrypted(e)))
    case QueryMsgListReq(sender, limit) => QueryMsgListReq(sender, if ValidUtf8(sender) then limit else 0)
    case KeyAgreeReq(key, sign) => KeyAgreeReq(key, if ValidUtf8(key) then sign else [])
    case _ => b
  }

  /** A refused header hides the body; a refused body keeps its case. */
  function ReceivedRequest(p: RequestPacket): RequestPacket {
    match p.header
    case Some(h) =>
      RequestPacket(Some(ReceivedHeader(h)), if HeaderClean(h) then ReceivedBody(p.body) else NoRequest)
    case None => RequestPacket(None, ReceivedBody(p.body))
  }

  function ReceivedSummary(s: MessageSummary): MessageSummary {
    if !ValidUtf8(s.serverMessageId) then MessageSummary(s.serverMessageId, [], [], 0, [], 0, 0)
    else if !ValidUtf8(s.senderId) then MessageSummary(s.serverMessageId, s.senderId, [], 0, [], 0, 0)
    else if !ValidUtf8(s.receiverId) then MessageSummary(s.serverMessageId, s.senderId, s.receiverId, 0, [], 0, 0)
    else if !ValidUtf8(s.msgType) then MessageSummary(s.serverMessageId, s.senderId, s.receiverId, s.keyId, s.msgType, 0, 0)
    else s
  }

  predicate SummaryClean(s: MessageSummary) {
    ValidUtf8(s.serverMessageId) && ValidUtf8(s.senderId) && ValidUtf8(s.receiverId) && ValidUtf8(s.msgType)
  }

  const NO_SUMMARY := MessageSummary([], [], [], 0, [], 0, 0)

  /** The summaries up to and including the first that is refused, of which a part is kept. */
  function ReceivedSummaries(ss: seq<MessageSummary>): seq<MessageSummary> {
    if ss == [] then []
    else if SummaryClean(ss[0]) then [ss[0]] + ReceivedSummaries(ss[1..])
    else [ReceivedSummary(ss[0])]
  }

  function ReceivedResponseBody(b: ResponseBody): ResponseBody {
    match b
    case NoResponse => b
    case SendMsgResp(code, message, id, time, status) =>
      if !ValidUtf8(message) then SendMsgResp(code, message, [], 0, 0)
      else if !ValidUtf8(id) then SendMsgResp(code, message, id, 0, 0)
      else b
    case QueryMsgResp(code, message, s) =>
      QueryMsgResp(code, message, if ValidUtf8(message) then ReceivedSummary(s) else NO_SUMMARY)
    case QueryMsgListResp(code, message, ss) =>
      QueryMsgListResp(code, message, if ValidUtf8(message) then ReceivedSummaries(ss) else [])
    case KeyOpResp(code, message, keyId, data) =>
      if ValidUtf8(message) then b else KeyOpResp(code, message, 0, [])
  }

  function ReceivedResponse(p: ResponsePacket): ResponsePacket {
    match p.header
    case Some(h) =>
      ResponsePacket(Some(ReceivedHeader(h)), if HeaderClean(h) then ReceivedResponseBody(p.body) else NoResponse)
    case None => ResponsePacket(None, ReceivedResponseBody(p.body))
  }

  // ----- it is what the parser leaves -----------------------------------------------------

  /** Scalar fields are received as they are, until the first invalid string. */
  lemma FlatReceived(d: Desc, m: Message, j: nat)
    requires Conforms(d, m) && j < |m.vals| && !m.vals[j].Sub? && !m.vals[j].Rep?
    ensures Received(d, m).vals[j] == if CleanUpTo(m, j) then m.vals[j] else DefaultValue(d.fields[j].ty)
  {
    assert Received(d, m).vals[j] == ReceivedAt(d, m, j);
  }

  /** A field after a clean field is received exactly if that one is. */
  lemma CleanNext(m: Message, j: nat)
    requires j < |m.vals|
    ensures CleanUpTo(m, j + 1) <==> CleanUpTo(m, j) && CleanValue(m.vals[j])
  {
  }

  lemma HeaderClears(h: Header)
    ensures var m := HeaderMsg(h);
            && CleanUpTo(m, 0)
            && (CleanUpTo(m, 1) <==> ValidUtf8(h.messageId))
            && (CleanUpTo(m, 2) <==> ValidUtf8(h.messageId))
            && (CleanUpTo(m, 3) <==> ValidUtf8(h.messageId) && ValidUtf8(h.senderId))
            && (CleanUpTo(m, 4) <==> HeaderClean(h)) && (CleanUpTo(m, 5) <==> HeaderClean(h))
  {
    var m := HeaderMsg(h);
    CleanNext(m, 0);
    CleanNext(m, 1);
    CleanNext(m, 2);
    CleanNext(m, 3);
    CleanNext(m, 4);
  }

  lemma HeaderFieldReceived(h: Header, j: nat)
    requires Conforms(HEADER, HeaderMsg(h)) && j < 5
    ensures Received(HEADER, HeaderMsg(h)).vals[j] == HeaderMsg(ReceivedHeader(h)).vals[j]
  {
    FlatReceived(HEADER, HeaderMsg(h), j);
    HeaderClears(h);
  }

  lemma HeaderReceived(h: Header)
    requires HeaderFits(h)
    ensures Conforms(HEADER, HeaderMsg(h)) && Received(HEADER, HeaderMsg(h)) == HeaderMsg(ReceivedHeader(h))
  {
    HeaderConforms(h);
    var r, q := Received(HEADER, HeaderMsg(h)), HeaderMsg(ReceivedHeader(h));
    forall j | 0 <= j < 5
      ensures r.vals[j] == q.vals[j]
    {
      HeaderFieldReceived(h, j);
    }
    assert r.vals == q.vals;
  }

  lemma HeaderIsClean(h: Header)
    ensures Clean(HeaderMsg(h)) <==> HeaderClean(h)
  {
    HeaderClears(h);
    assert Clean(HeaderMsg(h)) <==> CleanUpTo(HeaderMsg(h), 5);
  }

  lemma EncryptedClears(e: EncryptedMessage)
    ensures var m := EncryptedMsg(e);
            && CleanUpTo(m, 0) && CleanUpTo(m, 1) && CleanUpTo(m, 2)
            && (CleanUpTo(m, 3) <==> ValidUtf8(e.ciphertext))
            && (CleanUpTo(m, 4) <==> ValidUtf8(e.ciphertext) && ValidUtf8(e.nonce))
            && (CleanUpTo(m, 5) <==> ValidUtf8(e.ciphertext) && ValidUtf8(e.nonce) && ValidUtf8(e.tag))
  {
    var m := EncryptedMsg(e);
    CleanNext(m, 0);
    CleanNext(m, 1);
    CleanNext(m, 2);
    CleanNext(m, 3);
    CleanNext(m, 4);
  }

  lemma EncryptedReceived(e: EncryptedMessage)
    requires Int32(e.keyId) && Int32(e.msgType)
    ensures Conforms(ENCRYPTED_MESSAGE, EncryptedMsg(e))
    ensures Received(ENCRYPTED_MESSAGE, EncryptedMsg(e)) == EncryptedMsg(ReceivedEncrypted(e))
  {
    var m, q := EncryptedMsg(e), EncryptedMsg(ReceivedEncrypted(e));
    EncryptedConforms(e);
    EncryptedClears(e);
    var r := Received(ENCRYPTED_MESSAGE, m);
    forall j | 0 <= j < 6
      ensures r.vals[j] == q.vals[j]
    {
      FlatReceived(ENCRYPTED_MESSAGE, m, j);
    }
    assert r.vals == q.vals;
  }

  lemma SendReceived(d: Desc, e: Option<EncryptedMessage>)
    requires d == SEND_MESSAGE_REQUEST && (e.Some? ==> Int32(e.value.keyId) && Int32(e.value.msgType))
    requires Conforms(d, RequestBodyMsg(SendMsgReq(e)))
    ensures Received(d, RequestBodyMsg(SendMsgReq(e))) == RequestBodyMsg(ReceivedBody(SendMsgReq(e)))
  {
    var m := RequestBodyMsg(SendMsgReq(e));
    if e.Some? { EncryptedReceived(e.value); }
    assert Received(d, m).vals[0] == ReceivedAt(d, m, 0) == ReceivedValue(d.fields[0].ty, m.vals[0]);
    assert Received(d, m).vals == [Received(d, m).vals[0]];
  }

  lemma OneScalar(d: Desc, m: Message)
    requires Conforms(d, m) && |m.vals| == 1 && !m.vals[0].Sub? && !m.vals[0].Rep?
    ensures Received(d, m) == m
  {
    FlatReceived(d, m, 0);
  }

  lemma TwoScalars(d: Desc, m: Message)
    requires Conforms(d, m) && |m.vals| == 2
    requires forall j | 0 <= j < 2 :: !m.vals[j].Sub? && !m.vals[j].Rep?
    ensures Received(d, m).vals
            == [m.vals[0], if CleanValue(m.vals[0]) then m.vals[1] else DefaultValue(d.fields[1].ty)]
  {
    FlatReceived(d, m, 0);
    FlatReceived(d, m, 1);
  }

  lemma BodyReceived(b: RequestBody)
    requires RequestFits(RequestPacket(None, b)) && !b.NoRequest?
    ensures var d := REQUEST_PACKET.fields[RequestCase(b)].ty.desc;
            Conforms(d, RequestBodyMsg(b)) && Received(d, RequestBodyMsg(b)) == RequestBodyMsg(ReceivedBody(b))
  {
    RequestBodyConforms(RequestPacket(None, b));
    var d, m := REQUEST_PACKET.fields[RequestCase(b)].ty.desc, RequestBodyMsg(b);
    match b
    case SendMsgReq(e) => SendReceived(d, e);
    case QueryMsgListReq(_, _) => TwoScalars(d, m);
    case KeyAgreeReq(_, _) => TwoScalars(d, m);
    case _ => OneScalar(d, m);
  }

  // ----- either packet ----------------------------------------------------------------------

  predicate HeaderIsGone(h: Option<Header>) {
    h.Some? && !HeaderClean(h.value)
  }

  lemma HeaderValReceived(h: Option<Header>)
    requires h.Some? ==> HeaderFits(h.value)
    ensures ValueOk(TMessage(HEADER), HeaderVal(h))
    ensures ReceivedValue(TMessage(HEADER), HeaderVal(h))
            == HeaderVal(match h case None => None case Some(x) => Some(ReceivedHeader(x)))
    ensures CleanValue(HeaderVal(h)) <==> !HeaderIsGone(h)
  {
    if h.Some? {
      HeaderReceived(h.value);
      HeaderIsClean(h.value);
    }
  }

  /** Before the body's field only the header can hold a string. */
  lemma OthersUnset(n: nat, h: Option<Header>, c: nat, m: Message, j: nat)
    requires 1 <= j <= n && (c == 0 || j <= c)
    requires h.Some? ==> HeaderFits(h.value)
    ensures CleanUpTo(PacketMsg(n, h, c, m), j) <==> !HeaderIsGone(h)
  {
    var p := PacketMsg(n, h, c, m);
    HeaderValReceived(h);
    assert p.vals[0] == HeaderVal(h);
    forall k | 1 <= k < j
      ensures CleanValue(p.vals[k])
    {
      assert p.vals[k] == BodyVal(false, m) == Sub(None);
    }
  }

  lemma BodyFieldReceived(d: Desc, n: nat, h: Option<Header>, c: nat, m: Message, j: nat)
    requires PacketOk(d, n, h, c, m) && 1 <= j <= n
    ensures Received(d, PacketMsg(n, h, c, m)).vals[j] ==
            if c == j && !HeaderIsGone(h) then Sub(Some(Received(d.fields[c].ty.desc, m))) else Sub(None)
  {
    var p := PacketMsg(n, h, c, m);
    assert ValueOk(d.fields[j].ty, p.vals[j]) && p.vals[j] == BodyVal(c == j, m);
    assert Received(d, p).vals[j] == ReceivedAt(d, p, j);
    if c == j {
      OthersUnset(n, h, c, m, j);
      if !HeaderIsGone(h) {
        assert ReceivedAt(d, p, j) == ReceivedValue(d.fields[j].ty, Sub(Some(m)));
      }
    } else if CleanUpTo(p, j) {
      assert ReceivedAt(d, p, j) == ReceivedValue(d.fields[j].ty, Sub(None));
    }
  }

  /** What is received of either packet: a refused header hides the body. */
  lemma PacketReceived(d: Desc, n: nat, h: Option<Header>, c: nat, m: Message)
    requires PacketOk(d, n, h, c, m)
    ensures Received(d, PacketMsg(n, h, c, m)) ==
            PacketMsg(n, match h case None => None case Some(x) => Some(ReceivedHeader(x)),
                      if HeaderIsGone(h) then 0 else c, if c == 0 || HeaderIsGone(h) then m else Received(d.fields[c].ty.desc, m))
  {
    var p := PacketMsg(n, h, c, m);
    var q := PacketMsg(n, match h case None => None case Some(x) => Some(ReceivedHeader(x)),
                       if HeaderIsGone(h) then 0 else c, if c == 0 || HeaderIsGone(h) then m else Received(d.fields[c].ty.desc, m));
    HeaderValReceived(h);
    assert Received(d, p).vals[0] == ReceivedAt(d, p, 0) == ReceivedValue(TMessage(HEADER), HeaderVal(h));
    forall j | 1 <= j < n + 1
      ensures Received(d, p).vals[j] == q.vals[j]
    {
      BodyFieldReceived(d, n, h, c, m, j);
    }
    assert Received(d, p).vals == q.vals;
  }

  // ----- requests ---------------------------------------------------------------------------

  lemma RequestReceived(p: RequestPacket)
    requires RequestFits(p)
    ensures Conforms(REQUEST_PACKET, RequestMsg(p))
    ensures Received(REQUEST_PACKET, RequestMsg(p)) == RequestMsg(ReceivedRequest(p))
  {
    RequestConforms(p);
    RequestOk(p);
    RequestForm(p);
    RequestForm(ReceivedRequest(p));
    PacketReceived(REQUEST_PACKET, 6, p.header, RequestCase(p.body), RequestBodyMsg(p.body));
    if !p.body.NoRequest? { BodyReceived(p.body); }
    assert RequestCase(ReceivedBody(p.body)) == RequestCase(p.body);
    NothingThere(6, ReceivedRequest(p).header, RequestBodyMsg(p.body), RequestBodyMsg(NoRequest));
  }

  /** Without a body it does not matter which. */
  lemma NothingThere(n: nat, h: Option<Header>, x: Message, y: Message)
    ensures PacketMsg(n, h, 0, x) == PacketMsg(n, h, 0, y)
  {
  }

  /**
    What the dispatcher gets for any encoded request: the whole packet, or, when
    the parse is refused, everything up to and including the first invalid string.
   */
  lemma AnyRequestDecodes(p: RequestPacket)
    requires RequestFits(p) && RequestSize(p) <= MAX_INT
    ensures DecodeRequest(EncodeRequest(p)) == (RequestClean(p), ReceivedRequest(p))
  {
    ParsedRequest(p);
    ReceivedFits(p);
    RequestOfMsg(ReceivedRequest(p));
  }

  lemma ParsedRequest(p: RequestPacket)
    requires RequestFits(p) && RequestSize(p) <= MAX_INT
    ensures Good(REQUEST_PACKET)
    ensures Parse(REQUEST_PACKET, Default(REQUEST_PACKET), EncodeRequest(p))
            == Parsed(RequestClean(p), RequestMsg(ReceivedRequest(p)))
  {
    RequestIsGood();
    RequestReceived(p);
    WireProofs.RoundTrip(REQUEST_PACKET, RequestMsg(p));
  }

  lemma ReceivedFits(p: RequestPacket)
    requires RequestFits(p)
    ensures RequestFits(ReceivedRequest(p))
  {
  }

  /** For example, an agreement whose signature is not text: refused, and dispatched in full all the same. */
  lemma RefusedAgreementIsDispatched(key: Text, sign: Text)
    requires ValidUtf8(key) && !ValidUtf8(sign) && RequestSize(RequestPacket(None, KeyAgreeReq(key, sign))) <= MAX_INT
    ensures var p := RequestPacket(None, KeyAgreeReq(key, sign));
            DecodeRequest(EncodeRequest(p)) == (false, p)
  {
    var p := RequestPacket(None, KeyAgreeReq(key, sign));
    AnyRequestDecodes(p);
    RequestIsUnclean(p);
  }

  lemma RequestIsUnclean(p: RequestPacket)
    requires p.body.KeyAgreeReq? && !ValidUtf8(p.body.sign)
    ensures !RequestClean(p)
  {
    var body := RequestBodyMsg(p.body);
    assert !CleanValue(body.vals[1]);
    assert !CleanValue(RequestMsg(p).vals[4]);
  }

  // ----- responses --------------------------------------------------------------------------

  function Zero(v: Value): Value {
    match v
    case Int(_) => Int(0)
    case _ => Str([])
  }

  /** Every field up to and including the first invalid string. */
  predicate IsCut(m: Message, q: Message) {
    && AllScalars(m) && |q.vals| == |m.vals|
    && forall j | 0 <= j < |m.vals| :: q.vals[j] == if CleanUpTo(m, j) then m.vals[j] else Zero(m.vals[j])
  }

  lemma FlatIsReceived(d: Desc, m: Message, q: Message)
    requires Conforms(d, m) && IsCut(m, q)
    ensures Received(d, m) == q
  {
    forall j | 0 <= j < |m.vals|
      ensures Received(d, m).vals[j] == q.vals[j]
    {
      assert m.vals[j].Int? || m.vals[j].Str?;
      assert ValueOk(d.fields[j].ty, m.vals[j]);
      FlatReceived(d, m, j);
    }
    assert Received(d, m).vals == q.vals;
  }

  lemma SummaryClears(s: MessageSummary)
    ensures var m := SummaryMsg(s);
            && CleanUpTo(m, 0)
            && (CleanUpTo(m, 1) <==> ValidUtf8(s.serverMessageId))
            && (CleanUpTo(m, 2) <==> ValidUtf8(s.serverMessageId) && ValidUtf8(s.senderId))
            && (CleanUpTo(m, 3) <==> ValidUtf8(s.serverMessageId) && ValidUtf8(s.senderId) && ValidUtf8(s.receiverId))
            && (CleanUpTo(m, 4) <==> CleanUpTo(m, 3))
            && (CleanUpTo(m, 5) <==> SummaryClean(s)) && (CleanUpTo(m, 6) <==> SummaryClean(s))
            && (Clean(m) <==> SummaryClean(s))
  {
    var m := SummaryMsg(s);
    CleanNext(m, 0);
    CleanNext(m, 1);
    CleanNext(m, 2);
    CleanNext(m, 3);
    CleanNext(m, 4);
    CleanNext(m, 5);
    CleanNext(m, 6);
    assert Clean(m) <==> CleanUpTo(m, 7);
  }

  lemma SummaryIsCut(s: MessageSummary)
    ensures IsCut(SummaryMsg(s), SummaryMsg(ReceivedSummary(s)))
  {
    SummaryClears(s);
  }

  lemma SummaryReceived(s: MessageSummary)
    requires SummaryFits(s)
    ensures Conforms(MESSAGE_SUMMARY, SummaryMsg(s))
    ensures Received(MESSAGE_SUMMARY, SummaryMsg(s)) == SummaryMsg(ReceivedSummary(s))
  {
    SummaryConforms(s);
    SummaryIsCut(s);
    FlatIsReceived(MESSAGE_SUMMARY, SummaryMsg(s), SummaryMsg(ReceivedSummary(s)));
  }

  lemma {:induction false} SummariesReceived(ss: seq<MessageSummary>)
    requires forall i | 0 <= i < |ss| :: SummaryFits(ss[i])
    ensures forall i | 0 <= i < |ss| :: Conforms(MESSAGE_SUMMARY, SummaryMsgs(ss)[i])
    ensures ReceivedList(MESSAGE_SUMMARY, SummaryMsgs(ss)) == SummaryMsgs(ReceivedSummaries(ss))
    decreases |ss|
  {
    SummariesConform(ss);
    if ss == [] {
      assert SummaryMsgs([]) == [];
    } else {
      FirstSummary(ss[0]);
      SummariesReceived(ss[1..]);
      SummaryInFront(ss);
      SummaryInFront([ss[0]] + ReceivedSummaries(ss[1..]));
    }
  }

  lemma SummaryInFront(ss: seq<MessageSummary>)
    requires ss != []
    ensures SummaryMsgs(ss) == [SummaryMsg(ss[0])] + SummaryMsgs(ss[1..])
  {
  }

  lemma FirstSummary(s: MessageSummary)
    requires SummaryFits(s)
    ensures Conforms(MESSAGE_SUMMARY, SummaryMsg(s))
    ensures Clean(SummaryMsg(s)) <==> SummaryClean(s)
    ensures Received(MESSAGE_SUMMARY, SummaryMsg(s)) == SummaryMsg(ReceivedSummary(s))
  {
    SummaryClears(s);
    SummaryReceived(s);
  }

  lemma ListRespReceived(d: Desc, b: ResponseBody)
    requires d == QUERY_MESSAGE_LIST_RESPONSE && b.QueryMsgListResp? && Conforms(d, ResponseBodyMsg(b))
    requires forall i | 0 <= i < |b.messages| :: SummaryFits(b.messages[i])
    ensures Received(d, ResponseBodyMsg(b)) == ResponseBodyMsg(ReceivedResponseBody(b))
  {
    var m := ResponseBodyMsg(b);
    var r := Received(d, m);
    CleanNext(m, 0);
    CleanNext(m, 1);
    FlatReceived(d, m, 0);
    FlatReceived(d, m, 1);
    SummariesReceived(b.messages);
    assert r.vals[2] == ReceivedAt(d, m, 2);
    assert ReceivedValue(TRepeated(MESSAGE_SUMMARY), m.vals[2]) == Rep(SummaryMsgs(ReceivedSummaries(b.messages)));
    assert r.vals == [r.vals[0], r.vals[1], r.vals[2]];
  }

  lemma SendRespClears(b: ResponseBody)
    requires b.SendMsgResp?
    ensures var m := ResponseBodyMsg(b);
            && CleanUpTo(m, 0) && CleanUpTo(m, 1)
            && (CleanUpTo(m, 2) <==> ValidUtf8(b.message))
            && (CleanUpTo(m, 3) <==> ValidUtf8(b.message) && ValidUtf8(b.serverMessageId))
            && (CleanUpTo(m, 4) <==> ValidUtf8(b.message) && ValidUtf8(b.serverMessageId))
  {
    var m := ResponseBodyMsg(b);
    CleanNext(m, 0);
    CleanNext(m, 1);
    CleanNext(m, 2);
    CleanNext(m, 3);
  }

  lemma SendRespIsCut(b: ResponseBody)
    requires b.SendMsgResp?
    ensures IsCut(ResponseBodyMsg(b), ResponseBodyMsg(ReceivedResponseBody(b)))
  {
    SendRespClears(b);
  }

  lemma KeyRespClears(b: ResponseBody)
    requires b.KeyOpResp?
    ensures var m := ResponseBodyMsg(b);
            && CleanUpTo(m, 0) && CleanUpTo(m, 1)
            && (CleanUpTo(m, 2) <==> ValidUtf8(b.message)) && (CleanUpTo(m, 3) <==> ValidUtf8(b.message))
  {
    var m := ResponseBodyMsg(b);
    CleanNext(m, 0);
    CleanNext(m, 1);
    CleanNext(m, 2);
  }

  lemma KeyRespIsCut(b: ResponseBody)
    requires b.KeyOpResp?
    ensures IsCut(ResponseBodyMsg(b), ResponseBodyMsg(ReceivedResponseBody(b)))
  {
    KeyRespClears(b);
  }

  lemma Shifted(m: Message, s: Message, j: nat)
    requires j <= |s.vals| && |m.vals| == |s.vals| + 2 && m.vals[2..] == s.vals && m.vals[0].Int? && m.vals[1].Str?
    ensures CleanUpTo(m, j + 2) <==> ValidUtf8(m.vals[1].s) && CleanUpTo(s, j)
  {
    if CleanUpTo(m, j + 2) {
      assert CleanValue(m.vals[1]);
      forall k | 0 <= k < j
        ensures CleanValue(s.vals[k])
      {
        assert s.vals[k] == m.vals[k + 2];
      }
    }
    if ValidUtf8(m.vals[1].s) && CleanUpTo(s, j) {
      forall k | 0 <= k < j + 2
        ensures CleanValue(m.vals[k])
      {
        if k >= 2 { assert m.vals[k] == s.vals[k - 2]; }
      }
    }
  }

  /** The answer to a query is a code and a text in front of the fields of a summary. */
  lemma BehindText(m: Message, q: Message, s: Message, kept: Message, zeros: Message, j: nat)
    requires |m.vals| == |q.vals| == |s.vals| + 2 && |kept.vals| == |zeros.vals| == |s.vals| && j < |m.vals|
    requires m.vals[0].Int? && m.vals[1].Str? && m.vals[2..] == s.vals && q.vals[..2] == m.vals[..2]
    requires q.vals[2..] == if ValidUtf8(m.vals[1].s) then kept.vals else zeros.vals
    requires IsCut(s, kept) && forall i | 0 <= i < |s.vals| :: zeros.vals[i] == Zero(s.vals[i])
    ensures m.vals[j].Int? || m.vals[j].Str?
    ensures q.vals[j] == if CleanUpTo(m, j) then m.vals[j] else Zero(m.vals[j])
  {
    if j < 2 {
      assert CleanUpTo(m, j);
      assert q.vals[j] == q.vals[..2][j] && m.vals[j] == m.vals[..2][j];
    } else {
      Shifted(m, s, j - 2);
      assert m.vals[j] == s.vals[j - 2] && q.vals[j] == q.vals[2..][j - 2];
    }
  }

  lemma BehindTextIsCut(m: Message, q: Message, s: Message, kept: Message, zeros: Message)
    requires |m.vals| == |q.vals| == |s.vals| + 2 && |kept.vals| == |zeros.vals| == |s.vals|
    requires m.vals[0].Int? && m.vals[1].Str? && m.vals[2..] == s.vals && q.vals[..2] == m.vals[..2]
    requires q.vals[2..] == if ValidUtf8(m.vals[1].s) then kept.vals else zeros.vals
    requires IsCut(s, kept) && forall i | 0 <= i < |s.vals| :: zeros.vals[i] == Zero(s.vals[i])
    ensures IsCut(m, q)
  {
    forall j | 0 <= j < |m.vals|
      ensures (m.vals[j].Int? || m.vals[j].Str?) && q.vals[j] == if CleanUpTo(m, j) then m.vals[j] else Zero(m.vals[j])
    {
      BehindText(m, q, s, kept, zeros, j);
    }
  }

  lemma QueryRespParts(b: ResponseBody)
    requires b.QueryMsgResp?
    ensures var m, s := ResponseBodyMsg(b), SummaryMsg(b.summary);
            && |m.vals| == 9 && |s.vals| == 7 && m.vals[..2] == [Int(b.code), Str(b.message)]
            && m.vals[2..] == s.vals && m.vals[0].Int? && m.vals[1] == Str(b.message)
  {
  }

  lemma NoSummaryIsZero(s: MessageSummary)
    ensures var z, m := SummaryMsg(NO_SUMMARY), SummaryMsg(s);
            |z.vals| == |m.vals| && forall i | 0 <= i < |m.vals| :: z.vals[i] == Zero(m.vals[i])
  {
  }

  lemma QueryRespIsCut(b: ResponseBody)
    requires b.QueryMsgResp?
    ensures IsCut(ResponseBodyMsg(b), ResponseBodyMsg(ReceivedResponseBody(b)))
  {
    SummaryIsCut(b.summary);
    QueryRespParts(b);
    QueryRespParts(ReceivedResponseBody(b));
    NoSummaryIsZero(b.summary);
    BehindTextIsCut(ResponseBodyMsg(b), ResponseBodyMsg(ReceivedResponseBody(b)), SummaryMsg(b.summary),
                    SummaryMsg(ReceivedSummary(b.summary)), SummaryMsg(NO_SUMMARY));
  }

  lemma ResponseBodyReceived(b: ResponseBody)
    requires ResponseFits(ResponsePacket(None, b)) && !b.NoResponse?
    ensures var d := RESPONSE_PACKET.fields[ResponseCase(b)].ty.desc;
            Conforms(d, ResponseBodyMsg(b)) && Received(d, ResponseBodyMsg(b)) == ResponseBodyMsg(ReceivedResponseBody(b))
  {
    ResponseBodyConforms(ResponsePacket(None, b));
    var d := RESPONSE_PACKET.fields[ResponseCase(b)].ty.desc;
    if b.QueryMsgListResp? {
      ListRespReceived(d, b);
    } else {
      match b {
        case SendMsgResp(_, _, _, _, _) => SendRespIsCut(b);
        case QueryMsgResp(_, _, _) => QueryRespIsCut(b);
        case KeyOpResp(_, _, _, _) => KeyRespIsCut(b);
      }
      FlatIsReceived(d, ResponseBodyMsg(b), ResponseBodyMsg(ReceivedResponseBody(b)));
    }
  }

  lemma ResponseCaseReceived(p: ResponsePacket)
    ensures ReceivedResponse(p).body == if HeaderIsGone(p.header) then NoResponse else ReceivedResponseBody(p.body)
    ensures ResponseCase(ReceivedResponseBody(p.body)) == ResponseCase(p.body)
    ensures ReceivedResponse(p).header == match p.header case None => None case Some(x) => Some(ReceivedHeader(x))
  {
  }

  lemma ResponseReceived(p: ResponsePacket)
    requires ResponseFits(p)
    ensures Conforms(RESPONSE_PACKET, ResponseMsg(p))
    ensures Received(RESPONSE_PACKET, ResponseMsg(p)) == ResponseMsg(ReceivedResponse(p))
  {
    ResponseConforms(p);
    ResponseOk(p);
    ResponseForm(p);
    ResponseForm(ReceivedResponse(p));
    PacketReceived(RESPONSE_PACKET, 4, p.header, ResponseCase(p.body), ResponseBodyMsg(p.body));
    if !p.body.NoResponse? { ResponseBodyReceived(p.body); }
    ResponseCaseReceived(p);
    NothingThere(4, ReceivedResponse(p).header, ResponseBodyMsg(p.body), ResponseBodyMsg(NoResponse));
  }

  lemma {:induction false} SummariesFit(ss: seq<MessageSummary>)
    requires forall i | 0 <= i < |ss| :: SummaryFits(ss[i])
    ensures forall i | 0 <= i < |ReceivedSummaries(ss)| :: SummaryFits(ReceivedSummaries(ss)[i])
    decreases |ss|
  {
    if ss == [] {
    } else {
      SummariesFit(ss[1..]);
    }
  }

  lemma ReceivedResponseFits(p: ResponsePacket)
    requires ResponseFits(p)
    ensures ResponseFits(ReceivedResponse(p))
  {
    if p.body.QueryMsgListResp? { SummariesFit(p.body.messages); }
  }

  lemma ParsedResponse(p: ResponsePacket)
    requires ResponseFits(p) && ResponseSize(p) <= MAX_INT
    ensures Good(RESPONSE_PACKET)
    ensures Parse(RESPONSE_PACKET, Default(RESPONSE_PACKET), EncodeResponse(p))
            == Parsed(ResponseClean(p), ResponseMsg(ReceivedResponse(p)))
  {
    ResponseIsGood();
    ResponseReceived(p);
    WireProofs.RoundTrip(RESPONSE_PACKET, ResponseMsg(p));
  }

  /** What the client gets for any encoded response; of a list, the summaries up to the first that is refused. */
  lemma AnyResponseDecodes(p: ResponsePacket)
    requires ResponseFits(p) && ResponseSize(p) <= MAX_INT
    ensures DecodeResponse(EncodeResponse(p)) == (ResponseClean(p), ReceivedResponse(p))
  {
    ParsedResponse(p);
    ReceivedResponseFits(p);
    ResponseOfMsg(ReceivedResponse(p));
  }
}
