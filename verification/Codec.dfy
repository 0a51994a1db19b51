/**
  `V2RequestCodec` and `V2RespondCodec`: packets to bytes and back.
 */
module Codec {
  import opened Basics
  import opened WireFormat
  import WireProofs
  import opened Packets

  // ----- generated messages as packets ----------------------------------------------

  function HeaderOf(m: Message): Header
    requires Conforms(HEADER, m)
  {
    assert forall i | 0 <= i < 5 :: ValueOk(HEADER.fields[i].ty, m.vals[i]);
    Header(m.vals[0].s, m.vals[1].n, m.vals[2].s, m.vals[3].s, m.vals[4].n)
  }

  function EncryptedOf(m: Message): EncryptedMessage
    requires Conforms(ENCRYPTED_MESSAGE, m)
  {
    assert forall i | 0 <= i < 6 :: ValueOk(ENCRYPTED_MESSAGE.fields[i].ty, m.vals[i]);
    EncryptedMessage(m.vals[0].n, m.vals[1].n, m.vals[2].s, m.vals[3].s, m.vals[4].s, m.vals[5].s)
  }

  function SummaryOf(m: Message): MessageSummary
    requires Conforms(MESSAGE_SUMMARY, m)
  {
    assert forall i | 0 <= i < 7 :: ValueOk(MESSAGE_SUMMARY.fields[i].ty, m.vals[i]);
    MessageSummary(m.vals[0].s, m.vals[1].s, m.vals[2].s, m.vals[3].n, m.vals[4].s, m.vals[5].n, m.vals[6].n)
  }

  function SendBodyOf(m: Message): RequestBody
    requires Conforms(SEND_MESSAGE_REQUEST, m)
  {
    assert ValueOk(SEND_MESSAGE_REQUEST.fields[0].ty, m.vals[0]);
    SendMsgReq(match m.vals[0].m case None => None case Some(e) => Some(EncryptedOf(e)))
  }

  /** `body_case()` and the accessor of the member that is set. */
  function RequestBodyOf(m: Message): RequestBody
    requires Conforms(REQUEST_PACKET, m)
  {
    assert forall i | 0 <= i < 7 :: ValueOk(REQUEST_PACKET.fields[i].ty, m.vals[i]);
    if IsSet(m.vals[1]) then SendBodyOf(m.vals[1].m.value)
    else if IsSet(m.vals[2]) then
      var b := m.vals[2].m.value;
      assert ValueOk(TString, b.vals[0]);
      QueryMsgReq(b.vals[0].s)
    else if IsSet(m.vals[3]) then
      var b := m.vals[3].m.value;
      assert ValueOk(TString, b.vals[0]) && ValueOk(TInt32, b.vals[1]);
      QueryMsgListReq(b.vals[0].s, b.vals[1].n)
    else if IsSet(m.vals[4]) then
      var b := m.vals[4].m.value;
      assert ValueOk(TString, b.vals[0]) && ValueOk(TString, b.vals[1]);
      KeyAgreeReq(b.vals[0].s, b.vals[1].s)
    else if IsSet(m.vals[5]) then
      var b := m.vals[5].m.value;
      assert ValueOk(TInt32, b.vals[0]);
      KeyCheckReq(b.vals[0].n)
    else if IsSet(m.vals[6]) then
      var b := m.vals[6].m.value;
      assert ValueOk(TInt32, b.vals[0]);
      KeyLogoutReq(b.vals[0].n)
    else NoRequest
  }

  function RequestOf(m: Message): RequestPacket
    requires Conforms(REQUEST_PACKET, m)
  {
    assert ValueOk(REQUEST_PACKET.fields[0].ty, m.vals[0]);
    RequestPacket(match m.vals[0].m case None => None case Some(h) => Some(HeaderOf(h)), RequestBodyOf(m))
  }

  function SummariesOf(ms: seq<Message>): (ss: seq<MessageSummary>)
    requires forall i | 0 <= i < |ms| :: Conforms(MESSAGE_SUMMARY, ms[i])
    ensures |ss| == |ms| && forall i | 0 <= i < |ms| :: ss[i] == SummaryOf(ms[i])
  {
    seq(|ms|, i requires 0 <= i < |ms| => SummaryOf(ms[i]))
  }

  function SendRespOf(m: Message): ResponseBody
    requires Conforms(SEND_MESSAGE_RESPONSE, m)
  {
    assert forall i | 0 <= i < 5 :: ValueOk(SEND_MESSAGE_RESPONSE.fields[i].ty, m.vals[i]);
    SendMsgResp(m.vals[0].n, m.vals[1].s, m.vals[2].s, m.vals[3].n, m.vals[4].n)
  }

  function QueryRespOf(m: Message): ResponseBody
    requires Conforms(QUERY_MESSAGE_RESPONSE, m)
  {
    assert forall i | 0 <= i < 9 :: ValueOk(QUERY_MESSAGE_RESPONSE.fields[i].ty, m.vals[i]);
    QueryMsgResp(m.vals[0].n, m.vals[1].s,
      MessageSummary(m.vals[2].s, m.vals[3].s, m.vals[4].s, m.vals[5].n, m.vals[6].s, m.vals[7].n, m.vals[8].n))
  }

  function ListRespOf(m: Message): ResponseBody
    requires Conforms(QUERY_MESSAGE_LIST_RESPONSE, m)
  {
    assert forall i | 0 <= i < 3 :: ValueOk(QUERY_MESSAGE_LIST_RESPONSE.fields[i].ty, m.vals[i]);
    QueryMsgListResp(m.vals[0].n, m.vals[1].s, SummariesOf(m.vals[2].ms))
  }

  function KeyRespOf(m: Message): ResponseBody
    requires Conforms(KEY_OPERATION_RESPONSE, m)
  {
    assert forall i | 0 <= i < 4 :: ValueOk(KEY_OPERATION_RESPONSE.fields[i].ty, m.vals[i]);
    KeyOpResp(m.vals[0].n, m.vals[1].s, m.vals[2].n, m.vals[3].s)
  }

  function ResponseOf(m: Message): ResponsePacket
    requires Conforms(RESPONSE_PACKET, m)
  {
    assert forall i | 0 <= i < 5 :: ValueOk(RESPONSE_PACKET.fields[i].ty, m.vals[i]);
    ResponsePacket(match m.vals[0].m case None => None case Some(h) => Some(HeaderOf(h)),
      if IsSet(m.vals[1]) then SendRespOf(m.vals[1].m.value)
      else if IsSet(m.vals[2]) then QueryRespOf(m.vals[2].m.value)
      else if IsSet(m.vals[3]) then ListRespOf(m.vals[3].m.value)
      else if IsSet(m.vals[4]) then KeyRespOf(m.vals[4].m.value)
      else NoResponse)
  }

  lemma RequestOfMsg(p: RequestPacket)
    requires RequestFits(p)
    ensures Conforms(REQUEST_PACKET, RequestMsg(p)) && RequestOf(RequestMsg(p)) == p
  {
    RequestConforms(p);
  }

  lemma ResponseOfMsg(p: ResponsePacket)
    requires ResponseFits(p)
    ensures Conforms(RESPONSE_PACKET, ResponseMsg(p)) && ResponseOf(ResponseMsg(p)) == p
  {
    ResponseConforms(p);
    match p.body
    case QueryMsgListResp(_, _, ss) =>
      var ms := SummaryMsgs(ss);
      assert ResponseMsg(p).vals[3] == Sub(Some(ResponseBodyMsg(p.body)));
      forall i | 0 <= i < |ss|
        ensures Conforms(MESSAGE_SUMMARY, ms[i]) && SummaryOf(ms[i]) == ss[i]
      {
        SummaryConforms(ss[i]);
      }
      assert SummariesOf(ms) == ss;
    case _ =>
  }

  // ----- round trips --------------------------------------------------------------------

  /** Every string of the packet is valid UTF-8. */
  predicate RequestClean(p: RequestPacket) {
    Clean(RequestMsg(p))
  }

  predicate ResponseClean(p: ResponsePacket) {
    Clean(ResponseMsg(p))
  }

  function RequestSize(p: RequestPacket): nat
    requires RequestFits(p)
  {
    RequestConforms(p);
    ByteSize(REQUEST_PACKET, RequestMsg(p))
  }

  function ResponseSize(p: ResponsePacket): nat
    requires ResponseFits(p)
  {
    ResponseConforms(p);
    ByteSize(RESPONSE_PACKET, ResponseMsg(p))
  }

  function EncodeRequest(p: RequestPacket): seq<Byte>
    requires RequestFits(p)
  {
    RequestConforms(p);
    Serialize(REQUEST_PACKET, RequestMsg(p))
  }

  function EncodeResponse(p: ResponsePacket): seq<Byte>
    requires ResponseFits(p)
  {
    ResponseConforms(p);
    Serialize(RESPONSE_PACKET, ResponseMsg(p))
  }

  /** The parse of a request: whether it succeeded, and the packet either way. */
  function DecodeRequest(bs: seq<Byte>): (bool, RequestPacket) {
    RequestIsGood();
    var r := Parse(REQUEST_PACKET, Default(REQUEST_PACKET), bs);
    (r.ok, RequestOf(r.msg))
  }

  function DecodeResponse(bs: seq<Byte>): (bool, ResponsePacket) {
    ResponseIsGood();
    var r := Parse(RESPONSE_PACKET, Default(RESPONSE_PACKET), bs);
    (r.ok, ResponseOf(r.msg))
  }

  /** A request with valid strings comes back field by field; any other is refused. */
  lemma RequestRoundTrip(p: RequestPacket)
    requires RequestFits(p) && RequestSize(p) <= MAX_INT
    ensures |EncodeRequest(p)| == RequestSize(p)
    ensures RequestClean(p) ==> DecodeRequest(EncodeRequest(p)) == (true, p)
    ensures DecodeRequest(EncodeRequest(p)).0 <==> RequestClean(p)
  {
    RequestIsGood();
    RequestOfMsg(p);
    WireProofs.ByteSizeIsLength(REQUEST_PACKET, RequestMsg(p));
    WireProofs.RoundTrip(REQUEST_PACKET, RequestMsg(p));
  }

  lemma ResponseRoundTrip(p: ResponsePacket)
    requires ResponseFits(p) && ResponseSize(p) <= MAX_INT
    ensures |EncodeResponse(p)| == ResponseSize(p)
    ensures ResponseClean(p) ==> DecodeResponse(EncodeResponse(p)) == (true, p)
    ensures Conforms(RESPONSE_PACKET, ResponseMsg(p))
    ensures DecodeResponse(EncodeResponse(p))
            == (ResponseClean(p), ResponseOf(WireProofs.Received(RESPONSE_PACKET, ResponseMsg(p))))
  {
    ResponseIsGood();
    ResponseOfMsg(p);
    WireProofs.ByteSizeIsLength(RESPONSE_PACKET, ResponseMsg(p));
    WireProofs.RoundTrip(RESPONSE_PACKET, ResponseMsg(p));
  }

  /** Whatever bytes arrive, the numbers of the packet that is handed on fit their C++ fields. */
  lemma DecodedFits(bs: seq<Byte>)
    ensures RequestFits(DecodeRequest(bs).1) && ResponseFits(DecodeResponse(bs).1)
  {
    RequestIsGood();
    ResponseIsGood();
    RequestOfFits(Parse(REQUEST_PACKET, Default(REQUEST_PACKET), bs).msg);
    ResponseOfFits(Parse(RESPONSE_PACKET, Default(RESPONSE_PACKET), bs).msg);
  }

  lemma HeaderOfFits(m: Message)
    requires Conforms(HEADER, m)
    ensures HeaderFits(HeaderOf(m))
  {
    assert forall i | 0 <= i < 5 :: ValueOk(HEADER.fields[i].ty, m.vals[i]);
  }

  lemma EncryptedOfFits(m: Message)
    requires Conforms(ENCRYPTED_MESSAGE, m)
    ensures Int32(EncryptedOf(m).keyId) && Int32(EncryptedOf(m).msgType)
  {
    assert forall i | 0 <= i < 6 :: ValueOk(ENCRYPTED_MESSAGE.fields[i].ty, m.vals[i]);
  }

  lemma SendBodyOfFits(m: Message)
    requires Conforms(SEND_MESSAGE_REQUEST, m)
    ensures RequestFits(RequestPacket(None, SendBodyOf(m)))
  {
    assert ValueOk(SEND_MESSAGE_REQUEST.fields[0].ty, m.vals[0]);
    if m.vals[0].m.Some? { EncryptedOfFits(m.vals[0].m.value); }
  }

  /** The numbers of the other bodies. */
  lemma IdsFit(m: Message)
    ensures Conforms(QUERY_MESSAGE_LIST_REQUEST, m) ==> |m.vals| == 2 && m.vals[1].Int? && Int32(m.vals[1].n)
    ensures Conforms(KEY_CHECK_REQUEST, m) ==> |m.vals| == 1 && m.vals[0].Int? && Int32(m.vals[0].n)
    ensures Conforms(KEY_LOGOUT_REQUEST, m) ==> |m.vals| == 1 && m.vals[0].Int? && Int32(m.vals[0].n)
  {
    if Conforms(QUERY_MESSAGE_LIST_REQUEST, m) {
      assert ValueOk(QUERY_MESSAGE_LIST_REQUEST.fields[1].ty, m.vals[1]);
    }
    if Conforms(KEY_CHECK_REQUEST, m) {
      assert ValueOk(KEY_CHECK_REQUEST.fields[0].ty, m.vals[0]);
    }
    if Conforms(KEY_LOGOUT_REQUEST, m) {
      assert ValueOk(KEY_LOGOUT_REQUEST.fields[0].ty, m.vals[0]);
    }
  }

  lemma RequestBodyOfFits(m: Message)
    requires Conforms(REQUEST_PACKET, m)
    ensures RequestFits(RequestPacket(None, RequestBodyOf(m)))
  {
    assert forall i | 0 <= i < 7 :: ValueOk(REQUEST_PACKET.fields[i].ty, m.vals[i]);
    if IsSet(m.vals[1]) {
      SendBodyOfFits(m.vals[1].m.value);
    } else {
      if IsSet(m.vals[3]) { IdsFit(m.vals[3].m.value); }
      if IsSet(m.vals[5]) { IdsFit(m.vals[5].m.value); }
      if IsSet(m.vals[6]) { IdsFit(m.vals[6].m.value); }
    }
  }

  lemma RequestOfFits(m: Message)
    requires Conforms(REQUEST_PACKET, m)
    ensures RequestFits(RequestOf(m))
  {
    assert ValueOk(REQUEST_PACKET.fields[0].ty, m.vals[0]);
    if IsSet(m.vals[0]) { HeaderOfFits(m.vals[0].m.value); }
    RequestBodyOfFits(m);
  }

  lemma SummaryOfFits(m: Message)
    requires Conforms(MESSAGE_SUMMARY, m)
    ensures SummaryFits(SummaryOf(m))
  {
    assert forall i | 0 <= i < 7 :: ValueOk(MESSAGE_SUMMARY.fields[i].ty, m.vals[i]);
  }

  lemma ListRespOfFits(m: Message)
    requires Conforms(QUERY_MESSAGE_LIST_RESPONSE, m)
    ensures ResponseFits(ResponsePacket(None, ListRespOf(m)))
  {
    assert forall i | 0 <= i < 3 :: ValueOk(QUERY_MESSAGE_LIST_RESPONSE.fields[i].ty, m.vals[i]);
    forall i | 0 <= i < |m.vals[2].ms|
      ensures SummaryFits(SummaryOf(m.vals[2].ms[i]))
    {
      SummaryOfFits(m.vals[2].ms[i]);
    }
  }

  lemma QueryRespOfFits(m: Message)
    requires Conforms(QUERY_MESSAGE_RESPONSE, m)
    ensures ResponseFits(ResponsePacket(None, QueryRespOf(m)))
  {
    assert forall i | 0 <= i < 9 :: ValueOk(QUERY_MESSAGE_RESPONSE.fields[i].ty, m.vals[i]);
  }

  lemma FlatRespOfFits(m: Message)
    ensures Conforms(SEND_MESSAGE_RESPONSE, m) ==> ResponseFits(ResponsePacket(None, SendRespOf(m)))
    ensures Conforms(KEY_OPERATION_RESPONSE, m) ==> ResponseFits(ResponsePacket(None, KeyRespOf(m)))
  {
    if Conforms(SEND_MESSAGE_RESPONSE, m) {
      assert forall i | 0 <= i < 5 :: ValueOk(SEND_MESSAGE_RESPONSE.fields[i].ty, m.vals[i]);
    }
    if Conforms(KEY_OPERATION_RESPONSE, m) {
      assert forall i | 0 <= i < 4 :: ValueOk(KEY_OPERATION_RESPONSE.fields[i].ty, m.vals[i]);
    }
  }

  lemma ResponseOfFits(m: Message)
    requires Conforms(RESPONSE_PACKET, m)
    ensures ResponseFits(ResponseOf(m))
  {
    assert forall i | 0 <= i < 5 :: ValueOk(RESPONSE_PACKET.fields[i].ty, m.vals[i]);
    if IsSet(m.vals[0]) { HeaderOfFits(m.vals[0].m.value); }
    if IsSet(m.vals[1]) {
      FlatRespOfFits(m.vals[1].m.value);
    } else if IsSet(m.vals[2]) {
      QueryRespOfFits(m.vals[2].m.value);
    } else if IsSet(m.vals[3]) {
      ListRespOfFits(m.vals[3].m.value);
    } else if IsSet(m.vals[4]) {
      FlatRespOfFits(m.vals[4].m.value);
    }
  }

  // ----- MergeFrom of packets ----------------------------------------------

  function Pick(into: Text, from: Text): Text {
    if |from| > 0 then from else into
  }

  function PickInt(into: int, from: int): int {
    if from != 0 then from else into
  }

  function MergeHeader(a: Header, b: Header): Header {
    Header(Pick(a.messageId, b.messageId), PickInt(a.command, b.command), Pick(a.senderId, b.senderId),
           Pick(a.receiverId, b.receiverId), PickInt(a.timestamp, b.timestamp))
  }

  function MergeEncrypted(a: EncryptedMessage, b: EncryptedMessage): EncryptedMessage {
    EncryptedMessage(PickInt(a.keyId, b.keyId), PickInt(a.msgType, b.msgType), Pick(a.ciphertext, b.ciphertext),
                     Pick(a.nonce, b.nonce), Pick(a.tag, b.tag), Pick(a.algorithm, b.algorithm))
  }

  const NO_HEADER := Header([], 0, [], [], 0)
  const NO_MESSAGE := EncryptedMessage(0, 0, [], [], [], [])

  /** The same case merges field by field; another case replaces; no case keeps. */
  function MergeBody(a: RequestBody, b: RequestBody): RequestBody {
    match (a, b)
    case (_, NoRequest) => a
    case (SendMsgReq(x), SendMsgReq(Some(y))) =>
      SendMsgReq(Some(MergeEncrypted(if x.Some? then x.value else NO_MESSAGE, y)))
    case (SendMsgReq(_), SendMsgReq(None)) => a
    case (QueryMsgReq(x), QueryMsgReq(y)) => QueryMsgReq(Pick(x, y))
    case (QueryMsgListReq(x, m), QueryMsgListReq(y, n)) => QueryMsgListReq(Pick(x, y), PickInt(m, n))
    case (KeyAgreeReq(x, s), KeyAgreeReq(y, t)) => KeyAgreeReq(Pick(x, y), Pick(s, t))
    case (KeyCheckReq(m), KeyCheckReq(n)) => KeyCheckReq(PickInt(m, n))
    case (KeyLogoutReq(m), KeyLogoutReq(n)) => KeyLogoutReq(PickInt(m, n))
    case (_, _) => b
  }

  function MergeRequest(a: RequestPacket, b: RequestPacket): RequestPacket {
    RequestPacket(MergeHeaders(a.header, b.header), MergeBody(a.body, b.body))
  }

  lemma MergeWithoutBody(d: Desc, a: Message, b: Message)
    requires Good(d) && Conforms(d, a) && Conforms(d, b)
    requires forall j | 0 <= j < |d.fields| :: !d.fields[j].inBody
    ensures forall j | 0 <= j < |b.vals| ::
              var ty := d.fields[j].ty;
              GoodType(ty) && ValueOk(ty, a.vals[j]) && ValueOk(ty, b.vals[j])
              && Merge(d, a, b).vals[j] == MergeValue(ty, a.vals[j], b.vals[j])
  {
    forall j | 0 <= j < |b.vals|
      ensures var ty := d.fields[j].ty;
              GoodType(ty) && ValueOk(ty, a.vals[j]) && ValueOk(ty, b.vals[j])
              && Merge(d, a, b).vals[j] == MergeValue(ty, a.vals[j], b.vals[j])
    {
      assert Merge(d, a, b).vals[j] == MergedAt(d, a, b, |b.vals|, j);
    }
  }

  lemma HeaderMerge(a: Header, b: Header)
    requires HeaderFits(a) && HeaderFits(b)
    ensures Good(HEADER) && Conforms(HEADER, HeaderMsg(a)) && Conforms(HEADER, HeaderMsg(b))
    ensures Merge(HEADER, HeaderMsg(a), HeaderMsg(b)) == HeaderMsg(MergeHeader(a, b))
  {
    FlatIsGood(HEADER);
    HeaderConforms(a);
    HeaderConforms(b);
    var m, q := Merge(HEADER, HeaderMsg(a), HeaderMsg(b)), HeaderMsg(MergeHeader(a, b));
    forall j | 0 <= j < 5
      ensures m.vals[j] == q.vals[j]
    {
      HeaderPartMerge(a, b, j);
    }
    assert m.vals == q.vals;
  }

  lemma HeaderPartMerge(a: Header, b: Header, j: nat)
    requires Good(HEADER) && Conforms(HEADER, HeaderMsg(a)) && Conforms(HEADER, HeaderMsg(b)) && j < 5
    ensures Merge(HEADER, HeaderMsg(a), HeaderMsg(b)).vals[j] == HeaderMsg(MergeHeader(a, b)).vals[j]
  {
    MergeWithoutBody(HEADER, HeaderMsg(a), HeaderMsg(b));
  }

  lemma EncryptedMerge(a: EncryptedMessage, b: EncryptedMessage)
    requires Int32(a.keyId) && Int32(a.msgType) && Int32(b.keyId) && Int32(b.msgType)
    ensures Good(ENCRYPTED_MESSAGE)
    ensures Conforms(ENCRYPTED_MESSAGE, EncryptedMsg(a)) && Conforms(ENCRYPTED_MESSAGE, EncryptedMsg(b))
    ensures Merge(ENCRYPTED_MESSAGE, EncryptedMsg(a), EncryptedMsg(b)) == EncryptedMsg(MergeEncrypted(a, b))
  {
    FlatIsGood(ENCRYPTED_MESSAGE);
    EncryptedConforms(a);
    EncryptedConforms(b);
    var m := Merge(ENCRYPTED_MESSAGE, EncryptedMsg(a), EncryptedMsg(b));
    MergeWithoutBody(ENCRYPTED_MESSAGE, EncryptedMsg(a), EncryptedMsg(b));
    assert m.vals == [m.vals[0], m.vals[1], m.vals[2], m.vals[3], m.vals[4], m.vals[5]];
  }

  /** Two bodies of the same case. */
  lemma SameCaseMerge(a: RequestBody, b: RequestBody)
    requires RequestFits(RequestPacket(None, a)) && RequestFits(RequestPacket(None, b))
    requires RequestCase(a) == RequestCase(b) && !a.NoRequest?
    ensures RequestCase(MergeBody(a, b)) == RequestCase(a)
    ensures var d := REQUEST_PACKET.fields[RequestCase(a)].ty.desc;
            && Good(d) && Conforms(d, RequestBodyMsg(a)) && Conforms(d, RequestBodyMsg(b))
            && Merge(d, RequestBodyMsg(a), RequestBodyMsg(b)) == RequestBodyMsg(MergeBody(a, b))
  {
    RequestIsGood();
    RequestBodyConforms(RequestPacket(None, a));
    RequestBodyConforms(RequestPacket(None, b));
    var d := REQUEST_PACKET.fields[RequestCase(a)].ty.desc;
    assert GoodType(REQUEST_PACKET.fields[RequestCase(a)].ty);
    if a.SendMsgReq? {
      SendBodyMerge(a.message, b.message);
    } else {
      MergeWithoutBody(d, RequestBodyMsg(a), RequestBodyMsg(b));
    }
  }

  lemma SendBodyMerge(a: Option<EncryptedMessage>, b: Option<EncryptedMessage>)
    requires RequestFits(RequestPacket(None, SendMsgReq(a))) && RequestFits(RequestPacket(None, SendMsgReq(b)))
    ensures var d, x, y := SEND_MESSAGE_REQUEST, RequestBodyMsg(SendMsgReq(a)), RequestBodyMsg(SendMsgReq(b));
            && Good(d) && Conforms(d, x) && Conforms(d, y)
            && Merge(d, x, y) == RequestBodyMsg(MergeBody(SendMsgReq(a), SendMsgReq(b)))
  {
    var d, x, y := SEND_MESSAGE_REQUEST, RequestBodyMsg(SendMsgReq(a)), RequestBodyMsg(SendMsgReq(b));
    SendBodyFacts(a);
    SendBodyFacts(b);
    MergeWithoutBody(d, x, y);
    if b.Some? {
      MutableMessage(a);
      EncryptedMerge(if a.Some? then a.value else NO_MESSAGE, b.value);
    }
    assert Merge(d, x, y).vals == [Merge(d, x, y).vals[0]];
  }

  lemma MutableMessage(a: Option<EncryptedMessage>)
    requires RequestFits(RequestPacket(None, SendMsgReq(a)))
    ensures ValueOk(TMessage(ENCRYPTED_MESSAGE), RequestBodyMsg(SendMsgReq(a)).vals[0])
    ensures Mutable(ENCRYPTED_MESSAGE, RequestBodyMsg(SendMsgReq(a)).vals[0])
            == EncryptedMsg(if a.Some? then a.value else NO_MESSAGE)
  {
    SendBodyFacts(a);
    assert Default(ENCRYPTED_MESSAGE) == EncryptedMsg(NO_MESSAGE);
  }

  lemma SendBodyFacts(a: Option<EncryptedMessage>)
    requires RequestFits(RequestPacket(None, SendMsgReq(a)))
    ensures Good(SEND_MESSAGE_REQUEST) && Conforms(SEND_MESSAGE_REQUEST, RequestBodyMsg(SendMsgReq(a)))
    ensures GoodType(TMessage(ENCRYPTED_MESSAGE))
    ensures ValueOk(TMessage(ENCRYPTED_MESSAGE), RequestBodyMsg(SendMsgReq(a)).vals[0])
  {
    FlatIsGood(ENCRYPTED_MESSAGE);
    if a.Some? { EncryptedConforms(a.value); }
  }

  // ----- either packet: a header and at most one of `n` bodies ------------------------------

  function PacketMsg(n: nat, h: Option<Header>, c: nat, m: Message): (p: Message)
    ensures |p.vals| == n + 1 && p.vals[0] == HeaderVal(h)
    ensures forall j | 1 <= j <= n :: p.vals[j] == BodyVal(c == j, m)
  {
    Message([HeaderVal(h)] + seq(n, i => BodyVal(c == i + 1, m)))
  }

  lemma RequestForm(p: RequestPacket)
    ensures RequestMsg(p) == PacketMsg(6, p.header, RequestCase(p.body), RequestBodyMsg(p.body))
  {
  }

  lemma ResponseForm(p: ResponsePacket)
    ensures ResponseMsg(p) == PacketMsg(4, p.header, ResponseCase(p.body), ResponseBodyMsg(p.body))
  {
  }

  predicate PacketDesc(d: Desc, n: nat) {
    && Good(d) && |d.fields| == n + 1 && d.fields[0] == Field(1, TMessage(HEADER), false)
    && forall j | 1 <= j <= n :: d.fields[j].inBody && d.fields[j].ty.TMessage?
  }

  /** A packet of the description: its header fits, and its body, if there is one, has the form of its case. */
  ghost predicate PacketOk(d: Desc, n: nat, h: Option<Header>, c: nat, m: Message) {
    && PacketDesc(d, n) && c <= n && Conforms(d, PacketMsg(n, h, c, m))
    && (h.Some? ==> HeaderFits(h.value)) && (c != 0 ==> Conforms(d.fields[c].ty.desc, m))
  }

  lemma RequestOk(p: RequestPacket)
    requires RequestFits(p)
    ensures PacketOk(REQUEST_PACKET, 6, p.header, RequestCase(p.body), RequestBodyMsg(p.body))
  {
    RequestIsGood();
    RequestConforms(p);
    RequestForm(p);
    if !p.body.NoRequest? { RequestBodyConforms(p); }
  }

  lemma ResponseOk(p: ResponsePacket)
    requires ResponseFits(p)
    ensures PacketOk(RESPONSE_PACKET, 4, p.header, ResponseCase(p.body), ResponseBodyMsg(p.body))
  {
    ResponseIsGood();
    ResponseConforms(p);
    ResponseForm(p);
    if !p.body.NoResponse? { ResponseBodyConforms(p); }
  }

  function MergeHeaders(a: Option<Header>, b: Option<Header>): Option<Header> {
    if b.None? then a else Some(MergeHeader(if a.Some? then a.value else NO_HEADER, b.value))
  }

  lemma HeaderFieldMerge(d: Desc, a: Message, b: Message, x: Option<Header>, y: Option<Header>)
    requires Good(d) && Conforms(d, a) && Conforms(d, b) && |d.fields| > 0 && d.fields[0] == Field(1, TMessage(HEADER), false)
    requires a.vals[0] == HeaderVal(x) && b.vals[0] == HeaderVal(y)
    requires (x.Some? ==> HeaderFits(x.value)) && (y.Some? ==> HeaderFits(y.value))
    ensures MergedAt(d, a, b, |b.vals|, 0) == HeaderVal(MergeHeaders(x, y))
  {
    if y.Some? {
      HeaderMerge(if x.Some? then x.value else NO_HEADER, y.value);
    }
    assert Default(HEADER) == HeaderMsg(NO_HEADER);
    assert ValueOk(TMessage(HEADER), a.vals[0]) && ValueOk(TMessage(HEADER), b.vals[0]);
  }

  /** What the merge leaves in body member `j`. */
  lemma BodyFieldAt(d: Desc, a: Message, b: Message, j: nat)
    requires Good(d) && Conforms(d, a) && Conforms(d, b) && j < |d.fields| && d.fields[j].inBody
    ensures var ty := d.fields[j].ty;
            && ty.TMessage? && Good(ty.desc) && ValueOk(ty, a.vals[j]) && ValueOk(ty, b.vals[j])
            && (OtherBody(d, b, |b.vals|, j) ==> MergedAt(d, a, b, |b.vals|, j) == Sub(None))
            && (!OtherBody(d, b, |b.vals|, j) && !IsSet(b.vals[j]) ==> MergedAt(d, a, b, |b.vals|, j) == a.vals[j])
            && (IsSet(b.vals[j]) ==>
                  Conforms(ty.desc, b.vals[j].m.value)
                  && MergedAt(d, a, b, |b.vals|, j) ==
                     Sub(Some(Merge(ty.desc, Mutable(ty.desc, a.vals[j]), b.vals[j].m.value))))
  {
    assert GoodType(d.fields[j].ty) && ValueOk(d.fields[j].ty, a.vals[j]) && ValueOk(d.fields[j].ty, b.vals[j]);
    if IsSet(b.vals[j]) {
      assert !OtherBody(d, b, |b.vals|, j);
    }
  }

  lemma OtherBodySet(d: Desc, n: nat, h: Option<Header>, c: nat, m: Message, j: nat)
    requires PacketOk(d, n, h, c, m) && 1 <= j <= n
    ensures OtherBody(d, PacketMsg(n, h, c, m), n + 1, j) <==> c !in {0, j}
  {
    var p := PacketMsg(n, h, c, m);
    if c !in {0, j} {
      assert IsSet(p.vals[c]) && d.fields[c].inBody;
    }
    if k :| 0 <= k < n + 1 && k != j && d.fields[k].inBody && IsSet(p.vals[k]) {
      assert 1 <= k <= n && k == c;
    }
  }

  /** The body after a merge: none keeps, the same case merges, another case replaces. */
  function MergedBodyMsg(d: Desc, ca: nat, ma: Message, cb: nat, mb: Message): Message
    requires cb < |d.fields| && (cb != 0 ==> d.fields[cb].ty.TMessage? && Good(d.fields[cb].ty.desc))
    requires cb != 0 ==> Conforms(d.fields[cb].ty.desc, mb) && (ca == cb ==> Conforms(d.fields[cb].ty.desc, ma))
  {
    if cb == 0 then ma else if ca == cb then Merge(d.fields[cb].ty.desc, ma, mb) else mb
  }

  lemma BodyFieldMerge(d: Desc, n: nat, ha: Option<Header>, ca: nat, ma: Message,
                       hb: Option<Header>, cb: nat, mb: Message, j: nat)
    requires PacketOk(d, n, ha, ca, ma) && PacketOk(d, n, hb, cb, mb) && 1 <= j <= n
    requires cb != 0 ==> Good(d.fields[cb].ty.desc)
    ensures MergedAt(d, PacketMsg(n, ha, ca, ma), PacketMsg(n, hb, cb, mb), n + 1, j)
            == BodyVal((if cb == 0 then ca else cb) == j, MergedBodyMsg(d, ca, ma, cb, mb))
  {
    BodyFieldAt(d, PacketMsg(n, ha, ca, ma), PacketMsg(n, hb, cb, mb), j);
    OtherBodySet(d, n, hb, cb, mb, j);
    if cb == j && ca != j {
      WireProofs.MergeIntoDefault(d.fields[j].ty.desc, mb);
    }
  }

  /** `MergeFrom` of either packet. */
  lemma PacketMerge(d: Desc, n: nat, ha: Option<Header>, ca: nat, ma: Message, hb: Option<Header>, cb: nat, mb: Message)
    requires PacketOk(d, n, ha, ca, ma) && PacketOk(d, n, hb, cb, mb)
    ensures cb != 0 ==> Good(d.fields[cb].ty.desc)
    ensures Merge(d, PacketMsg(n, ha, ca, ma), PacketMsg(n, hb, cb, mb))
            == PacketMsg(n, MergeHeaders(ha, hb), if cb == 0 then ca else cb, MergedBodyMsg(d, ca, ma, cb, mb))
  {
    assert GoodType(d.fields[cb].ty);
    var a, b := PacketMsg(n, ha, ca, ma), PacketMsg(n, hb, cb, mb);
    var m := Merge(d, a, b);
    var q := PacketMsg(n, MergeHeaders(ha, hb), if cb == 0 then ca else cb, MergedBodyMsg(d, ca, ma, cb, mb));
    forall j | 0 <= j < n + 1
      ensures m.vals[j] == q.vals[j]
    {
      assert m.vals[j] == MergedAt(d, a, b, n + 1, j);
      if j == 0 { HeaderFieldMerge(d, a, b, ha, hb); } else { BodyFieldMerge(d, n, ha, ca, ma, hb, cb, mb, j); }
    }
    assert m.vals == q.vals;
  }

  // ----- the requests ---------------------------------------------------------------------

  /** The generated `RequestPacket::MergeFrom` is the packet merge. */
  lemma MergeIsTyped(a: RequestPacket, b: RequestPacket)
    requires RequestFits(a) && RequestFits(b)
    ensures Good(REQUEST_PACKET)
    ensures Conforms(REQUEST_PACKET, RequestMsg(a)) && Conforms(REQUEST_PACKET, RequestMsg(b))
    ensures Merge(REQUEST_PACKET, RequestMsg(a), RequestMsg(b)) == RequestMsg(MergeRequest(a, b))
  {
    RequestOk(a);
    RequestOk(b);
    RequestForm(a);
    RequestForm(b);
    RequestForm(MergeRequest(a, b));
    PacketMerge(REQUEST_PACKET, 6, a.header, RequestCase(a.body), RequestBodyMsg(a.body),
                b.header, RequestCase(b.body), RequestBodyMsg(b.body));
    BodyMerge(a.body, b.body);
  }

  lemma BodyMerge(a: RequestBody, b: RequestBody)
    requires RequestFits(RequestPacket(None, a)) && RequestFits(RequestPacket(None, b))
    ensures RequestCase(MergeBody(a, b)) == if b.NoRequest? then RequestCase(a) else RequestCase(b)
    ensures b.NoRequest? ==> MergeBody(a, b) == a
    ensures !b.NoRequest? && RequestCase(a) != RequestCase(b) ==> MergeBody(a, b) == b
    ensures var c := RequestCase(b);
            var d := REQUEST_PACKET.fields[c].ty.desc;
            c != 0 && RequestCase(a) == c ==>
              && Good(d) && Conforms(d, RequestBodyMsg(a)) && Conforms(d, RequestBodyMsg(b))
              && Merge(d, RequestBodyMsg(a), RequestBodyMsg(b)) == RequestBodyMsg(MergeBody(a, b))
  {
    if !b.NoRequest? && RequestCase(a) == RequestCase(b) {
      SameCaseMerge(a, b);
    }
  }

  /** Two encoded requests one after the other decode to the second merged into the first. */
  lemma RequestConcatenation(a: RequestPacket, b: RequestPacket)
    requires RequestFits(a) && RequestFits(b) && RequestClean(a) && RequestClean(b)
    requires RequestSize(a) <= MAX_INT && RequestSize(b) <= MAX_INT
    ensures DecodeRequest(EncodeRequest(a) + EncodeRequest(b)) == (true, MergeRequest(a, b))
  {
    MergeIsTyped(a, b);
    ConcatenatedMessages(a, b);
    MergeFits(a, b);
    RequestOfMsg(MergeRequest(a, b));
  }

  lemma ConcatenatedMessages(a: RequestPacket, b: RequestPacket)
    requires RequestFits(a) && RequestFits(b) && RequestClean(a) && RequestClean(b)
    requires RequestSize(a) <= MAX_INT && RequestSize(b) <= MAX_INT
    ensures Good(REQUEST_PACKET) && Conforms(REQUEST_PACKET, RequestMsg(a)) && Conforms(REQUEST_PACKET, RequestMsg(b))
    ensures Parse(REQUEST_PACKET, Default(REQUEST_PACKET), EncodeRequest(a) + EncodeRequest(b))
            == Parsed(true, Merge(REQUEST_PACKET, RequestMsg(a), RequestMsg(b)))
  {
    RequestIsGood();
    RequestConforms(a);
    RequestConforms(b);
    WireProofs.ParseConcatenation(REQUEST_PACKET, RequestMsg(a), RequestMsg(b));
  }

  lemma MergeFits(a: RequestPacket, b: RequestPacket)
    requires RequestFits(a) && RequestFits(b)
    ensures RequestFits(MergeRequest(a, b))
  {
  }

  // ----- the responses --------------------------------------------------------------------

  function MergeSummary(a: MessageSummary, b: MessageSummary): MessageSummary {
    MessageSummary(Pick(a.serverMessageId, b.serverMessageId), Pick(a.senderId, b.senderId), Pick(a.receiverId, b.receiverId),
                   PickInt(a.keyId, b.keyId), Pick(a.msgType, b.msgType), PickInt(a.sendTime, b.sendTime),
                   PickInt(a.status, b.status))
  }

  /** As for requests; the summaries of two lists are put one after the other. */
  function MergeResponseBody(a: ResponseBody, b: ResponseBody): ResponseBody {
    match (a, b)
    case (_, NoResponse) => a
    case (SendMsgResp(c1, m1, i1, t1, s1), SendMsgResp(c2, m2, i2, t2, s2)) =>
      SendMsgResp(PickInt(c1, c2), Pick(m1, m2), Pick(i1, i2), PickInt(t1, t2), PickInt(s1, s2))
    case (QueryMsgResp(c1, m1, x), QueryMsgResp(c2, m2, y)) =>
      QueryMsgResp(PickInt(c1, c2), Pick(m1, m2), MergeSummary(x, y))
    case (QueryMsgListResp(c1, m1, xs), QueryMsgListResp(c2, m2, ys)) =>
      QueryMsgListResp(PickInt(c1, c2), Pick(m1, m2), xs + ys)
    case (KeyOpResp(c1, m1, k1, d1), KeyOpResp(c2, m2, k2, d2)) =>
      KeyOpResp(PickInt(c1, c2), Pick(m1, m2), PickInt(k1, k2), Pick(d1, d2))
    case (_, _) => b
  }

  function MergeResponse(a: ResponsePacket, b: ResponsePacket): ResponsePacket {
    ResponsePacket(MergeHeaders(a.header, b.header), MergeResponseBody(a.body, b.body))
  }

  function PickValue(into: Value, from: Value): Value {
    match from
    case Int(n) => if n != 0 then from else into
    case Str(s) => if |s| > 0 then from else into
    case _ => from
  }

  predicate AllScalars(m: Message) {
    forall j | 0 <= j < |m.vals| :: m.vals[j].Int? || m.vals[j].Str?
  }

  /** Messages of scalar fields: what is not zero or empty overwrites. */
  lemma FlatMerge(d: Desc, a: Message, b: Message, q: Message)
    requires Good(d) && Conforms(d, a) && Conforms(d, b) && AllScalars(b)
    requires forall j | 0 <= j < |d.fields| :: !d.fields[j].inBody
    requires |q.vals| == |a.vals| == |b.vals| && forall j | 0 <= j < |a.vals| :: q.vals[j] == PickValue(a.vals[j], b.vals[j])
    ensures Merge(d, a, b) == q
  {
    MergeWithoutBody(d, a, b);
    var m := Merge(d, a, b);
    forall j | 0 <= j < |a.vals|
      ensures m.vals[j] == q.vals[j]
    {
      assert m.vals[j] == MergeValue(d.fields[j].ty, a.vals[j], b.vals[j]);
    }
    assert m.vals == q.vals;
  }

  lemma FlatPicks(a: ResponseBody, b: ResponseBody)
    requires ResponseCase(a) == ResponseCase(b) && !a.NoResponse? && !a.QueryMsgListResp?
    ensures var x, y, q := ResponseBodyMsg(a), ResponseBodyMsg(b), ResponseBodyMsg(MergeResponseBody(a, b));
            && AllScalars(y) && |q.vals| == |x.vals| == |y.vals|
            && forall j | 0 <= j < |x.vals| :: q.vals[j] == PickValue(x.vals[j], y.vals[j])
  {
  }

  lemma ListBodyMerge(d: Desc, a: ResponseBody, b: ResponseBody)
    requires d == QUERY_MESSAGE_LIST_RESPONSE && a.QueryMsgListResp? && b.QueryMsgListResp?
    requires Good(d) && Conforms(d, ResponseBodyMsg(a)) && Conforms(d, ResponseBodyMsg(b))
    ensures Merge(d, ResponseBodyMsg(a), ResponseBodyMsg(b)) == ResponseBodyMsg(MergeResponseBody(a, b))
  {
    MergeWithoutBody(d, ResponseBodyMsg(a), ResponseBodyMsg(b));
    var m := Merge(d, ResponseBodyMsg(a), ResponseBodyMsg(b));
    assert SummaryMsgs(a.messages) + SummaryMsgs(b.messages) == SummaryMsgs(a.messages + b.messages);
    assert m.vals == [m.vals[0], m.vals[1], m.vals[2]];
  }

  lemma SameResponseMerge(a: ResponseBody, b: ResponseBody)
    requires ResponseFits(ResponsePacket(None, a)) && ResponseFits(ResponsePacket(None, b))
    requires ResponseCase(a) == ResponseCase(b) && !a.NoResponse?
    ensures ResponseCase(MergeResponseBody(a, b)) == ResponseCase(a)
    ensures var d := RESPONSE_PACKET.fields[ResponseCase(a)].ty.desc;
            && Good(d) && Conforms(d, ResponseBodyMsg(a)) && Conforms(d, ResponseBodyMsg(b))
            && Merge(d, ResponseBodyMsg(a), ResponseBodyMsg(b)) == ResponseBodyMsg(MergeResponseBody(a, b))
  {
    ResponseIsGood();
    ResponseBodyConforms(ResponsePacket(None, a));
    ResponseBodyConforms(ResponsePacket(None, b));
    var d := RESPONSE_PACKET.fields[ResponseCase(a)].ty.desc;
    assert GoodType(RESPONSE_PACKET.fields[ResponseCase(a)].ty);
    if a.QueryMsgListResp? {
      ListBodyMerge(d, a, b);
    } else {
      FlatPicks(a, b);
      FlatMerge(d, ResponseBodyMsg(a), ResponseBodyMsg(b), ResponseBodyMsg(MergeResponseBody(a, b)));
    }
  }

  lemma ResponseBodyMerge(a: ResponseBody, b: ResponseBody)
    requires ResponseFits(ResponsePacket(None, a)) && ResponseFits(ResponsePacket(None, b))
    ensures ResponseCase(MergeResponseBody(a, b)) == if b.NoResponse? then ResponseCase(a) else ResponseCase(b)
    ensures b.NoResponse? ==> MergeResponseBody(a, b) == a
    ensures !b.NoResponse? && ResponseCase(a) != ResponseCase(b) ==> MergeResponseBody(a, b) == b
    ensures var c := ResponseCase(b);
            var d := RESPONSE_PACKET.fields[c].ty.desc;
            c != 0 && ResponseCase(a) == c ==>
              && Good(d) && Conforms(d, ResponseBodyMsg(a)) && Conforms(d, ResponseBodyMsg(b))
              && Merge(d, ResponseBodyMsg(a), ResponseBodyMsg(b)) == ResponseBodyMsg(MergeResponseBody(a, b))
  {
    if !b.NoResponse? && ResponseCase(a) == ResponseCase(b) {
      SameResponseMerge(a, b);
    }
  }

  /** The generated `ResponsePacket::MergeFrom` is the packet merge. */
  lemma ResponseMergeIsTyped(a: ResponsePacket, b: ResponsePacket)
    requires ResponseFits(a) && ResponseFits(b)
    ensures Good(RESPONSE_PACKET)
    ensures Conforms(RESPONSE_PACKET, ResponseMsg(a)) && Conforms(RESPONSE_PACKET, ResponseMsg(b))
    ensures Merge(RESPONSE_PACKET, ResponseMsg(a), ResponseMsg(b)) == ResponseMsg(MergeResponse(a, b))
  {
    ResponseOk(a);
    ResponseOk(b);
    ResponseForm(a);
    ResponseForm(b);
    ResponseForm(MergeResponse(a, b));
    PacketMerge(RESPONSE_PACKET, 4, a.header, ResponseCase(a.body), ResponseBodyMsg(a.body),
                b.header, ResponseCase(b.body), ResponseBodyMsg(b.body));
    ResponseBodyMerge(a.body, b.body);
  }

  /** Two encoded responses one after the other decode to the second merged into the first, lists one after the other. */
  lemma ResponseConcatenation(a: ResponsePacket, b: ResponsePacket)
    requires ResponseFits(a) && ResponseFits(b) && ResponseClean(a) && ResponseClean(b)
    requires ResponseSize(a) <= MAX_INT && ResponseSize(b) <= MAX_INT
    ensures DecodeResponse(EncodeResponse(a) + EncodeResponse(b)) == (true, MergeResponse(a, b))
  {
    ResponseMergeIsTyped(a, b);
    ConcatenatedResponses(a, b);
    ResponseMergeFits(a, b);
    ResponseOfMsg(MergeResponse(a, b));
  }

  lemma ConcatenatedResponses(a: ResponsePacket, b: ResponsePacket)
    requires ResponseFits(a) && ResponseFits(b) && ResponseClean(a) && ResponseClean(b)
    requires ResponseSize(a) <= MAX_INT && ResponseSize(b) <= MAX_INT
    ensures Good(RESPONSE_PACKET) && Conforms(RESPONSE_PACKET, ResponseMsg(a)) && Conforms(RESPONSE_PACKET, ResponseMsg(b))
    ensures Parse(RESPONSE_PACKET, Default(RESPONSE_PACKET), EncodeResponse(a) + EncodeResponse(b))
            == Parsed(true, Merge(RESPONSE_PACKET, ResponseMsg(a), ResponseMsg(b)))
  {
    ResponseIsGood();
    ResponseConforms(a);
    ResponseConforms(b);
    WireProofs.ParseConcatenation(RESPONSE_PACKET, ResponseMsg(a), ResponseMsg(b));
  }

  lemma ResponseMergeFits(a: ResponsePacket, b: ResponsePacket)
    requires ResponseFits(a) && ResponseFits(b)
    ensures ResponseFits(MergeResponse(a, b))
  {
  }

  // ----- grouping of merges ----------------------------------------------------------

  /** `c` leaves a field at its default that `a` sets. */
  predicate EncryptedInherits(a: EncryptedMessage, c: EncryptedMessage) {
    || (c.keyId == 0 != a.keyId) || (c.msgType == 0 != a.msgType) || (c.ciphertext == [] != a.ciphertext)
    || (c.nonce == [] != a.nonce) || (c.tag == [] != a.tag) || (c.algorithm == [] != a.algorithm)
  }

  /** Two bodies of one case, of which the second leaves a field at its default that the first sets. */
  predicate Inherits(a: RequestBody, c: RequestBody) {
    match (a, c)
    case (SendMsgReq(Some(x)), SendMsgReq(Some(z))) => EncryptedInherits(x, z)
    case (SendMsgReq(x), SendMsgReq(None)) => x.Some?
    case (QueryMsgReq(x), QueryMsgReq(z)) => z == [] != x
    case (QueryMsgListReq(x, m), QueryMsgListReq(z, n)) => (z == [] != x) || (n == 0 != m)
    case (KeyAgreeReq(x, s), KeyAgreeReq(z, t)) => (z == [] != x) || (t == [] != s)
    case (KeyCheckReq(m), KeyCheckReq(n)) => n == 0 != m
    case (KeyLogoutReq(m), KeyLogoutReq(n)) => n == 0 != m
    case _ => false
  }

  /**
    The grouping of three merges matters exactly when the outer two set the same
    body, the middle one sets another, and the last leaves a field at its default
    that the first sets: grouped to the left, the middle body wipes that field out.
   */
  lemma GroupingMatters(a: RequestPacket, b: RequestPacket, c: RequestPacket)
    ensures MergeRequest(MergeRequest(a, b), c) != MergeRequest(a, MergeRequest(b, c))
            <==> RequestCase(a.body) == RequestCase(c.body) && RequestCase(b.body) !in {0, RequestCase(a.body)}
                 && Inherits(a.body, c.body)
  {
    GroupingOfBodies(a.body, b.body, c.body);
  }

  lemma GroupingOfBodies(a: RequestBody, b: RequestBody, c: RequestBody)
    ensures MergeBody(MergeBody(a, b), c) != MergeBody(a, MergeBody(b, c))
            <==> RequestCase(a) == RequestCase(c) && RequestCase(b) !in {0, RequestCase(a)} && Inherits(a, c)
  {
    if RequestCase(b) !in {0, RequestCase(a)} && RequestCase(a) == RequestCase(c) && !c.NoRequest? {
      InheritsExactly(a, c);
    }
  }

  lemma InheritsExactly(a: RequestBody, c: RequestBody)
    requires RequestCase(a) == RequestCase(c)
    ensures MergeBody(a, c) != c <==> Inherits(a, c)
  {
  }

  /** Three such requests. */
  lemma MergeIsNotAssociative()
    ensures exists a, b, c :: MergeRequest(MergeRequest(a, b), c) != MergeRequest(a, MergeRequest(b, c))
  {
    var a := RequestPacket(None, QueryMsgListReq([1], 0));
    var b := RequestPacket(None, KeyCheckReq(0));
    var c := RequestPacket(None, QueryMsgListReq([], 5));
    GroupingMatters(a, b, c);
    assert MergeRequest(MergeRequest(a, b), c) != MergeRequest(a, MergeRequest(b, c));
  }
}
