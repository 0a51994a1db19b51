/**
  `RequestPacket` and `ResponsePacket`: the messages of `MessageV2.proto`, their
  field lists, and the mapping between the two.
 */
module Packets {
  import opened Basics
  import opened WireFormat

  // enum values
  const CMD_SEND_MSG_REQ := 1
  const CMD_SEND_MSG_RESP := 2
  const CMD_QUERY_MSG_REQ := 3
  const CMD_QUERY_MSG_RESP := 4
  const CMD_QUERY_MSG_LIST_REQ := 5
  const CMD_QUERY_MSG_LIST_RESP := 6
  const CMD_KEY_AGREE_REQ := 7
  const CMD_KEY_AGREE_RESP := 8
  const CMD_KEY_CHECK_REQ := 9
  const CMD_KEY_CHECK_RESP := 10
  const CMD_KEY_LOGOUT_REQ := 11
  const CMD_KEY_LOGOUT_RESP := 12

  const RESULT_SUCCESS := 1
  const RESULT_FAILED := 2
  const RESULT_KEY_NOT_FOUND := 3
  const RESULT_KEY_INVALID := 4
  const RESULT_DECRYPT_FAILED := 5
  const RESULT_INVALID_REQUEST := 6
  const RESULT_MSG_NOT_FOUND := 7
  const RESULT_KEY_AGREE_FAILED := 8
  const RESULT_KEY_LOGOUT_FAILED := 10

  const MSG_TYPE_TEXT := 1
  const DELIVERY_ACCEPTED := 1
  const DELIVERY_REJECTED := 2

  datatype Header = Header(messageId: Text, command: int, senderId: Text, receiverId: Text, timestamp: int)

  datatype EncryptedMessage = EncryptedMessage(
    keyId: int, msgType: int, ciphertext: Text, nonce: Text, tag: Text, algorithm: Text)

  datatype RequestBody =
    | NoRequest
    | SendMsgReq(message: Option<EncryptedMessage>)
    | QueryMsgReq(serverMessageId: Text)
    | QueryMsgListReq(senderId: Text, limit: int)
    | KeyAgreeReq(publicKey: Text, sign: Text)
    | KeyCheckReq(checkedId: int)
    | KeyLogoutReq(loggedOutId: int)

  datatype RequestPacket = RequestPacket(header: Option<Header>, body: RequestBody)

  datatype MessageSummary = MessageSummary(
    serverMessageId: Text, senderId: Text, receiverId: Text, keyId: int, msgType: Text, sendTime: int, status: int)

  datatype ResponseBody =
    | NoResponse
    | SendMsgResp(code: int, message: Text, serverMessageId: Text, serverTime: int, deliveryStatus: int)
    | QueryMsgResp(code: int, message: Text, summary: MessageSummary)
    | QueryMsgListResp(code: int, message: Text, messages: seq<MessageSummary>)
    | KeyOpResp(code: int, message: Text, keyId: int, data: Text)

  datatype ResponsePacket = ResponsePacket(header: Option<Header>, body: ResponseBody)

  // ----- field lists ------------------------------------------------------------------

  const HEADER := Desc([
    Field(1, TString, false), Field(2, TInt32, false), Field(3, TString, false),
    Field(4, TString, false), Field(5, TInt64, false)])

  const ENCRYPTED_MESSAGE := Desc([
    Field(1, TInt32, false), Field(2, TInt32, false), Field(3, TString, false),
    Field(4, TString, false), Field(5, TString, false), Field(6, TString, false)])

  const SEND_MESSAGE_REQUEST := Desc([Field(1, TMessage(ENCRYPTED_MESSAGE), false)])
  const QUERY_MESSAGE_REQUEST := Desc([Field(1, TString, false)])
  const QUERY_MESSAGE_LIST_REQUEST := Desc([Field(1, TString, false), Field(2, TInt32, false)])
  const KEY_AGREEMENT_REQUEST := Desc([Field(1, TString, false), Field(2, TString, false)])
  const KEY_CHECK_REQUEST := Desc([Field(1, TInt32, false)])
  const KEY_LOGOUT_REQUEST := Desc([Field(1, TInt32, false)])

  const REQUEST_PACKET := Desc([
    Field(1, TMessage(HEADER), false),
    Field(2, TMessage(SEND_MESSAGE_REQUEST), true),
    Field(3, TMessage(QUERY_MESSAGE_REQUEST), true),
    Field(4, TMessage(QUERY_MESSAGE_LIST_REQUEST), true),
    Field(5, TMessage(KEY_AGREEMENT_REQUEST), true),
    Field(6, TMessage(KEY_CHECK_REQUEST), true),
    Field(7, TMessage(KEY_LOGOUT_REQUEST), true)])

  const SEND_MESSAGE_RESPONSE := Desc([
    Field(1, TInt32, false), Field(2, TString, false), Field(3, TString, false),
    Field(4, TInt64, false), Field(5, TInt32, false)])

  const QUERY_MESSAGE_RESPONSE := Desc([
    Field(1, TInt32, false), Field(2, TString, false), Field(3, TString, false),
    Field(4, TString, false), Field(5, TString, false), Field(6, TInt32, false),
    Field(7, TString, false), Field(8, TInt64, false), Field(9, TInt32, false)])

  const MESSAGE_SUMMARY := Desc([
    Field(1, TString, false), Field(2, TString, false), Field(3, TString, false), Field(4, TInt32, false),
    Field(5, TString, false), Field(6, TInt64, false), Field(7, TInt32, false)])

  const QUERY_MESSAGE_LIST_RESPONSE := Desc([
    Field(1, TInt32, false), Field(2, TString, false), Field(3, TRepeated(MESSAGE_SUMMARY), false)])

  const KEY_OPERATION_RESPONSE := Desc([
    Field(1, TInt32, false), Field(2, TString, false), Field(3, TInt32, false), Field(4, TString, false)])

  const RESPONSE_PACKET := Desc([
    Field(1, TMessage(HEADER), false),
    Field(2, TMessage(SEND_MESSAGE_RESPONSE), true),
    Field(3, TMessage(QUERY_MESSAGE_RESPONSE), true),
    Field(4, TMessage(QUERY_MESSAGE_LIST_RESPONSE), true),
    Field(5, TMessage(KEY_OPERATION_RESPONSE), true)])

  /** Scalar fields numbered from 1. */
  predicate Flat(d: Desc) {
    && |d.fields| <= 15
    && forall i | 0 <= i < |d.fields| ::
         d.fields[i].number == i + 1 && !d.fields[i].inBody
         && (d.fields[i].ty.TInt32? || d.fields[i].ty.TInt64? || d.fields[i].ty.TString?)
  }

  lemma FlatIsGood(d: Desc)
    requires Flat(d)
    ensures Good(d)
  {
  }

  /** A packet's fields are messages with numbers of their own. */
  lemma PacketIsGood(d: Desc)
    requires |d.fields| <= 15
    requires forall i | 0 <= i < |d.fields| ::
               d.fields[i].number == i + 1 && d.fields[i].ty.TMessage? && GoodType(d.fields[i].ty)
    ensures Good(d)
  {
  }

  lemma RequestIsGood()
    ensures Good(REQUEST_PACKET)
  {
    RequestBodiesAreGood();
    PacketIsGood(REQUEST_PACKET);
  }

  lemma RequestBodiesAreGood()
    ensures Good(HEADER) && Good(SEND_MESSAGE_REQUEST) && Good(QUERY_MESSAGE_REQUEST) && Good(QUERY_MESSAGE_LIST_REQUEST)
    ensures Good(KEY_AGREEMENT_REQUEST) && Good(KEY_CHECK_REQUEST) && Good(KEY_LOGOUT_REQUEST)
  {
    FlatIsGood(HEADER);
    FlatIsGood(ENCRYPTED_MESSAGE);
    assert Good(SEND_MESSAGE_REQUEST);
    FlatIsGood(QUERY_MESSAGE_REQUEST);
    FlatIsGood(QUERY_MESSAGE_LIST_REQUEST);
    FlatIsGood(KEY_AGREEMENT_REQUEST);
    FlatIsGood(KEY_CHECK_REQUEST);
    FlatIsGood(KEY_LOGOUT_REQUEST);
  }

  lemma ListResponseIsGood()
    ensures Good(QUERY_MESSAGE_LIST_RESPONSE)
  {
    FlatIsGood(MESSAGE_SUMMARY);
  }

  lemma ResponseIsGood()
    ensures Good(RESPONSE_PACKET)
  {
    FlatIsGood(HEADER);
    FlatIsGood(SEND_MESSAGE_RESPONSE);
    FlatIsGood(QUERY_MESSAGE_RESPONSE);
    ListResponseIsGood();
    FlatIsGood(KEY_OPERATION_RESPONSE);
    PacketIsGood(RESPONSE_PACKET);
  }

  // ----- field ranges ---------------------------------------------------------------

  predicate Int32(n: int) {
    MIN_INT <= n <= MAX_INT
  }

  predicate Int64(n: int) {
    -0x8000_0000_0000_0000 <= n < 0x8000_0000_0000_0000
  }

  /** Every integer fits its C++ field. */
  predicate HeaderFits(h: Header) {
    Int32(h.command) && Int64(h.timestamp)
  }

  predicate SummaryFits(s: MessageSummary) {
    Int32(s.keyId) && Int64(s.sendTime) && Int32(s.status)
  }

  predicate RequestFits(p: RequestPacket) {
    && (p.header.Some? ==> HeaderFits(p.header.value))
    && match p.body
       case SendMsgReq(Some(e)) => Int32(e.keyId) && Int32(e.msgType)
       case QueryMsgListReq(_, limit) => Int32(limit)
       case KeyCheckReq(id) => Int32(id)
       case KeyLogoutReq(id) => Int32(id)
       case _ => true
  }

  predicate ResponseFits(p: ResponsePacket) {
    && (p.header.Some? ==> HeaderFits(p.header.value))
    && match p.body
       case NoResponse => true
       case SendMsgResp(code, _, _, time, status) => Int32(code) && Int64(time) && Int32(status)
       case QueryMsgResp(code, _, s) => Int32(code) && SummaryFits(s)
       case QueryMsgListResp(code, _, ms) => Int32(code) && forall i | 0 <= i < |ms| :: SummaryFits(ms[i])
       case KeyOpResp(code, _, keyId, _) => Int32(code) && Int32(keyId)
  }

  // ----- packets as generated messages ---------------------------------------------

  function HeaderMsg(h: Header): Message {
    Message([Str(h.messageId), Int(h.command), Str(h.senderId), Str(h.receiverId), Int(h.timestamp)])
  }

  function EncryptedMsg(e: EncryptedMessage): Message {
    Message([Int(e.keyId), Int(e.msgType), Str(e.ciphertext), Str(e.nonce), Str(e.tag), Str(e.algorithm)])
  }

  function SummaryMsg(s: MessageSummary): Message {
    Message([Str(s.serverMessageId), Str(s.senderId), Str(s.receiverId), Int(s.keyId),
             Str(s.msgType), Int(s.sendTime), Int(s.status)])
  }

  function HeaderVal(h: Option<Header>): Value {
    Sub(match h case None => None case Some(x) => Some(HeaderMsg(x)))
  }

  /** Index of the body's field in its packet, 0 when no body is set. */
  function RequestCase(b: RequestBody): (i: nat)
    ensures i <= 6 && (i == 0 <==> b.NoRequest?)
  {
    match b
    case NoRequest => 0
    case SendMsgReq(_) => 1
    case QueryMsgReq(_) => 2
    case QueryMsgListReq(_, _) => 3
    case KeyAgreeReq(_, _) => 4
    case KeyCheckReq(_) => 5
    case KeyLogoutReq(_) => 6
  }

  function RequestBodyMsg(b: RequestBody): Message {
    match b
    case NoRequest => Message([])
    case SendMsgReq(None) => Message([Sub(None)])
    case SendMsgReq(Some(e)) => Message([Sub(Some(EncryptedMsg(e)))])
    case QueryMsgReq(id) => Message([Str(id)])
    case QueryMsgListReq(sender, limit) => Message([Str(sender), Int(limit)])
    case KeyAgreeReq(key, sign) => Message([Str(key), Str(sign)])
    case KeyCheckReq(id) => Message([Int(id)])
    case KeyLogoutReq(id) => Message([Int(id)])
  }

  function BodyVal(present: bool, m: Message): Value {
    Sub(if present then Some(m) else None)
  }

  function RequestMsg(p: RequestPacket): Message {
    var c, m := RequestCase(p.body), RequestBodyMsg(p.body);
    Message([HeaderVal(p.header), BodyVal(c == 1, m), BodyVal(c == 2, m), BodyVal(c == 3, m),
             BodyVal(c == 4, m), BodyVal(c == 5, m), BodyVal(c == 6, m)])
  }

  function ResponseCase(b: ResponseBody): (i: nat)
    ensures i <= 4 && (i == 0 <==> b.NoResponse?)
  {
    match b
    case NoResponse => 0
    case SendMsgResp(_, _, _, _, _) => 1
    case QueryMsgResp(_, _, _) => 2
    case QueryMsgListResp(_, _, _) => 3
    case KeyOpResp(_, _, _, _) => 4
  }

  function SummaryMsgs(ss: seq<MessageSummary>): (ms: seq<Message>)
    ensures |ms| == |ss| && forall i | 0 <= i < |ss| :: ms[i] == SummaryMsg(ss[i])
  {
    seq(|ss|, i requires 0 <= i < |ss| => SummaryMsg(ss[i]))
  }

  function ResponseBodyMsg(b: ResponseBody): Message {
    match b
    case NoResponse => Message([])
    case SendMsgResp(code, message, id, time, status) =>
      Message([Int(code), Str(message), Str(id), Int(time), Int(status)])
    case QueryMsgResp(code, message, s) =>
      Message([Int(code), Str(message), Str(s.serverMessageId), Str(s.senderId), Str(s.receiverId),
               Int(s.keyId), Str(s.msgType), Int(s.sendTime), Int(s.status)])
    case QueryMsgListResp(code, message, ss) => Message([Int(code), Str(message), Rep(SummaryMsgs(ss))])
    case KeyOpResp(code, message, keyId, data) => Message([Int(code), Str(message), Int(keyId), Str(data)])
  }

  function ResponseMsg(p: ResponsePacket): Message {
    var c, m := ResponseCase(p.body), ResponseBodyMsg(p.body);
    Message([HeaderVal(p.header), BodyVal(c == 1, m), BodyVal(c == 2, m), BodyVal(c == 3, m), BodyVal(c == 4, m)])
  }

  lemma HeaderConforms(h: Header)
    requires HeaderFits(h)
    ensures Conforms(HEADER, HeaderMsg(h))
  {
  }

  lemma EncryptedConforms(e: EncryptedMessage)
    requires Int32(e.keyId) && Int32(e.msgType)
    ensures Conforms(ENCRYPTED_MESSAGE, EncryptedMsg(e))
  {
  }

  lemma SummaryConforms(s: MessageSummary)
    requires SummaryFits(s)
    ensures Conforms(MESSAGE_SUMMARY, SummaryMsg(s))
  {
  }

  lemma RequestBodyConforms(p: RequestPacket)
    requires RequestFits(p) && !p.body.NoRequest?
    ensures Conforms(REQUEST_PACKET.fields[RequestCase(p.body)].ty.desc, RequestBodyMsg(p.body))
  {
    match p.body
    case SendMsgReq(Some(e)) => EncryptedConforms(e);
    case _ =>
  }

  lemma RequestConforms(p: RequestPacket)
    requires RequestFits(p)
    ensures Conforms(REQUEST_PACKET, RequestMsg(p))
  {
    if p.header.Some? { HeaderConforms(p.header.value); }
    if !p.body.NoRequest? { RequestBodyConforms(p); }
    var m := RequestMsg(p);
    forall i | 0 <= i < |m.vals|
      ensures ValueOk(REQUEST_PACKET.fields[i].ty, m.vals[i])
      ensures REQUEST_PACKET.fields[i].inBody && IsSet(m.vals[i]) ==> i == RequestCase(p.body)
    {
    }
  }

  lemma ResponseBodyConforms(p: ResponsePacket)
    requires ResponseFits(p) && !p.body.NoResponse?
    ensures Conforms(RESPONSE_PACKET.fields[ResponseCase(p.body)].ty.desc, ResponseBodyMsg(p.body))
  {
    match p.body
    case QueryMsgListResp(_, _, ss) => SummariesConform(ss);
    case QueryMsgResp(code, message, s) => QueryResponseConforms(QUERY_MESSAGE_RESPONSE, code, message, s);
    case _ =>
  }

  lemma QueryResponseConforms(d: Desc, code: int, message: Text, s: MessageSummary)
    requires d == QUERY_MESSAGE_RESPONSE && Int32(code) && SummaryFits(s)
    ensures Conforms(d, ResponseBodyMsg(QueryMsgResp(code, message, s)))
  {
  }

  lemma SummariesConform(ss: seq<MessageSummary>)
    requires forall i | 0 <= i < |ss| :: SummaryFits(ss[i])
    ensures forall i | 0 <= i < |ss| :: Conforms(MESSAGE_SUMMARY, SummaryMsgs(ss)[i])
  {
    forall i | 0 <= i < |ss|
      ensures Conforms(MESSAGE_SUMMARY, SummaryMsgs(ss)[i])
    {
      SummaryConforms(ss[i]);
    }
  }

  lemma ResponseConforms(p: ResponsePacket)
    requires ResponseFits(p)
    ensures Conforms(RESPONSE_PACKET, ResponseMsg(p))
  {
    if p.header.Some? { HeaderConforms(p.header.value); }
    if !p.body.NoResponse? { ResponseBodyConforms(p); }
    var m := ResponseMsg(p);
    forall i | 0 <= i < |m.vals|
      ensures ValueOk(RESPONSE_PACKET.fields[i].ty, m.vals[i])
      ensures RESPONSE_PACKET.fields[i].inBody && IsSet(m.vals[i]) ==> i == ResponseCase(p.body)
    {
    }
  }
}
