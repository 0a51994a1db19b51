/**
  The packets on the wire, as `MessageV2.proto` numbers their fields: an encoder
  written record by record, which the generated serializers agree with.
 */
module Layout {
  import opened Basics
  import opened WireFormat
  import opened Packets
  import opened Codec
  import opened Records
  import Varint

  // ----- the messages, field by field --------------------------------------------------

  function TextPart(number: nat, s: Text): seq<Record> {
    if s == [] then [] else [LengthRecord(number, s)]
  }

  /** Numbers of either width and enum values; negative ones are sign-extended to 64 bits. */
  function IntPart(number: nat, n: int): seq<Record>
    requires Int64(n)
  {
    if n == 0 then [] else [VarintRecord(number, if n < 0 then n + TWO_64 else n)]
  }

  function Join(parts: seq<seq<Record>>): seq<Record> {
    if parts == [] then [] else parts[0] + Join(parts[1..])
  }

  function HeaderParts(h: Header): seq<seq<Record>>
    requires HeaderFits(h)
  {
    [TextPart(1, h.messageId), IntPart(2, h.command), TextPart(3, h.senderId), TextPart(4, h.receiverId), IntPart(5, h.timestamp)]
  }

  function EncryptedParts(e: EncryptedMessage): seq<seq<Record>>
    requires Int32(e.keyId) && Int32(e.msgType)
  {
    [IntPart(1, e.keyId), IntPart(2, e.msgType), TextPart(3, e.ciphertext), TextPart(4, e.nonce), TextPart(5, e.tag),
     TextPart(6, e.algorithm)]
  }

  function SummaryParts(s: MessageSummary): seq<seq<Record>>
    requires SummaryFits(s)
  {
    [TextPart(1, s.serverMessageId), TextPart(2, s.senderId), TextPart(3, s.receiverId), IntPart(4, s.keyId),
     TextPart(5, s.msgType), IntPart(6, s.sendTime), IntPart(7, s.status)]
  }

  function RequestParts(b: RequestBody): seq<seq<Record>>
    requires RequestFits(RequestPacket(None, b))
  {
    match b
    case NoRequest => []
    case SendMsgReq(None) => [[]]
    case SendMsgReq(Some(e)) => [[LengthRecord(1, BytesOf(Join(EncryptedParts(e))))]]
    case QueryMsgReq(id) => [TextPart(1, id)]
    case QueryMsgListReq(sender, limit) => [TextPart(1, sender), IntPart(2, limit)]
    case KeyAgreeReq(key, sign) => [TextPart(1, key), TextPart(2, sign)]
    case KeyCheckReq(id) => [IntPart(1, id)]
    case KeyLogoutReq(id) => [IntPart(1, id)]
  }

  function SummaryRecords(number: nat, ss: seq<MessageSummary>): seq<Record>
    requires forall i | 0 <= i < |ss| :: SummaryFits(ss[i])
  {
    if ss == [] then [] else [LengthRecord(number, BytesOf(Join(SummaryParts(ss[0]))))] + SummaryRecords(number, ss[1..])
  }

  function ResponseParts(b: ResponseBody): seq<seq<Record>>
    requires ResponseFits(ResponsePacket(None, b))
  {
    match b
    case NoResponse => []
    case SendMsgResp(code, message, id, time, status) =>
      [IntPart(1, code), TextPart(2, message), TextPart(3, id), IntPart(4, time), IntPart(5, status)]
    case QueryMsgResp(code, message, s) =>
      [IntPart(1, code), TextPart(2, message), TextPart(3, s.serverMessageId), TextPart(4, s.senderId),
       TextPart(5, s.receiverId), IntPart(6, s.keyId), TextPart(7, s.msgType), IntPart(8, s.sendTime), IntPart(9, s.status)]
    case QueryMsgListResp(code, message, ss) => [IntPart(1, code), TextPart(2, message), SummaryRecords(3, ss)]
    case KeyOpResp(code, message, keyId, data) =>
      [IntPart(1, code), TextPart(2, message), IntPart(3, keyId), TextPart(4, data)]
  }

  function HeaderRecord(h: Option<Header>): seq<Record>
    requires h.Some? ==> HeaderFits(h.value)
  {
    if h.None? then [] else [LengthRecord(1, BytesOf(Join(HeaderParts(h.value))))]
  }

  function RequestRecords(p: RequestPacket): seq<Record>
    requires RequestFits(p)
  {
    HeaderRecord(p.header) +
    match p.body
    case NoRequest => []
    case SendMsgReq(_) => [LengthRecord(2, BytesOf(Join(RequestParts(p.body))))]
    case QueryMsgReq(_) => [LengthRecord(3, BytesOf(Join(RequestParts(p.body))))]
    case QueryMsgListReq(_, _) => [LengthRecord(4, BytesOf(Join(RequestParts(p.body))))]
    case KeyAgreeReq(_, _) => [LengthRecord(5, BytesOf(Join(RequestParts(p.body))))]
    case KeyCheckReq(_) => [LengthRecord(6, BytesOf(Join(RequestParts(p.body))))]
    case KeyLogoutReq(_) => [LengthRecord(7, BytesOf(Join(RequestParts(p.body))))]
  }

  function ResponseRecords(p: ResponsePacket): seq<Record>
    requires ResponseFits(p)
  {
    HeaderRecord(p.header) +
    match p.body
    case NoResponse => []
    case SendMsgResp(_, _, _, _, _) => [LengthRecord(2, BytesOf(Join(ResponseParts(p.body))))]
    case QueryMsgResp(_, _, _) => [LengthRecord(3, BytesOf(Join(ResponseParts(p.body))))]
    case QueryMsgListResp(_, _, _) => [LengthRecord(4, BytesOf(Join(ResponseParts(p.body))))]
    case KeyOpResp(_, _, _, _) => [LengthRecord(5, BytesOf(Join(ResponseParts(p.body))))]
  }

  // ----- the serializers write just that ---------------------------------------------------

  /** The parts of a message: what each of its fields becomes. */
  ghost predicate PartsOf(d: Desc, m: Message, parts: seq<seq<Record>>) {
    && Good(d) && Conforms(d, m) && |parts| == |m.vals|
    && forall j | 0 <= j < |m.vals| :: parts[j] == FieldRecords(d.fields[j], m.vals[j])
  }

  lemma {:induction false} JoinedFrom(d: Desc, m: Message, parts: seq<seq<Record>>, i: nat)
    requires PartsOf(d, m, parts) && i <= |parts|
    ensures RecordsFrom(d, m, i) == Join(parts[i..])
    decreases |parts| - i
  {
    if i == |parts| {
    } else {
      JoinedFrom(d, m, parts, i + 1);
      assert parts[i..][0] == parts[i] && parts[i..][1..] == parts[i + 1..];
    }
  }

  lemma Joined(d: Desc, m: Message, parts: seq<seq<Record>>)
    requires PartsOf(d, m, parts)
    ensures Serialize(d, m) == BytesOf(Join(parts))
  {
    SerializationIsRecords(d, m);
    JoinedFrom(d, m, parts, 0);
    assert parts[0..] == parts;
  }

  /** Scalar fields numbered from 1, whatever they are. */
  ghost predicate ScalarParts(m: Message, parts: seq<seq<Record>>) {
    && |parts| == |m.vals|
    && forall j | 0 <= j < |m.vals| ::
         match m.vals[j]
         case Int(n) => Int64(n) && parts[j] == IntPart(j + 1, n)
         case Str(s) => parts[j] == TextPart(j + 1, s)
         case _ => false
  }

  lemma FlatJoined(d: Desc, m: Message, parts: seq<seq<Record>>)
    requires Flat(d) && Conforms(d, m) && ScalarParts(m, parts)
    ensures Serialize(d, m) == BytesOf(Join(parts))
  {
    FlatIsGood(d);
    forall j | 0 <= j < |m.vals|
      ensures parts[j] == FieldRecords(d.fields[j], m.vals[j])
    {
      assert d.fields[j].number == j + 1;
    }
    Joined(d, m, parts);
  }

  lemma HeaderBytes(h: Header)
    requires HeaderFits(h)
    ensures Conforms(HEADER, HeaderMsg(h)) && Serialize(HEADER, HeaderMsg(h)) == BytesOf(Join(HeaderParts(h)))
  {
    HeaderConforms(h);
    FlatJoined(HEADER, HeaderMsg(h), HeaderParts(h));
  }

  lemma EncryptedBytes(e: EncryptedMessage)
    requires Int32(e.keyId) && Int32(e.msgType)
    ensures Conforms(ENCRYPTED_MESSAGE, EncryptedMsg(e))
    ensures Serialize(ENCRYPTED_MESSAGE, EncryptedMsg(e)) == BytesOf(Join(EncryptedParts(e)))
  {
    EncryptedConforms(e);
    FlatJoined(ENCRYPTED_MESSAGE, EncryptedMsg(e), EncryptedParts(e));
  }

  lemma SummaryBytes(s: MessageSummary)
    requires SummaryFits(s)
    ensures Conforms(MESSAGE_SUMMARY, SummaryMsg(s))
    ensures Serialize(MESSAGE_SUMMARY, SummaryMsg(s)) == BytesOf(Join(SummaryParts(s)))
  {
    SummaryConforms(s);
    FlatJoined(MESSAGE_SUMMARY, SummaryMsg(s), SummaryParts(s));
  }

  lemma {:induction false} SummariesBytes(ss: seq<MessageSummary>)
    requires forall i | 0 <= i < |ss| :: SummaryFits(ss[i])
    ensures forall i | 0 <= i < |ss| :: Conforms(MESSAGE_SUMMARY, SummaryMsgs(ss)[i])
    ensures ListRecords(3, MESSAGE_SUMMARY, SummaryMsgs(ss)) == SummaryRecords(3, ss)
    decreases |ss|
  {
    SummariesConform(ss);
    if ss == [] {
      assert SummaryMsgs(ss) == [];
    } else {
      SummaryBytes(ss[0]);
      SummariesBytes(ss[1..]);
      assert SummaryMsgs(ss) == [SummaryMsg(ss[0])] + SummaryMsgs(ss[1..]);
    }
  }

  lemma RequestBodyBytes(b: RequestBody)
    requires RequestFits(RequestPacket(None, b)) && !b.NoRequest?
    ensures var d := REQUEST_PACKET.fields[RequestCase(b)].ty.desc;
            Conforms(d, RequestBodyMsg(b)) && Serialize(d, RequestBodyMsg(b)) == BytesOf(Join(RequestParts(b)))
  {
    RequestBodyConforms(RequestPacket(None, b));
    var d := REQUEST_PACKET.fields[RequestCase(b)].ty.desc;
    if b.SendMsgReq? {
      SendBodyBytes(b.message);
    } else {
      FlatJoined(d, RequestBodyMsg(b), RequestParts(b));
    }
  }

  lemma SendBodyBytes(e: Option<EncryptedMessage>)
    requires RequestFits(RequestPacket(None, SendMsgReq(e)))
    ensures var d, m := SEND_MESSAGE_REQUEST, RequestBodyMsg(SendMsgReq(e));
            Conforms(d, m) && Serialize(d, m) == BytesOf(Join(RequestParts(SendMsgReq(e))))
  {
    SendBodyFacts(e);
    if e.Some? { EncryptedBytes(e.value); }
    OneField(SEND_MESSAGE_REQUEST, RequestBodyMsg(SendMsgReq(e)), RequestParts(SendMsgReq(e)));
  }

  lemma OneField(d: Desc, m: Message, parts: seq<seq<Record>>)
    requires Good(d) && Conforms(d, m) && |parts| == |m.vals| == 1
    requires ValueOk(d.fields[0].ty, m.vals[0]) ==> parts[0] == FieldRecords(d.fields[0], m.vals[0])
    ensures Serialize(d, m) == BytesOf(Join(parts))
  {
    Joined(d, m, parts);
  }

  lemma ListBodyBytes(b: ResponseBody)
    requires b.QueryMsgListResp? && ResponseFits(ResponsePacket(None, b))
    ensures var d, m := QUERY_MESSAGE_LIST_RESPONSE, ResponseBodyMsg(b);
            Conforms(d, m) && Serialize(d, m) == BytesOf(Join(ResponseParts(b)))
  {
    var d, m := QUERY_MESSAGE_LIST_RESPONSE, ResponseBodyMsg(b);
    ListResponseIsGood();
    SummariesBytes(b.messages);
    ResponseBodyConforms(ResponsePacket(None, b));
    assert FieldRecords(d.fields[2], m.vals[2]) == ListRecords(3, MESSAGE_SUMMARY, SummaryMsgs(b.messages));
    Joined(d, m, ResponseParts(b));
  }

  lemma FlatResponseParts(b: ResponseBody)
    requires ResponseFits(ResponsePacket(None, b)) && !b.NoResponse? && !b.QueryMsgListResp?
    ensures ScalarParts(ResponseBodyMsg(b), ResponseParts(b))
  {
  }

  lemma ResponseBodyBytes(b: ResponseBody)
    requires ResponseFits(ResponsePacket(None, b)) && !b.NoResponse?
    ensures var d := RESPONSE_PACKET.fields[ResponseCase(b)].ty.desc;
            Conforms(d, ResponseBodyMsg(b)) && Serialize(d, ResponseBodyMsg(b)) == BytesOf(Join(ResponseParts(b)))
  {
    ResponseBodyConforms(ResponsePacket(None, b));
    if b.QueryMsgListResp? {
      ListBodyBytes(b);
    } else {
      FlatResponseParts(b);
      FlatJoined(RESPONSE_PACKET.fields[ResponseCase(b)].ty.desc, ResponseBodyMsg(b), ResponseParts(b));
    }
  }

  /** From body member `j` on, either packet has one record, or none. */
  lemma {:induction false} BodyRecords(d: Desc, n: nat, h: Option<Header>, c: nat, m: Message, j: nat)
    requires PacketOk(d, n, h, c, m) && 1 <= j <= n + 1
    requires forall k | 0 <= k <= n :: d.fields[k].number == k + 1
    ensures RecordsFrom(d, PacketMsg(n, h, c, m), j)
            == if c != 0 && j <= c then [LengthRecord(c + 1, Serialize(d.fields[c].ty.desc, m))] else []
    decreases n + 1 - j
  {
    if j == n + 1 {
    } else {
      BodyRecords(d, n, h, c, m, j + 1);
      assert PacketMsg(n, h, c, m).vals[j] == BodyVal(c == j, m);
    }
  }

  lemma PacketRecords(d: Desc, n: nat, h: Option<Header>, c: nat, m: Message)
    requires PacketOk(d, n, h, c, m)
    requires forall k | 0 <= k <= n :: d.fields[k].number == k + 1
    ensures Serialize(d, PacketMsg(n, h, c, m)) ==
            BytesOf(HeaderRecord(h) + if c == 0 then [] else [LengthRecord(c + 1, Serialize(d.fields[c].ty.desc, m))])
  {
    SerializationIsRecords(d, PacketMsg(n, h, c, m));
    BodyRecords(d, n, h, c, m, 1);
    if h.Some? { HeaderBytes(h.value); }
  }

  /** Every request is encoded as the records of its fields, by number, type and order. */
  lemma RequestBytes(p: RequestPacket)
    requires RequestFits(p)
    ensures EncodeRequest(p) == BytesOf(RequestRecords(p))
  {
    RequestOk(p);
    RequestForm(p);
    PacketRecords(REQUEST_PACKET, 6, p.header, RequestCase(p.body), RequestBodyMsg(p.body));
    if !p.body.NoRequest? { RequestBodyBytes(p.body); }
  }

  lemma ResponseBytes(p: ResponsePacket)
    requires ResponseFits(p)
    ensures EncodeResponse(p) == BytesOf(ResponseRecords(p))
  {
    ResponseOk(p);
    ResponseForm(p);
    PacketRecords(RESPONSE_PACKET, 4, p.header, ResponseCase(p.body), ResponseBodyMsg(p.body));
    if !p.body.NoResponse? { ResponseBodyBytes(p.body); }
  }

  // ----- what stands first ------------------------------------------------------------------

  lemma FirstByte(r: Record, rs: seq<Record>)
    requires TagOf(r) < 128
    ensures BytesOf([r] + rs) != [] && BytesOf([r] + rs)[0] == TagOf(r)
  {
    assert ([r] + rs)[0] == r;
  }

  predicate StartsWith(bs: seq<Byte>, b: nat) {
    bs != [] && bs[0] == b
  }

  lemma FirstOf(rs: seq<Record>)
    requires rs != [] && TagOf(rs[0]) < 128
    ensures StartsWith(BytesOf(rs), TagOf(rs[0]))
  {
    FirstByte(rs[0], rs[1..]);
    assert [rs[0]] + rs[1..] == rs;
  }

  function RequestTag(b: RequestBody): nat
    requires !b.NoRequest?
  {
    match b
    case SendMsgReq(_) => 18
    case QueryMsgReq(_) => 26
    case QueryMsgListReq(_, _) => 34
    case KeyAgreeReq(_, _) => 42
    case KeyCheckReq(_) => 50
    case KeyLogoutReq(_) => 58
  }

  function ResponseTag(b: ResponseBody): nat
    requires !b.NoResponse?
  {
    match b
    case SendMsgResp(_, _, _, _, _) => 18
    case QueryMsgResp(_, _, _) => 26
    case QueryMsgListResp(_, _, _) => 34
    case KeyOpResp(_, _, _, _) => 42
  }

  /** A packet starts with the tag of its header, or of its body if it has no header. */
  lemma RequestStart(p: RequestPacket)
    requires RequestFits(p)
    ensures p.header.Some? ==> StartsWith(EncodeRequest(p), 10)
    ensures p.header.None? && !p.body.NoRequest? ==> StartsWith(EncodeRequest(p), RequestTag(p.body))
    ensures p.header.None? && p.body.NoRequest? ==> EncodeRequest(p) == []
  {
    RequestBytes(p);
    var rs := RequestRecords(p);
    if rs != [] {
      assert TagOf(rs[0]) == if p.header.Some? then 10 else RequestTag(p.body);
      FirstOf(rs);
    }
  }

  lemma ResponseStart(p: ResponsePacket)
    requires ResponseFits(p)
    ensures p.header.Some? ==> StartsWith(EncodeResponse(p), 10)
    ensures p.header.None? && !p.body.NoResponse? ==> StartsWith(EncodeResponse(p), ResponseTag(p.body))
    ensures p.header.None? && p.body.NoResponse? ==> EncodeResponse(p) == []
  {
    ResponseBytes(p);
    var rs := ResponseRecords(p);
    if rs != [] {
      assert TagOf(rs[0]) == if p.header.Some? then 10 else ResponseTag(p.body);
      FirstOf(rs);
    }
  }
}
