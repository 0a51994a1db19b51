/** The codec objects: info structs in, bytes out, and back. */
module Codecs {
  import opened Basics
  import opened WireFormat
  import opened WireMessage
  import opened Packets
  import opened Codec
  import opened Records
  import opened Layout

  /** A request info struct: the header and exactly one business body. */
  predicate RequestInfo(h: Header, b: RequestBody) {
    && !b.NoRequest? && (b.SendMsgReq? ==> b.message.Some?)
    && RequestFits(RequestPacket(Some(h), b))
  }

  class V2RequestCodec {
    const msg: GeneratedMessage
    var encStr: seq<Byte>

    ghost predicate Valid()
      reads this, msg
    {
      msg.Valid() && msg.desc == REQUEST_PACKET
    }

    constructor ()
      ensures Valid() && fresh(msg) && encStr == []
      ensures RequestOf(msg.msg) == RequestPacket(None, NoRequest)
    {
      RequestIsGood();
      msg := new GeneratedMessage(REQUEST_PACKET);
      encStr := [];
      new;
      assert msg.msg == RequestMsg(RequestPacket(None, NoRequest));
      RequestOfMsg(RequestPacket(None, NoRequest));
    }

    method InitBytes(bytes: seq<Byte>)
      modifies this
      ensures encStr == bytes
    {
      encStr := bytes;
    }

    /** Sets every header and body field; a body set before is displaced. */
    method InitMessage(h: Header, b: RequestBody)
      requires Valid() && RequestInfo(h, b)
      modifies msg
      ensures Valid() && msg.msg == RequestMsg(RequestPacket(Some(h), b))
    {
      var p := RequestPacket(Some(h), b);
      RequestConforms(p);
      RequestBodyConforms(p);
      HeaderConforms(h);
      var c := RequestCase(b);
      msg.msg := Store(msg.desc, msg.msg, 0, Sub(Some(HeaderMsg(h))));
      msg.msg := Store(msg.desc, msg.msg, c, Sub(Some(RequestBodyMsg(b))));
      SetAll(old(msg.msg), h, b);
    }

    /** The failure of a packet of 2^31 bytes or more is not reported: the result is then empty. */
    method EncodeMsg() returns (out: seq<Byte>)
      requires Valid()
      ensures out == if ByteSize(REQUEST_PACKET, msg.msg) <= MAX_INT then Serialize(REQUEST_PACKET, msg.msg) else []
    {
      var ok;
      ok, out := msg.SerializeToString();
    }

    /** Returns the packet object whether or not the parse succeeded. */
    method DecodeMsg() returns (p: RequestPacket)
      requires Valid()
      modifies msg
      ensures Valid() && p == DecodeRequest(encStr).1
    {
      var ok := msg.ParseFromString(encStr);
      p := RequestOf(msg.msg);
    }
  }

  /** A header and one body stored into a packet: every other body is cleared. */
  lemma SetBoth(d: Desc, m: Message, hv: Value, c: nat, v: Value)
    requires Conforms(d, m) && 1 <= c < |d.fields| && !d.fields[0].inBody && IsSet(v)
    requires forall j | 1 <= j < |d.fields| :: d.fields[j].inBody && d.fields[j].ty.TMessage?
    requires ValueOk(d.fields[0].ty, hv) && ValueOk(d.fields[c].ty, v)
    ensures forall j | 0 <= j < |d.fields| ::
              Store(d, Store(d, m, 0, hv), c, v).vals[j] == if j == 0 then hv else if j == c then v else Sub(None)
  {
    var m1 := Store(d, m, 0, hv);
    forall j | 0 <= j < |d.fields|
      ensures Store(d, m1, c, v).vals[j] == if j == 0 then hv else if j == c then v else Sub(None)
    {
      assert Store(d, m1, c, v).vals[j] == StoredAt(d, m1, c, v, j) && m1.vals[j] == StoredAt(d, m, 0, hv, j);
      assert ValueOk(d.fields[j].ty, m1.vals[j]);
    }
  }

  lemma SetAll(m: Message, h: Header, b: RequestBody)
    requires Conforms(REQUEST_PACKET, m) && RequestInfo(h, b)
    requires ValueOk(TMessage(HEADER), Sub(Some(HeaderMsg(h))))
    requires ValueOk(REQUEST_PACKET.fields[RequestCase(b)].ty, Sub(Some(RequestBodyMsg(b))))
    ensures Store(REQUEST_PACKET, Store(REQUEST_PACKET, m, 0, Sub(Some(HeaderMsg(h)))), RequestCase(b), Sub(Some(RequestBodyMsg(b))))
            == RequestMsg(RequestPacket(Some(h), b))
  {
    var d, c, hv, v := REQUEST_PACKET, RequestCase(b), Sub(Some(HeaderMsg(h))), Sub(Some(RequestBodyMsg(b)));
    SetBoth(d, m, hv, c, v);
    var m2, r := Store(d, Store(d, m, 0, hv), c, v), RequestMsg(RequestPacket(Some(h), b));
    RequestForm(RequestPacket(Some(h), b));
    assert forall j | 0 <= j < 7 :: m2.vals[j] == r.vals[j];
    assert m2.vals == r.vals;
  }

  class V2RespondCodec {
    const msg: GeneratedMessage
    var encStr: seq<Byte>

    ghost predicate Valid()
      reads this, msg
    {
      msg.Valid() && msg.desc == RESPONSE_PACKET
    }

    constructor ()
      ensures Valid() && fresh(msg) && encStr == []
      ensures msg.msg == ResponseMsg(ResponsePacket(None, NoResponse))
    {
      ResponseIsGood();
      msg := new GeneratedMessage(RESPONSE_PACKET);
      encStr := [];
      new;
      assert msg.msg == ResponseMsg(ResponsePacket(None, NoResponse));
    }

    method InitBytes(bytes: seq<Byte>)
      modifies this
      ensures encStr == bytes
    {
      encStr := bytes;
    }

    method AddMessages(earlier: seq<Message>, summaries: seq<MessageSummary>) returns (added: seq<Message>)
      ensures added == earlier + SummaryMsgs(summaries)
    {
      added := earlier;
      for i := 0 to |summaries|
        invariant added == earlier + SummaryMsgs(summaries)[..i]
      {
        added := added + [SummaryMsg(summaries[i])];
      }
    }

    /** The body that `mutable_x()` gives and the setters fill: a list keeps the summaries that are there. */
    method BuildBody(ghost before: ResponsePacket, b: ResponseBody) returns (body: Message)
      requires msg.msg == ResponseMsg(before) && !b.NoResponse?
      ensures body == ResponseBodyMsg(Added(before.body, b))
    {
      EarlierSummaries(before);
      match b {
        case QueryMsgListResp(code, message, summaries) =>
          var earlier := if IsSet(msg.msg.vals[3]) then msg.msg.vals[3].m.value.vals[2].ms else [];
          var added := AddMessages(earlier, summaries);
          assert added == SummaryMsgs(Added(before.body, b).messages);
          body := Message([Int(code), Str(message), Rep(added)]);
        case _ =>
          body := ResponseBodyMsg(b);
      }
    }

    /**
      Sets the header and every body field, displacing a body of another kind. The
      summaries are added one by one, behind those of an earlier list that the
      codec, holding `before`, still has.
     */
    method InitMessage(ghost before: ResponsePacket, h: Header, b: ResponseBody)
      requires Valid() && ResponseFits(before) && msg.msg == ResponseMsg(before)
      requires !b.NoResponse? && ResponseFits(ResponsePacket(Some(h), b))
      modifies msg
      ensures Valid() && msg.msg == ResponseMsg(ResponsePacket(Some(h), Added(before.body, b)))
    {
      ghost var all := Added(before.body, b);
      var c := ResponseCase(b);
      var body := BuildBody(before, b);
      BodyIsOk(before, h, b);
      SetAllResponse(msg.msg, h, all);
      msg.msg := Store(msg.desc, msg.msg, 0, Sub(Some(HeaderMsg(h))));
      msg.msg := Store(msg.desc, msg.msg, c, Sub(Some(body)));
    }

    method EncodeMsg() returns (out: seq<Byte>)
      requires Valid()
      ensures out == if ByteSize(RESPONSE_PACKET, msg.msg) <= MAX_INT then Serialize(RESPONSE_PACKET, msg.msg) else []
    {
      var ok;
      ok, out := msg.SerializeToString();
    }

    method DecodeMsg() returns (p: ResponsePacket)
      requires Valid()
      modifies msg
      ensures Valid() && p == DecodeResponse(encStr).1
    {
      var ok := msg.ParseFromString(encStr);
      p := ResponseOf(msg.msg);
    }
  }

  /** A list is added to the list that is there. */
  function Added(before: ResponseBody, b: ResponseBody): ResponseBody {
    if before.QueryMsgListResp? && b.QueryMsgListResp?
    then QueryMsgListResp(b.code, b.message, before.messages + b.messages)
    else b
  }

  lemma AddedFits(before: ResponseBody, h: Header, b: ResponseBody)
    requires ResponseFits(ResponsePacket(None, before)) && ResponseFits(ResponsePacket(Some(h), b))
    ensures ResponseFits(ResponsePacket(Some(h), Added(before, b)))
  {
  }

  lemma BodyIsOk(before: ResponsePacket, h: Header, b: ResponseBody)
    requires ResponseFits(before) && !b.NoResponse? && ResponseFits(ResponsePacket(Some(h), b))
    ensures var all := Added(before.body, b);
            && ResponseFits(ResponsePacket(Some(h), all)) && ResponseCase(all) == ResponseCase(b)
            && Conforms(RESPONSE_PACKET, ResponseMsg(before))
            && ValueOk(TMessage(HEADER), Sub(Some(HeaderMsg(h))))
            && ValueOk(RESPONSE_PACKET.fields[ResponseCase(b)].ty, Sub(Some(ResponseBodyMsg(all))))
  {
    AddedFits(before.body, h, b);
    ResponseConforms(before);
    ResponseBodyConforms(ResponsePacket(Some(h), Added(before.body, b)));
    HeaderConforms(h);
  }

  /** The summaries of an earlier list, as the message holds them. */
  lemma EarlierSummaries(p: ResponsePacket)
    ensures var v := ResponseMsg(p).vals[3];
            && (IsSet(v) <==> p.body.QueryMsgListResp?)
            && (IsSet(v) ==> |v.m.value.vals| == 3 && v.m.value.vals[2] == Rep(SummaryMsgs(p.body.messages)))
  {
  }

  lemma SetAllResponse(m: Message, h: Header, b: ResponseBody)
    requires Conforms(RESPONSE_PACKET, m)
    requires !b.NoResponse? && ResponseFits(ResponsePacket(Some(h), b))
    requires ValueOk(TMessage(HEADER), Sub(Some(HeaderMsg(h))))
    requires ValueOk(RESPONSE_PACKET.fields[ResponseCase(b)].ty, Sub(Some(ResponseBodyMsg(b))))
    ensures Store(RESPONSE_PACKET, Store(RESPONSE_PACKET, m, 0, Sub(Some(HeaderMsg(h)))), ResponseCase(b), Sub(Some(ResponseBodyMsg(b))))
            == ResponseMsg(ResponsePacket(Some(h), b))
  {
    var d, c, hv, v := RESPONSE_PACKET, ResponseCase(b), Sub(Some(HeaderMsg(h))), Sub(Some(ResponseBodyMsg(b)));
    SetBoth(d, m, hv, c, v);
    var m2, r := Store(d, Store(d, m, 0, hv), c, v), ResponseMsg(ResponsePacket(Some(h), b));
    ResponseForm(ResponsePacket(Some(h), b));
    assert forall j | 0 <= j < 5 :: m2.vals[j] == r.vals[j];
    assert m2.vals == r.vals;
  }

  /**
    Refused bytes are not refused by the codec: `decodeMsg` ignores the parse
    result, so a message whose first tag is zero reaches the dispatcher as a
    packet without header and body, answered as an unsupported request.
   */
  lemma RefusedBytesDecodeEmpty(rest: seq<Byte>)
    ensures DecodeRequest([0] + rest) == (false, RequestPacket(None, NoRequest))
  {
    RequestIsGood();
    var bs: seq<Byte> := [0] + rest;
    assert ReadVarint32(bs).value.0 == 0;
    assert Default(REQUEST_PACKET) == RequestMsg(RequestPacket(None, NoRequest));
    RequestOfMsg(RequestPacket(None, NoRequest));
  }

  /** The encoder end to end: the bytes of a request are its records, field by field. */
  method WriteRequest(h: Header, b: RequestBody) returns (bytes: seq<Byte>)
    requires RequestInfo(h, b)
    ensures RequestFits(RequestPacket(Some(h), b))
    ensures bytes == if RequestSize(RequestPacket(Some(h), b)) <= MAX_INT
                     then BytesOf(RequestRecords(RequestPacket(Some(h), b))) else []
  {
    var encoder := new V2RequestCodec();
    encoder.InitMessage(h, b);
    bytes := encoder.EncodeMsg();
    RequestBytes(RequestPacket(Some(h), b));
  }

  method WriteResponse(h: Header, b: ResponseBody) returns (bytes: seq<Byte>)
    requires !b.NoResponse? && ResponseFits(ResponsePacket(Some(h), b))
    ensures bytes == if ResponseSize(ResponsePacket(Some(h), b)) <= MAX_INT
                     then BytesOf(ResponseRecords(ResponsePacket(Some(h), b))) else []
  {
    var encoder := new V2RespondCodec();
    encoder.InitMessage(ResponsePacket(None, NoResponse), h, b);
    bytes := encoder.EncodeMsg();
    ResponseBytes(ResponsePacket(Some(h), b));
  }

  /** `Codec` end to end: what a peer decodes from an encoded request is the request. */
  method RequestOverTheWire(h: Header, b: RequestBody) returns (p: RequestPacket)
    requires RequestInfo(h, b) && RequestClean(RequestPacket(Some(h), b))
    requires RequestSize(RequestPacket(Some(h), b)) <= MAX_INT
    ensures p == RequestPacket(Some(h), b)
  {
    var encoder := new V2RequestCodec();
    encoder.InitMessage(h, b);
    var bytes := encoder.EncodeMsg();
    var decoder := new V2RequestCodec();
    decoder.InitBytes(bytes);
    p := decoder.DecodeMsg();
    RequestRoundTrip(RequestPacket(Some(h), b));
  }

  method ResponseOverTheWire(h: Header, b: ResponseBody) returns (p: ResponsePacket)
    requires !b.NoResponse? && ResponseFits(ResponsePacket(Some(h), b)) && ResponseClean(ResponsePacket(Some(h), b))
    requires ResponseSize(ResponsePacket(Some(h), b)) <= MAX_INT
    ensures p == ResponsePacket(Some(h), b)
  {
    var encoder := new V2RespondCodec();
    encoder.InitMessage(ResponsePacket(None, NoResponse), h, b);
    var bytes := encoder.EncodeMsg();
    var decoder := new V2RespondCodec();
    decoder.InitBytes(bytes);
    p := decoder.DecodeMsg();
    ResponseRoundTrip(ResponsePacket(Some(h), b));
  }
}
