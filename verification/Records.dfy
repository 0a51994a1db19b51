/**
  The wire format from outside: records of every wire type, groups included, as
  the Protocol Buffers Encoding guide describes them (section "Message
  Structure"). A serialization is a sequence of such records, and a reader
  skips the records that it does not know.
 */
module Records {
  import opened Basics
  import opened WireFormat
  import Varint
  import WireProofs

  datatype Record =
    | VarintRecord(number: nat, v: nat)
    | Fixed64Record(number: nat, bytes: seq<Byte>)
    | LengthRecord(number: nat, payload: seq<Byte>)
    | GroupRecord(number: nat, body: seq<Record>)
    | Fixed32Record(number: nat, bytes: seq<Byte>)

  /** Field numbers have 29 bits. */
  predicate RecordOk(r: Record)
    decreases r
  {
    && 1 <= r.number < 0x2000_0000
    && match r
       case VarintRecord(_, v) => v < TWO_64
       case Fixed64Record(_, bytes) => |bytes| == 8
       case LengthRecord(_, payload) => |payload| <= MAX_INT
       case GroupRecord(_, body) => forall i | 0 <= i < |body| :: RecordOk(body[i])
       case Fixed32Record(_, bytes) => |bytes| == 4
  }

  predicate AllOk(rs: seq<Record>) {
    forall i | 0 <= i < |rs| :: RecordOk(rs[i])
  }

  /** The number and the wire type. */
  function TagOf(r: Record): nat {
    match r
    case VarintRecord(n, _) => 8 * n
    case Fixed64Record(n, _) => 8 * n + 1
    case LengthRecord(n, _) => 8 * n + 2
    case GroupRecord(n, _) => 8 * n + 3
    case Fixed32Record(n, _) => 8 * n + 5
  }

  lemma TagFits(r: Record)
    requires RecordOk(r)
    ensures TagOf(r) < TWO_32 && TagOf(r) / 8 == r.number && TagOf(r) % 8 != 4
  {
  }

  /** What follows the tag; a group ends with a tag of its own. */
  function Content(r: Record): seq<Byte>
    decreases r, 0
  {
    match r
    case VarintRecord(_, v) => Varint.Encode(v)
    case Fixed64Record(_, bytes) => bytes
    case LengthRecord(_, payload) => Varint.Encode(|payload|) + payload
    case GroupRecord(n, body) => BytesOf(body) + Varint.Encode(8 * n + 4)
    case Fixed32Record(_, bytes) => bytes
  }

  function BytesOf(rs: seq<Record>): seq<Byte>
    decreases rs, 0
  {
    if rs == [] then [] else Varint.Encode(TagOf(rs[0])) + Content(rs[0]) + BytesOf(rs[1..])
  }

  lemma {:induction false} BytesAppend(a: seq<Record>, b: seq<Record>)
    ensures BytesOf(a + b) == BytesOf(a) + BytesOf(b)
    decreases |a|
  {
    if a == [] {
      assert a + b == b;
    } else {
      BytesAppend(a[1..], b);
      assert (a + b)[0] == a[0] && (a + b)[1..] == a[1..] + b;
      Regroup(Varint.Encode(TagOf(a[0])), Content(a[0]), BytesOf(a[1..]), BytesOf(b));
    }
  }

  lemma Regroup(w: seq<Byte>, x: seq<Byte>, y: seq<Byte>, z: seq<Byte>)
    ensures w + x + (y + z) == (w + x + y) + z
  {
  }

  // ----- skipping ----------------------------------------------------------------------

  lemma NoBytes(rest: seq<Byte>)
    ensures BytesOf([]) + rest == rest
  {
  }

  lemma BytesFirst(rs: seq<Record>, rest: seq<Byte>)
    requires rs != []
    ensures BytesOf(rs) + rest == Varint.Encode(TagOf(rs[0])) + (Content(rs[0]) + (BytesOf(rs[1..]) + rest))
  {
  }

  lemma SkipsVarint(n: nat, v: nat, rest: seq<Byte>)
    requires n >= 1 && v < TWO_64
    ensures SkipField(8 * n, Varint.Encode(v) + rest) == Some(rest)
  {
    Varint.RoundTrip(v, rest);
    assert (Varint.Encode(v) + rest)[|Varint.Encode(v)|..] == rest;
  }

  lemma SkipsFixed(n: nat, bytes: seq<Byte>, rest: seq<Byte>)
    requires n >= 1
    ensures |bytes| == 8 ==> SkipField(8 * n + 1, bytes + rest) == Some(rest)
    ensures |bytes| == 4 ==> SkipField(8 * n + 5, bytes + rest) == Some(rest)
  {
    assert (bytes + rest)[|bytes|..] == rest;
  }

  lemma SkipsLength(n: nat, payload: seq<Byte>, rest: seq<Byte>)
    requires n >= 1 && |payload| <= MAX_INT
    ensures SkipField(8 * n + 2, Varint.Encode(|payload|) + payload + rest) == Some(rest)
  {
    WireProofs.ReadsBytes(payload, rest);
  }

  lemma GroupBegin(n: nat, tag: nat, bs: seq<Byte>)
    requires n >= 1 && tag % 8 == 3 && tag / 8 == n
    ensures SkipField(tag, bs) == SkipGroup(n, bs)
  {
  }

  /** The end tag of the group, and any other record in it. */
  lemma GroupEnd(n: nat, tag: nat, rest: seq<Byte>)
    requires tag < TWO_32 && tag % 8 == 4 && tag / 8 == n
    ensures SkipGroup(n, Varint.Encode(tag) + rest) == Some(rest)
  {
    WireProofs.ReadsVarint32(tag, rest);
  }

  lemma GroupGoesOn(n: nat, tag: nat, content: seq<Byte>, more: seq<Byte>)
    requires tag < TWO_32 && tag % 8 != 4 && SkipField(tag, content + more) == Some(more)
    ensures SkipGroup(n, Varint.Encode(tag) + (content + more)) == SkipGroup(n, more)
  {
    WireProofs.ReadsVarint32(tag, content + more);
  }

  /** The records of a group, and what ends it, are skipped to what follows. */
  predicate GroupSkipped(n: nat, body: seq<Record>, end: seq<Byte>, rest: seq<Byte>) {
    SkipGroup(n, BytesOf(body) + end) == Some(rest)
  }

  lemma NoneLeft(n: nat, end: seq<Byte>, rest: seq<Byte>)
    requires SkipGroup(n, end) == Some(rest)
    ensures GroupSkipped(n, [], end, rest)
  {
    NoBytes(end);
  }

  lemma GroupStep(n: nat, body: seq<Record>, end: seq<Byte>, rest: seq<Byte>)
    requires body != [] && RecordOk(body[0]) && GroupSkipped(n, body[1..], end, rest)
    requires SkipField(TagOf(body[0]), Content(body[0]) + (BytesOf(body[1..]) + end)) == Some(BytesOf(body[1..]) + end)
    ensures GroupSkipped(n, body, end, rest)
  {
    TagFits(body[0]);
    BytesFirst(body, end);
    GroupGoesOn(n, TagOf(body[0]), Content(body[0]), BytesOf(body[1..]) + end);
  }

  /** `SkipField` goes over the content of any record to what follows it. */
  lemma {:induction false} SkipsContent(r: Record, rest: seq<Byte>)
    requires RecordOk(r)
    ensures SkipField(TagOf(r), Content(r) + rest) == Some(rest)
    decreases r, 0
  {
    match r
    case VarintRecord(n, v) => SkipsVarint(n, v, rest);
    case Fixed64Record(n, bytes) => SkipsFixed(n, bytes, rest);
    case LengthRecord(n, payload) => SkipsLength(n, payload, rest);
    case GroupRecord(n, body) => SkipsGroupRecord(n, body, rest);
    case Fixed32Record(n, bytes) => SkipsFixed(n, bytes, rest);
  }

  lemma {:induction false} SkipsGroupRecord(n: nat, body: seq<Record>, rest: seq<Byte>)
    requires 1 <= n < 0x2000_0000 && AllOk(body)
    ensures SkipField(8 * n + 3, BytesOf(body) + Varint.Encode(8 * n + 4) + rest) == Some(rest)
    decreases body, 2
  {
    SkipsGroup(n, body, rest);
    GroupBegin(n, 8 * n + 3, BytesOf(body) + Varint.Encode(8 * n + 4) + rest);
    TwoParts(BytesOf(body), Varint.Encode(8 * n + 4), rest);
  }

  lemma TwoParts(x: seq<Byte>, y: seq<Byte>, rest: seq<Byte>)
    ensures x + y + rest == x + (y + rest)
  {
  }

  lemma {:induction false} SkipsGroup(n: nat, body: seq<Record>, rest: seq<Byte>)
    requires 1 <= n < 0x2000_0000 && AllOk(body)
    ensures GroupSkipped(n, body, Varint.Encode(8 * n + 4) + rest, rest)
    decreases body, 1
  {
    var end := Varint.Encode(8 * n + 4) + rest;
    if body == [] {
      GroupEnd(n, 8 * n + 4, rest);
      NoneLeft(n, end, rest);
    } else {
      SkipsContent(body[0], BytesOf(body[1..]) + end);
      SkipsGroup(n, body[1..], rest);
      GroupStep(n, body, end, rest);
    }
  }

  /** No field of the description has this record's number and wire type. */
  predicate Unknown(d: Desc, r: Record) {
    FieldOf(d.fields, TagOf(r)) == |d.fields|
  }

  /** An unknown record of any wire type, wherever it stands, changes nothing. */
  lemma UnknownIsIgnored(d: Desc, m: Message, r: Record, rest: seq<Byte>)
    requires Good(d) && Conforms(d, m) && RecordOk(r) && Unknown(d, r)
    ensures Parse(d, m, Varint.Encode(TagOf(r)) + (Content(r) + rest)) == Parse(d, m, rest)
  {
    TagFits(r);
    WireProofs.ReadsVarint32(TagOf(r), Content(r) + rest);
    SkipsContent(r, rest);
  }

  lemma {:induction false} UnknownAreIgnored(d: Desc, m: Message, rs: seq<Record>, rest: seq<Byte>)
    requires Good(d) && Conforms(d, m) && AllOk(rs) && forall i | 0 <= i < |rs| :: Unknown(d, rs[i])
    ensures Parse(d, m, BytesOf(rs) + rest) == Parse(d, m, rest)
    decreases |rs|
  {
    if rs == [] {
      assert BytesOf(rs) + rest == rest;
    } else {
      BytesFirst(rs, rest);
      UnknownIsIgnored(d, m, rs[0], BytesOf(rs[1..]) + rest);
      UnknownAreIgnored(d, m, rs[1..], rest);
    }
  }

  // ----- a serialization is a sequence of records ---------------------------------------

  /** Numbers as varints, strings and submessages with their lengths; nothing for a default value. */
  function FieldRecords(f: Field, v: Value): seq<Record>
    requires ValueOk(f.ty, v)
  {
    match v
    case Int(n) => if n == 0 then [] else [VarintRecord(f.number, Varint.Unsigned(n))]
    case Str(s) => if s == [] then [] else [LengthRecord(f.number, s)]
    case Sub(None) => []
    case Sub(Some(x)) => [LengthRecord(f.number, Serialize(f.ty.desc, x))]
    case Rep(ms) => ListRecords(f.number, f.ty.desc, ms)
  }

  function ListRecords(number: nat, d: Desc, ms: seq<Message>): seq<Record>
    requires forall i | 0 <= i < |ms| :: Conforms(d, ms[i])
  {
    if ms == [] then [] else [LengthRecord(number, Serialize(d, ms[0]))] + ListRecords(number, d, ms[1..])
  }

  function RecordsFrom(d: Desc, m: Message, i: nat): seq<Record>
    requires Conforms(d, m) && i <= |m.vals|
    decreases |m.vals| - i
  {
    if i == |m.vals| then [] else FieldRecords(d.fields[i], m.vals[i]) + RecordsFrom(d, m, i + 1)
  }

  lemma OneRecord(r: Record)
    ensures BytesOf([r]) == Varint.Encode(TagOf(r)) + Content(r)
  {
    assert BytesOf([r][1..]) == [];
  }

  lemma SubIsRecord(f: Field, d: Desc, x: Message)
    requires Good(d) && Conforms(d, x) && (f.ty.TMessage? || f.ty.TRepeated?)
    ensures SerSub(f, d, x) == BytesOf([LengthRecord(f.number, Serialize(d, x))])
  {
    WireProofs.ByteSizeIsLength(d, x);
    OneRecord(LengthRecord(f.number, Serialize(d, x)));
  }

  lemma {:induction false} ListIsRecords(f: Field, d: Desc, ms: seq<Message>)
    requires Good(d) && f.ty.TRepeated? && forall i | 0 <= i < |ms| :: Conforms(d, ms[i])
    ensures SerList(f, d, ms) == BytesOf(ListRecords(f.number, d, ms))
  {
    if ms == [] {
    } else {
      SubIsRecord(f, d, ms[0]);
      ListIsRecords(f, d, ms[1..]);
      BytesAppend([LengthRecord(f.number, Serialize(d, ms[0]))], ListRecords(f.number, d, ms[1..]));
    }
  }

  lemma FieldIsRecords(d: Desc, i: nat, v: Value)
    requires Good(d) && i < |d.fields| && ValueOk(d.fields[i].ty, v)
    ensures Ser(d.fields[i], v) == BytesOf(FieldRecords(d.fields[i], v))
  {
    var f := d.fields[i];
    assert GoodType(f.ty);
    match v
    case Int(n) => OneRecord(VarintRecord(f.number, Varint.Unsigned(n)));
    case Str(s) => OneRecord(LengthRecord(f.number, s));
    case Sub(None) =>
    case Sub(Some(x)) => SubIsRecord(f, f.ty.desc, x);
    case Rep(ms) => ListIsRecords(f, f.ty.desc, ms);
  }

  lemma {:induction false} IsRecordsFrom(d: Desc, m: Message, i: nat)
    requires Good(d) && Conforms(d, m) && i <= |m.vals|
    ensures SerFrom(d, m, i) == BytesOf(RecordsFrom(d, m, i))
    decreases |m.vals| - i
  {
    if i == |m.vals| {
    } else {
      FieldIsRecords(d, i, m.vals[i]);
      IsRecordsFrom(d, m, i + 1);
      BytesAppend(FieldRecords(d.fields[i], m.vals[i]), RecordsFrom(d, m, i + 1));
    }
  }

  /** The serializer writes exactly the message's records, in field order. */
  lemma SerializationIsRecords(d: Desc, m: Message)
    requires Good(d) && Conforms(d, m)
    ensures Serialize(d, m) == BytesOf(RecordsFrom(d, m, 0))
  {
    IsRecordsFrom(d, m, 0);
  }

  lemma {:induction false} ListRecordsOk(number: nat, d: Desc, ms: seq<Message>)
    requires Good(d) && 1 <= number <= 15 && forall i | 0 <= i < |ms| :: Conforms(d, ms[i])
    requires ListSize(d, ms) <= MAX_INT
    ensures AllOk(ListRecords(number, d, ms))
    ensures forall i | 0 <= i < |ListRecords(number, d, ms)| :: TagOf(ListRecords(number, d, ms)[i]) == 8 * number + 2
  {
    if ms == [] {
    } else {
      WireProofs.ByteSizeIsLength(d, ms[0]);
      ListRecordsOk(number, d, ms[1..]);
    }
  }

  lemma FieldRecordsOk(d: Desc, i: nat, v: Value)
    requires Good(d) && i < |d.fields| && ValueOk(d.fields[i].ty, v) && FieldSize(d.fields[i], v) <= MAX_INT
    ensures AllOk(FieldRecords(d.fields[i], v))
  {
    var f := d.fields[i];
    assert GoodType(f.ty);
    match v
    case Sub(Some(x)) => WireProofs.ByteSizeIsLength(f.ty.desc, x);
    case Rep(ms) => ListRecordsOk(f.number, f.ty.desc, ms);
    case _ =>
  }

  lemma {:induction false} RecordsOk(d: Desc, m: Message, i: nat)
    requires Good(d) && Conforms(d, m) && i <= |m.vals| && SizeFrom(d, m, i) <= MAX_INT
    ensures AllOk(RecordsFrom(d, m, i))
    decreases |m.vals| - i
  {
    if i == |m.vals| {
    } else {
      FieldRecordsOk(d, i, m.vals[i]);
      RecordsOk(d, m, i + 1);
    }
  }

  /** A reader that knows no field skips every serialization whole. */
  lemma SkippedWhole(d: Desc, m: Message)
    requires Good(d) && Conforms(d, m) && ByteSize(d, m) <= MAX_INT
    ensures Parse(Desc([]), Message([]), Serialize(d, m)) == Parsed(true, Message([]))
  {
    SerializationIsRecords(d, m);
    RecordsOk(d, m, 0);
    UnknownAreIgnored(Desc([]), Message([]), RecordsFrom(d, m, 0), []);
    assert Serialize(d, m) + [] == Serialize(d, m);
  }
}
