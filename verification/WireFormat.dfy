/**
  The generated protobuf message classes. All fourteen follow one template, so
  a message class is described by its field list and the template is written
  once: serializer, sizer, parser and merger as functions of that list
  (Protocol Buffers Encoding guide, sections "Message Structure",
  "Length-Delimited Records" and "Last One Wins").
 */
module WireFormat {
  import opened Basics
  import Varint

  /** `TInt32` stands for int32 and for enum fields, which are written alike. */
  datatype FieldType = TInt32 | TInt64 | TString | TMessage(desc: Desc) | TRepeated(desc: Desc)

  /** `inBody` marks the members of the message's `oneof body`. */
  datatype Field = Field(number: nat, ty: FieldType, inBody: bool)

  datatype Desc = Desc(fields: seq<Field>)

  datatype Value = Int(n: int) | Str(s: Text) | Sub(m: Option<Message>) | Rep(ms: seq<Message>)

  /** One value for each field of the description, in the same order. */
  datatype Message = Message(vals: seq<Value>)

  // ----- well-formed descriptions and messages ----------------------------------

  predicate GoodType(ty: FieldType)
    decreases ty
  {
    match ty
    case TMessage(d) => Good(d)
    case TRepeated(d) => Good(d)
    case _ => true
  }

  predicate Good(d: Desc)
    decreases d
  {
    && (forall i | 0 <= i < |d.fields| ::
          1 <= d.fields[i].number <= 15 && GoodType(d.fields[i].ty) && (d.fields[i].inBody ==> d.fields[i].ty.TMessage?))
    && (forall i, j | 0 <= i < j < |d.fields| :: d.fields[i].number != d.fields[j].number)
  }

  predicate ValueOk(ty: FieldType, v: Value)
    decreases v
  {
    match (ty, v)
    case (TInt32, Int(n)) => MIN_INT <= n <= MAX_INT
    case (TInt64, Int(n)) => -0x8000_0000_0000_0000 <= n < 0x8000_0000_0000_0000
    case (TString, Str(_)) => true
    case (TMessage(d), Sub(None)) => true
    case (TMessage(d), Sub(Some(x))) => Conforms(d, x)
    case (TRepeated(d), Rep(ms)) => forall i | 0 <= i < |ms| :: Conforms(d, ms[i])
    case _ => false
  }

  predicate IsSet(v: Value) {
    v.Sub? && v.m.Some?
  }

  /** The message has the described fields, and at most one member of the body. */
  predicate Conforms(d: Desc, m: Message)
    decreases m
  {
    && |m.vals| == |d.fields|
    && (forall i | 0 <= i < |m.vals| :: ValueOk(d.fields[i].ty, m.vals[i]))
    && BodyOk(d, m)
  }

  predicate BodyOk(d: Desc, m: Message)
    requires |m.vals| == |d.fields|
  {
    forall i, j | 0 <= i < |m.vals| && 0 <= j < |m.vals| && d.fields[i].inBody && d.fields[j].inBody
                  && IsSet(m.vals[i]) && IsSet(m.vals[j]) :: i == j
  }

  /** Every string in the value is valid UTF-8. */
  predicate CleanValue(v: Value)
    decreases v
  {
    match v
    case Int(_) => true
    case Str(s) => Varint.ValidUtf8(s)
    case Sub(None) => true
    case Sub(Some(x)) => Clean(x)
    case Rep(ms) => forall i | 0 <= i < |ms| :: Clean(ms[i])
  }

  predicate Clean(m: Message)
    decreases m
  {
    forall i | 0 <= i < |m.vals| :: CleanValue(m.vals[i])
  }

  function DefaultValue(ty: FieldType): (v: Value)
    ensures ValueOk(ty, v)
  {
    match ty
    case TInt32 => Int(0)
    case TInt64 => Int(0)
    case TString => Str([])
    case TMessage(_) => Sub(None)
    case TRepeated(_) => Rep([])
  }

  function Default(d: Desc): (m: Message)
    ensures Conforms(d, m)
  {
    Message(seq(|d.fields|, i requires 0 <= i < |d.fields| => DefaultValue(d.fields[i].ty)))
  }

  // ----- SerializeWithCachedSizes and ByteSizeLong ------------------------------------

  function WireType(ty: FieldType): nat {
    match ty
    case TInt32 => 0
    case TInt64 => 0
    case _ => 2
  }

  function Tag(f: Field): nat {
    8 * f.number + WireType(f.ty)
  }

  /** A field with its default value is not written. */
  function Ser(f: Field, v: Value): seq<Byte>
    requires ValueOk(f.ty, v)
    decreases v, 0
  {
    match v
    case Int(n) => if n == 0 then [] else Varint.Encode(Tag(f)) + Varint.Encode(Varint.Unsigned(n))
    case Str(s) => if |s| == 0 then [] else Varint.Encode(Tag(f)) + Varint.Encode(|s|) + s
    case Sub(None) => []
    case Sub(Some(x)) => SerSub(f, f.ty.desc, x)
    case Rep(ms) => SerList(f, f.ty.desc, ms)
  }

  /** The length prefix is what `ByteSizeLong` cached. */
  function SerSub(f: Field, d: Desc, x: Message): seq<Byte>
    requires Conforms(d, x)
    decreases x, |x.vals| + 1
  {
    Varint.Encode(Tag(f)) + Varint.Encode(ByteSize(d, x)) + SerFrom(d, x, 0)
  }

  function SerList(f: Field, d: Desc, ms: seq<Message>): seq<Byte>
    requires forall i | 0 <= i < |ms| :: Conforms(d, ms[i])
    decreases ms, 0
  {
    if ms == [] then []
    else SerSub(f, d, ms[0]) + SerList(f, d, ms[1..])
  }

  function SerFrom(d: Desc, m: Message, i: nat): seq<Byte>
    requires Conforms(d, m) && i <= |m.vals|
    decreases m, |m.vals| - i
  {
    if i == |m.vals| then [] else Ser(d.fields[i], m.vals[i]) + SerFrom(d, m, i + 1)
  }

  function Serialize(d: Desc, m: Message): seq<Byte>
    requires Conforms(d, m)
  {
    SerFrom(d, m, 0)
  }

  function FieldSize(f: Field, v: Value): nat
    requires ValueOk(f.ty, v)
    decreases v, 0
  {
    match v
    case Int(n) => if n == 0 then 0 else 1 + Varint.Size(Varint.Unsigned(n))
    case Str(s) => if |s| == 0 then 0 else 1 + Varint.Size(|s|) + |s|
    case Sub(None) => 0
    case Sub(Some(x)) => SubSize(f.ty.desc, x)
    case Rep(ms) => ListSize(f.ty.desc, ms)
  }

  function SubSize(d: Desc, x: Message): nat
    requires Conforms(d, x)
    decreases x, |x.vals| + 2
  {
    1 + Varint.Size(ByteSize(d, x)) + ByteSize(d, x)
  }

  function ListSize(d: Desc, ms: seq<Message>): nat
    requires forall i | 0 <= i < |ms| :: Conforms(d, ms[i])
    decreases ms, 0
  {
    if ms == [] then 0 else SubSize(d, ms[0]) + ListSize(d, ms[1..])
  }

  function SizeFrom(d: Desc, m: Message, i: nat): nat
    requires Conforms(d, m) && i <= |m.vals|
    decreases m, |m.vals| - i
  {
    if i == |m.vals| then 0 else FieldSize(d.fields[i], m.vals[i]) + SizeFrom(d, m, i + 1)
  }

  function ByteSize(d: Desc, m: Message): nat
    requires Conforms(d, m)
    decreases m, |m.vals| + 1
  {
    SizeFrom(d, m, 0)
  }

  // ----- MergePartialFromCodedStream --------------------------------------------------

  datatype Parsed = Parsed(ok: bool, msg: Message)

  /** A tag or length is a varint cut to 32 bits. */
  function ReadVarint32(bs: seq<Byte>): (r: Option<(nat, seq<Byte>)>)
    ensures r.Some? ==> |r.value.1| < |bs| && r.value.0 < TWO_32
  {
    match Varint.Read(bs, Varint.MAX_VARINT_BYTES)
    case None => None
    case Some(r) => Some((r.0 % TWO_32, bs[r.1..]))
  }

  /** What is found where a length-delimited payload is expected. */
  datatype Delimited =
    | NoLength
    | Cut(part: seq<Byte>)
    | Whole(payload: seq<Byte>, rest: seq<Byte>)

  /** The payload and what follows it, or as much of it as there is. */
  function ReadBytes(bs: seq<Byte>): (r: Delimited)
    ensures r.Whole? ==> |r.payload| + |r.rest| < |bs|
    ensures r.Cut? ==> |r.part| < |bs|
  {
    match ReadVarint32(bs)
    case None => NoLength
    case Some((n, after)) =>
      if n > MAX_INT then NoLength
      else if n > |after| then Cut(after)
      else Whole(after[..n], after[n..])
  }

  /** `WireFormat::SkipField` on a field that the class does not know. */
  function SkipField(tag: nat, bs: seq<Byte>): (r: Option<seq<Byte>>)
    ensures r.Some? ==> |r.value| <= |bs|
    decreases |bs|, 1
  {
    if tag / 8 == 0 then None
    else if tag % 8 == 0 then
      match Varint.Read(bs, Varint.MAX_VARINT_BYTES)
      case None => None
      case Some(r) => Some(bs[r.1..])
    else if tag % 8 == 1 then if |bs| < 8 then None else Some(bs[8..])
    else if tag % 8 == 2 then
      match ReadBytes(bs)
      case Whole(_, rest) => Some(rest)
      case _ => None
    else if tag % 8 == 3 then SkipGroup(tag / 8, bs)
    else if tag % 8 == 5 then if |bs| < 4 then None else Some(bs[4..])
    else None
  }

  function SkipGroup(number: nat, bs: seq<Byte>): (r: Option<seq<Byte>>)
    ensures r.Some? ==> |r.value| <= |bs|
    decreases |bs|, 0
  {
    match ReadVarint32(bs)
    case None => None
    case Some((tag, rest)) =>
      if tag % 8 == 4 then if tag / 8 == number then Some(rest) else None
      else
        match SkipField(tag, rest)
        case None => None
        case Some(next) => SkipGroup(number, next)
  }

  /** The field that the parser's switch selects for `tag`. */
  function FieldOf(fs: seq<Field>, tag: nat): (i: nat)
    ensures i <= |fs|
    ensures i < |fs| ==> Tag(fs[i]) == tag
    ensures forall j | 0 <= j < i :: Tag(fs[j]) != tag
  {
    if fs == [] || Tag(fs[0]) == tag then 0 else 1 + FieldOf(fs[1..], tag)
  }

  /** `mutable_x()`: the submessage in place, or a new one. */
  function Mutable(d: Desc, v: Value): (m: Message)
    requires ValueOk(TMessage(d), v)
    ensures Conforms(d, m)
  {
    if v.m.Some? then v.m.value else Default(d)
  }

  /** Stores a field; storing a body member clears the others. */
  function Store(d: Desc, m: Message, i: nat, v: Value): (r: Message)
    requires Conforms(d, m) && i < |m.vals| && ValueOk(d.fields[i].ty, v)
    requires d.fields[i].inBody ==> IsSet(v)
    ensures Conforms(d, r)
  {
    Message(seq(|m.vals|, j requires 0 <= j < |m.vals| => StoredAt(d, m, i, v, j)))
  }

  function StoredAt(d: Desc, m: Message, i: nat, v: Value, j: nat): (r: Value)
    requires Conforms(d, m) && i < |m.vals| && ValueOk(d.fields[i].ty, v) && j < |m.vals|
    ensures ValueOk(d.fields[j].ty, r)
  {
    assert ValueOk(d.fields[j].ty, m.vals[j]);
    if j == i then v
    else if d.fields[i].inBody && d.fields[j].inBody && m.vals[j].Sub? then Sub(None)
    else m.vals[j]
  }

  /** The record loop. When it fails, the message keeps what was stored until then. */
  function Parse(d: Desc, m: Message, bs: seq<Byte>): (r: Parsed)
    requires Good(d) && Conforms(d, m)
    ensures Conforms(d, r.msg)
    decreases |bs|, 1
  {
    if bs == [] then Parsed(true, m)
    else
      match ReadVarint32(bs)
      case None => Parsed(false, m)
      case Some((tag, rest)) =>
        if tag == 0 then Parsed(false, m)
        else
          var i := FieldOf(d.fields, tag);
          if i < |d.fields| then
            var r := ParseField(d, m, i, rest);
            if r.ok then Parse(d, r.msg, r.rest) else Parsed(false, r.msg)
          else
            match SkipField(tag, rest)
            case None => Parsed(false, m)
            case Some(next) => Parse(d, m, next)
  }

  datatype FieldParsed = FieldParsed(ok: bool, msg: Message, rest: seq<Byte>)

  /**
    One record. The generated code stores before it checks: a string before its
    UTF-8 check, a submessage before its parse; so a refused record leaves its
    mark. A number is stored only when it was read.
   */
  function ParseField(d: Desc, m: Message, i: nat, bs: seq<Byte>): (r: FieldParsed)
    requires Good(d) && Conforms(d, m) && i < |d.fields|
    ensures Conforms(d, r.msg) && |r.rest| <= |bs|
    decreases |bs|, 0
  {
    assert GoodType(d.fields[i].ty) && ValueOk(d.fields[i].ty, m.vals[i]);
    match d.fields[i].ty
    case TInt32 =>
      (match Varint.Read(bs, Varint.MAX_VARINT_BYTES)
       case None => FieldParsed(false, m, [])
       case Some(r) => FieldParsed(true, Store(d, m, i, Int(Varint.Signed32(r.0))), bs[r.1..]))
    case TInt64 =>
      (match Varint.Read(bs, Varint.MAX_VARINT_BYTES)
       case None => FieldParsed(false, m, [])
       case Some(r) => FieldParsed(true, Store(d, m, i, Int(Varint.Signed64(r.0))), bs[r.1..]))
    case TString =>
      (match ReadBytes(bs)
       case NoLength => FieldParsed(false, m, [])
       case Cut(part) => FieldParsed(false, Store(d, m, i, Str(part)), [])
       case Whole(s, next) => FieldParsed(Varint.ValidUtf8(s), Store(d, m, i, Str(s)), next))
    case TMessage(sd) =>
      var into := Mutable(sd, m.vals[i]);
      (match ReadBytes(bs)
       case NoLength => FieldParsed(false, Store(d, m, i, Sub(Some(into))), [])
       case Cut(part) => FieldParsed(false, Store(d, m, i, Sub(Some(Parse(sd, into, part).msg))), [])
       case Whole(payload, next) =>
         var p := Parse(sd, into, payload);
         FieldParsed(p.ok, Store(d, m, i, Sub(Some(p.msg))), next))
    case TRepeated(sd) =>
      (match ReadBytes(bs)
       case NoLength => FieldParsed(false, Store(d, m, i, Rep(m.vals[i].ms + [Default(sd)])), [])
       case Cut(part) => FieldParsed(false, Store(d, m, i, Rep(m.vals[i].ms + [Parse(sd, Default(sd), part).msg])), [])
       case Whole(payload, next) =>
         var p := Parse(sd, Default(sd), payload);
         FieldParsed(p.ok, Store(d, m, i, Rep(m.vals[i].ms + [p.msg])), next))
  }

  // ----- MergeFrom --------------------------------------------------------------------------

  /** One field of `from` into the same field of the target. */
  function MergeValue(ty: FieldType, into: Value, from: Value): (r: Value)
    requires GoodType(ty) && ValueOk(ty, into) && ValueOk(ty, from)
    ensures ValueOk(ty, r)
    ensures IsSet(r) <==> IsSet(into) || IsSet(from)
    decreases from, 0
  {
    match from
    case Int(n) => if n != 0 then from else into
    case Str(s) => if |s| > 0 then from else into
    case Sub(None) => into
    case Sub(Some(x)) => Sub(Some(MergeUpTo(ty.desc, Mutable(ty.desc, into), x, |x.vals|)))
    case Rep(ms) => Rep(into.ms + ms)
  }

  /** Some body member of `b` other than field `j`, among its first `n` fields, is set. */
  predicate OtherBody(d: Desc, b: Message, n: nat, j: nat)
    requires |b.vals| == |d.fields| && n <= |b.vals|
  {
    exists k :: 0 <= k < n && k != j && d.fields[k].inBody && IsSet(b.vals[k])
  }

  /** Field `j` after the first `n` fields of `b` were merged into `a`. */
  function MergedAt(d: Desc, a: Message, b: Message, n: nat, j: nat): (v: Value)
    requires Good(d) && Conforms(d, a) && Conforms(d, b) && n <= |b.vals| && j < |b.vals|
    ensures ValueOk(d.fields[j].ty, v)
    decreases b, 1
  {
    if d.fields[j].inBody && OtherBody(d, b, n, j) then Sub(None)
    else if j < n then MergeValue(d.fields[j].ty, a.vals[j], b.vals[j])
    else a.vals[j]
  }

  /**
    What `a` holds after the first `n` fields of `b` were merged into it:
    non-default scalars overwrite, submessages merge, repeated fields append,
    and a body member of `b` displaces any other.
   */
  function MergeUpTo(d: Desc, a: Message, b: Message, n: nat): (r: Message)
    requires Good(d) && Conforms(d, a) && Conforms(d, b) && n <= |b.vals|
    ensures Conforms(d, r)
    ensures forall j | 0 <= j < |b.vals| :: r.vals[j] == MergedAt(d, a, b, n, j)
    decreases b, 2, 2
  {
    MergedBodyOk(d, a, b, n);
    Merged(d, a, b, n)
  }

  function Merged(d: Desc, a: Message, b: Message, n: nat): Message
    requires Good(d) && Conforms(d, a) && Conforms(d, b) && n <= |b.vals|
    decreases b, 2, 0
  {
    Message(seq(|b.vals|, j requires 0 <= j < |b.vals| => MergedAt(d, a, b, n, j)))
  }

  lemma MergedBodyOk(d: Desc, a: Message, b: Message, n: nat)
    requires Good(d) && Conforms(d, a) && Conforms(d, b) && n <= |b.vals|
    ensures BodyOk(d, Merged(d, a, b, n))
    decreases b, 2, 1
  {
    var r := Merged(d, a, b, n);
    forall i, j | 0 <= i < |r.vals| && 0 <= j < |r.vals| && d.fields[i].inBody && d.fields[j].inBody
                  && IsSet(r.vals[i]) && IsSet(r.vals[j])
      ensures i == j
    {
      assert r.vals[i] == MergedAt(d, a, b, n, i) && r.vals[j] == MergedAt(d, a, b, n, j);
      assert !OtherBody(d, b, n, i) && !OtherBody(d, b, n, j);
      assert (i < n && IsSet(b.vals[i])) || IsSet(a.vals[i]);
      assert (j < n && IsSet(b.vals[j])) || IsSet(a.vals[j]);
    }
  }

  function Merge(d: Desc, a: Message, b: Message): (r: Message)
    requires Good(d) && Conforms(d, a) && Conforms(d, b)
    ensures Conforms(d, r)
  {
    MergeUpTo(d, a, b, |b.vals|)
  }
}
