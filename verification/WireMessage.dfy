/**
  A generated message object: the loops of `MergePartialFromCodedStream`,
  `SerializeWithCachedSizes`, `ByteSizeLong` and `MergeFrom`, each proved to
  compute the function of the same name in `WireFormat`.
 */
module WireMessage {
  import opened Basics
  import opened WireFormat
  import opened WireProofs

  method SizeOf(d: Desc, m: Message) returns (total: nat)
    requires Conforms(d, m)
    ensures total == ByteSize(d, m)
    decreases m
  {
    total := 0;
    var i := |m.vals|;
    while i > 0
      invariant 0 <= i <= |m.vals|
      invariant total == SizeFrom(d, m, i)
    {
      i := i - 1;
      var f := d.fields[i];
      match m.vals[i] {
        case Int(n) =>
          if n != 0 { total := total + 1 + Varint.Size(Varint.Unsigned(n)); }
        case Str(s) =>
          if |s| > 0 { total := total + 1 + Varint.Size(|s|) + |s|; }
        case Sub(None) =>
        case Sub(Some(x)) =>
          var size := SizeOf(f.ty.desc, x);
          total := total + 1 + Varint.Size(size) + size;
        case Rep(ms) =>
          var list := ListSizeOf(f.ty.desc, ms);
          total := total + list;
      }
    }
  }

  method ListSizeOf(d: Desc, ms: seq<Message>) returns (total: nat)
    requires forall i | 0 <= i < |ms| :: Conforms(d, ms[i])
    ensures total == ListSize(d, ms)
    decreases ms
  {
    total := 0;
    var i := |ms|;
    while i > 0
      invariant 0 <= i <= |ms|
      invariant total == ListSize(d, ms[i..])
    {
      i := i - 1;
      var size := SizeOf(d, ms[i]);
      total := total + 1 + Varint.Size(size) + size;
      assert ms[i..][1..] == ms[i + 1..];
    }
  }

  /** Appends the serialization of `m` to `output`. */
  method WriteTo(d: Desc, m: Message, output: seq<Byte>) returns (out: seq<Byte>)
    requires Conforms(d, m)
    ensures out == output + Serialize(d, m)
    decreases m, 0
  {
    out := output;
    var i := 0;
    while i < |m.vals|
      invariant 0 <= i <= |m.vals|
      invariant out + SerFrom(d, m, i) == output + Serialize(d, m)
    {
      ghost var before := out;
      out := WriteField(d.fields[i], m.vals[i], out);
      assert before + SerFrom(d, m, i) == out + SerFrom(d, m, i + 1);
      i := i + 1;
    }
  }

  method WriteField(f: Field, v: Value, output: seq<Byte>) returns (out: seq<Byte>)
    requires ValueOk(f.ty, v)
    ensures out == output + Ser(f, v)
    decreases v, 0
  {
    match v {
      case Int(n) =>
        out := output;
        if n != 0 { out := WriteInt(f, n, output); }
      case Str(s) =>
        out := output;
        if |s| > 0 { out := WriteString(f, s, output); }
      case Sub(None) =>
        out := output;
      case Sub(Some(x)) =>
        out := WriteSub(f, f.ty.desc, x, output);
      case Rep(ms) =>
        out := WriteList(f, f.ty.desc, ms, output);
    }
  }

  method WriteInt(f: Field, n: int, output: seq<Byte>) returns (out: seq<Byte>)
    requires ValueOk(f.ty, Int(n)) && n != 0
    ensures out == output + Ser(f, Int(n))
  {
    out := output + Varint.Encode(Tag(f)) + Varint.Encode(Varint.Unsigned(n));
  }

  method WriteString(f: Field, s: Text, output: seq<Byte>) returns (out: seq<Byte>)
    requires ValueOk(f.ty, Str(s)) && |s| > 0
    ensures out == output + Ser(f, Str(s))
  {
    out := output + Varint.Encode(Tag(f)) + Varint.Encode(|s|) + s;
  }

  method WriteSub(f: Field, d: Desc, x: Message, output: seq<Byte>) returns (out: seq<Byte>)
    requires Conforms(d, x)
    ensures out == output + SerSub(f, d, x)
    decreases x, 1
  {
    var size := SizeOf(d, x);
    out := WriteTo(d, x, output + Varint.Encode(Tag(f)) + Varint.Encode(size));
  }

  method WriteList(f: Field, d: Desc, ms: seq<Message>, output: seq<Byte>) returns (out: seq<Byte>)
    requires forall i | 0 <= i < |ms| :: Conforms(d, ms[i])
    ensures out == output + SerList(f, d, ms)
    decreases ms
  {
    out := output;
    var i := 0;
    while i < |ms|
      invariant 0 <= i <= |ms|
      invariant out + SerList(f, d, ms[i..]) == output + SerList(f, d, ms)
    {
      ghost var before := out;
      out := WriteSub(f, d, ms[i], out);
      assert ms[i..][1..] == ms[i + 1..];
      assert before + SerList(f, d, ms[i..]) == out + SerList(f, d, ms[i + 1..]);
      i := i + 1;
    }
    assert SerList(f, d, ms[i..]) == [];
  }

  /** The record loop: one tag, then the field that it selects, until the input ends. */
  method ParseInto(d: Desc, m: Message, input: seq<Byte>) returns (p: Parsed)
    requires Good(d) && Conforms(d, m)
    ensures p == Parse(d, m, input)
    decreases |input|, 1
  {
    var cur, rest := m, input;
    while rest != []
      invariant Conforms(d, cur) && |rest| <= |input|
      invariant Parse(d, cur, rest) == Parse(d, m, input)
      decreases |rest|
    {
      match ReadVarint32(rest) {
        case None => return Parsed(false, cur);
        case Some((tag, after)) =>
          if tag == 0 { return Parsed(false, cur); }
          var i := FieldOf(d.fields, tag);
          if i < |d.fields| {
            var field := ParseFieldInto(d, cur, i, after);
            if !field.ok { return Parsed(false, field.msg); }
            cur, rest := field.msg, field.rest;
          } else {
            match SkipField(tag, after) {
              case None => return Parsed(false, cur);
              case Some(left) => rest := left;
            }
          }
      }
    }
    p := Parsed(true, cur);
  }

  /** One record; a submessage is in place before its own records are read. */
  method ParseFieldInto(d: Desc, m: Message, i: nat, input: seq<Byte>) returns (r: FieldParsed)
    requires Good(d) && Conforms(d, m) && i < |d.fields|
    ensures r == ParseField(d, m, i, input)
    decreases |input|, 0
  {
    assert GoodType(d.fields[i].ty) && ValueOk(d.fields[i].ty, m.vals[i]);
    match d.fields[i].ty {
      case TMessage(sd) =>
        var into := Mutable(sd, m.vals[i]);
        match ReadBytes(input) {
          case NoLength => r := FieldParsed(false, Store(d, m, i, Sub(Some(into))), []);
          case Cut(part) =>
            var p := ParseInto(sd, into, part);
            r := FieldParsed(false, Store(d, m, i, Sub(Some(p.msg))), []);
          case Whole(payload, next) =>
            var p := ParseInto(sd, into, payload);
            r := FieldParsed(p.ok, Store(d, m, i, Sub(Some(p.msg))), next);
        }
      case TRepeated(sd) =>
        match ReadBytes(input) {
          case NoLength => r := FieldParsed(false, Store(d, m, i, Rep(m.vals[i].ms + [Default(sd)])), []);
          case Cut(part) =>
            var p := ParseInto(sd, Default(sd), part);
            r := FieldParsed(false, Store(d, m, i, Rep(m.vals[i].ms + [p.msg])), []);
          case Whole(payload, next) =>
            var p := ParseInto(sd, Default(sd), payload);
            r := FieldParsed(p.ok, Store(d, m, i, Rep(m.vals[i].ms + [p.msg])), next);
        }
      case _ => r := ParseField(d, m, i, input);
    }
  }

  /** Field by field, in place. */
  method MergeInto(d: Desc, a: Message, b: Message) returns (r: Message)
    requires Good(d) && Conforms(d, a) && Conforms(d, b)
    ensures r == Merge(d, a, b)
    decreases b
  {
    r := a;
    MergeNone(d, a, b);
    var i := 0;
    while i < |b.vals|
      invariant 0 <= i <= |b.vals|
      invariant r == MergeUpTo(d, a, b, i)
    {
      var f := d.fields[i];
      assert GoodType(f.ty) && ValueOk(f.ty, b.vals[i]) && ValueOk(f.ty, r.vals[i]);
      MergeNext(d, a, b, i);
      match b.vals[i] {
        case Int(n) => if n != 0 { r := Store(d, r, i, b.vals[i]); }
        case Str(s) => if |s| > 0 { r := Store(d, r, i, b.vals[i]); }
        case Sub(None) =>
        case Sub(Some(x)) =>
          var merged := MergeInto(f.ty.desc, Mutable(f.ty.desc, r.vals[i]), x);
          r := Store(d, r, i, Sub(Some(merged)));
        case Rep(ms) =>
          if ms != [] { r := Store(d, r, i, Rep(r.vals[i].ms + ms)); }
      }
      i := i + 1;
    }
  }

  class GeneratedMessage {
    const desc: Desc
    var msg: Message

    ghost predicate Valid()
      reads this
    {
      Good(desc) && Conforms(desc, msg)
    }

    constructor (d: Desc)
      requires Good(d)
      ensures Valid() && desc == d && msg == Default(d)
    {
      desc := d;
      msg := Default(d);
    }

    method ByteSizeLong() returns (total: nat)
      requires Valid()
      ensures total == ByteSize(desc, msg)
    {
      total := SizeOf(desc, msg);
    }

    /** Refuses a message of 2^31 bytes or more. */
    method SerializeToString() returns (ok: bool, out: seq<Byte>)
      requires Valid()
      ensures ok <==> ByteSize(desc, msg) <= MAX_INT
      ensures out == if ok then Serialize(desc, msg) else []
    {
      var size := ByteSizeLong();
      if size > MAX_INT {
        return false, [];
      }
      out := WriteTo(desc, msg, []);
      ok := true;
    }

    method MergePartialFromCodedStream(input: seq<Byte>) returns (ok: bool)
      requires Valid()
      modifies this
      ensures Valid() && Parsed(ok, msg) == Parse(desc, old(msg), input)
    {
      var p := ParseInto(desc, msg, input);
      ok, msg := p.ok, p.msg;
    }

    method ParseFromString(input: seq<Byte>) returns (ok: bool)
      requires Valid()
      modifies this
      ensures Valid() && Parsed(ok, msg) == Parse(desc, Default(desc), input)
    {
      msg := Default(desc);
      ok := MergePartialFromCodedStream(input);
    }

    method MergeFrom(from: GeneratedMessage)
      requires Valid() && from.Valid() && desc == from.desc && from != this
      modifies this
      ensures Valid() && msg == Merge(desc, old(msg), from.msg)
    {
      msg := MergeInto(desc, msg, from.msg);
    }
  }
}
