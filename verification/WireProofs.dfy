/** Size, round trip and merge of the generated message classes. */
module WireProofs {
  import opened Basics
  import opened WireFormat

  lemma TagIsOneByte(d: Desc, i: nat)
    requires Good(d) && i < |d.fields|
    ensures 0 < Tag(d.fields[i]) < 128 && Varint.Encode(Tag(d.fields[i])) == [Tag(d.fields[i])]
  {
  }

  // ----- ByteSizeLong -----------------------------------------------------------------

  lemma {:induction false} FieldSizeIsLength(d: Desc, i: nat, v: Value)
    requires Good(d) && i < |d.fields| && ValueOk(d.fields[i].ty, v)
    ensures |Ser(d.fields[i], v)| == FieldSize(d.fields[i], v)
    decreases v, 0
  {
    TagIsOneByte(d, i);
    var f := d.fields[i];
    assert GoodType(f.ty);
    match v
    case Int(n) => if n != 0 { Varint.SizeIsLength(Varint.Unsigned(n)); }
    case Str(s) => Varint.SizeIsLength(|s|);
    case Sub(None) =>
    case Sub(Some(x)) => SubSizeIsLength(d, i, f.ty.desc, x);
    case Rep(ms) => ListSizeIsLength(d, i, f.ty.desc, ms);
  }

  lemma {:induction false} SubSizeIsLength(d: Desc, i: nat, sd: Desc, x: Message)
    requires Good(d) && i < |d.fields| && Good(sd) && Conforms(sd, x)
    ensures |SerSub(d.fields[i], sd, x)| == SubSize(sd, x)
    decreases x, |x.vals| + 1
  {
    TagIsOneByte(d, i);
    Varint.SizeIsLength(ByteSize(sd, x));
    SizeIsLengthFrom(sd, x, 0);
  }

  lemma {:induction false} ListSizeIsLength(d: Desc, i: nat, sd: Desc, ms: seq<Message>)
    requires Good(d) && i < |d.fields| && Good(sd) && forall j | 0 <= j < |ms| :: Conforms(sd, ms[j])
    ensures |SerList(d.fields[i], sd, ms)| == ListSize(sd, ms)
    decreases ms, 0
  {
    if ms == [] {
    } else {
      SubSizeIsLength(d, i, sd, ms[0]);
      ListSizeIsLength(d, i, sd, ms[1..]);
    }
  }

  lemma {:induction false} SizeIsLengthFrom(d: Desc, m: Message, i: nat)
    requires Good(d) && Conforms(d, m) && i <= |m.vals|
    ensures |SerFrom(d, m, i)| == SizeFrom(d, m, i)
    decreases m, |m.vals| - i
  {
    if i == |m.vals| {
    } else {
      FieldSizeIsLength(d, i, m.vals[i]);
      SizeIsLengthFrom(d, m, i + 1);
    }
  }

  /** `ByteSizeLong` is the exact byte count, at every nesting level. */
  lemma ByteSizeIsLength(d: Desc, m: Message)
    requires Good(d) && Conforms(d, m)
    ensures |Serialize(d, m)| == ByteSize(d, m)
  {
    SizeIsLengthFrom(d, m, 0);
  }

  // ----- one wire record ------------------------------------------------------------------

  lemma ReadsVarint32(v: nat, rest: seq<Byte>)
    requires v < TWO_32
    ensures ReadVarint32(Varint.Encode(v) + rest) == Some((v, rest))
  {
    Varint.RoundTrip(v, rest);
    assert (Varint.Encode(v) + rest)[|Varint.Encode(v)|..] == rest;
  }

  lemma ReadsBytes(s: seq<Byte>, rest: seq<Byte>)
    requires |s| <= MAX_INT
    ensures ReadBytes(Varint.Encode(|s|) + s + rest) == Whole(s, rest)
  {
    ReadsVarint32(|s|, s + rest);
    ReadsWhole(Varint.Encode(|s|), s, rest);
  }

  /** A length that was read, and a payload of that length. */
  lemma ReadsWhole(length: seq<Byte>, s: seq<Byte>, rest: seq<Byte>)
    requires |s| <= MAX_INT && ReadVarint32(length + (s + rest)) == Some((|s|, s + rest))
    ensures ReadBytes(length + s + rest) == Whole(s, rest)
  {
    assert length + s + rest == length + (s + rest);
    assert (s + rest)[..|s|] == s && (s + rest)[|s|..] == rest;
  }

  lemma FieldFound(fs: seq<Field>, i: nat)
    requires i < |fs|
    requires forall j, k | 0 <= j < k < |fs| :: Tag(fs[j]) != Tag(fs[k])
    ensures FieldOf(fs, Tag(fs[i])) == i
  {
  }

  lemma TagsDiffer(d: Desc)
    requires Good(d)
    ensures forall j, k | 0 <= j < k < |d.fields| :: Tag(d.fields[j]) != Tag(d.fields[k])
  {
    forall j, k | 0 <= j < k < |d.fields|
      ensures Tag(d.fields[j]) != Tag(d.fields[k])
    {
      assert d.fields[j].number != d.fields[k].number;
    }
  }

  /** The parser dispatches the record of field `i` to that field's case. */
  lemma ParseRecord(d: Desc, m: Message, i: nat, body: seq<Byte>)
    requires Good(d) && Conforms(d, m) && i < |d.fields|
    ensures Parse(d, m, Varint.Encode(Tag(d.fields[i])) + body) ==
            var r := ParseField(d, m, i, body);
            if r.ok then Parse(d, r.msg, r.rest) else Parsed(false, r.msg)
  {
    var t := Tag(d.fields[i]);
    TagIsOneByte(d, i);
    ReadsVarint32(t, body);
    TagsDiffer(d);
    FieldFound(d.fields, i);
  }

  // ----- parse after serialize is merge ---------------------------------------------------

  /** What merging field `n` of `b` does to `cur`: one store, or nothing for a default value. */
  function Absorb(d: Desc, cur: Message, n: nat, v: Value): (r: Message)
    requires Good(d) && Conforms(d, cur) && n < |d.fields| && ValueOk(d.fields[n].ty, v)
    ensures Conforms(d, r)
  {
    assert GoodType(d.fields[n].ty) && ValueOk(d.fields[n].ty, cur.vals[n]);
    if v == DefaultValue(d.fields[n].ty) then cur
    else Store(d, cur, n, MergeValue(d.fields[n].ty, cur.vals[n], v))
  }

  lemma MergeNext(d: Desc, a: Message, b: Message, n: nat)
    requires Good(d) && Conforms(d, a) && Conforms(d, b) && n < |b.vals| && ValueOk(d.fields[n].ty, b.vals[n])
    ensures MergeUpTo(d, a, b, n + 1) == Absorb(d, MergeUpTo(d, a, b, n), n, b.vals[n])
  {
    var cur, next, ty := MergeUpTo(d, a, b, n), MergeUpTo(d, a, b, n + 1), d.fields[n].ty;
    var r := Absorb(d, cur, n, b.vals[n]);
    forall j | 0 <= j < |b.vals|
      ensures next.vals[j] == r.vals[j]
    {
      assert next.vals[j] == MergedAt(d, a, b, n + 1, j);
      MergeNextAt(d, a, b, n, j);
    }
  }

  lemma MergeNextAt(d: Desc, a: Message, b: Message, n: nat, j: nat)
    requires Good(d) && Conforms(d, a) && Conforms(d, b) && n < |b.vals| && j < |b.vals|
    requires ValueOk(d.fields[n].ty, b.vals[n])
    ensures MergedAt(d, a, b, n + 1, j) == Absorb(d, MergeUpTo(d, a, b, n), n, b.vals[n]).vals[j]
  {
    var cur, ty, v := MergeUpTo(d, a, b, n), d.fields[n].ty, b.vals[n];
    assert GoodType(ty) && ValueOk(ty, a.vals[n]) && ValueOk(ty, cur.vals[n]);
    assert cur.vals[n] == MergedAt(d, a, b, n, n) && cur.vals[j] == MergedAt(d, a, b, n, j);
    if v == DefaultValue(ty) {
      assert OtherBody(d, b, n + 1, j) <==> OtherBody(d, b, n, j);
      MergeDefaultValue(ty, a.vals[n]);
    } else {
      assert Absorb(d, cur, n, v).vals[j] == StoredAt(d, cur, n, MergeValue(ty, cur.vals[n], v), j);
      MergeSetAt(d, a, b, n, j);
    }
  }

  lemma MergeDefaultValue(ty: FieldType, into: Value)
    requires GoodType(ty) && ValueOk(ty, into)
    ensures MergeValue(ty, into, DefaultValue(ty)) == into
  {
  }

  lemma MergeSetAt(d: Desc, a: Message, b: Message, n: nat, j: nat)
    requires Good(d) && Conforms(d, a) && Conforms(d, b) && n < |b.vals| && j < |b.vals|
    requires GoodType(d.fields[n].ty) && ValueOk(d.fields[n].ty, b.vals[n]) && ValueOk(d.fields[n].ty, MergeUpTo(d, a, b, n).vals[n])
    requires b.vals[n] != DefaultValue(d.fields[n].ty)
    ensures MergedAt(d, a, b, n + 1, j) ==
            StoredAt(d, MergeUpTo(d, a, b, n), n, MergeValue(d.fields[n].ty, MergeUpTo(d, a, b, n).vals[n], b.vals[n]), j)
  {
    var cur := MergeUpTo(d, a, b, n);
    assert cur.vals[n] == MergedAt(d, a, b, n, n) && cur.vals[j] == MergedAt(d, a, b, n, j);
    var f := d.fields[n];
    if f.inBody {
      assert IsSet(b.vals[n]);
      assert !OtherBody(d, b, n, n) && !OtherBody(d, b, n + 1, n);
      if j != n { assert OtherBody(d, b, n + 1, j); }
    } else {
      assert OtherBody(d, b, n + 1, j) <==> OtherBody(d, b, n, j);
    }
  }

  // ----- merging into a fresh message ---------------------------------------------------

  lemma {:induction false} MergeIntoDefault(d: Desc, b: Message)
    requires Good(d) && Conforms(d, b)
    ensures Merge(d, Default(d), b) == b
    decreases b, 1
  {
    var a := Default(d);
    forall j | 0 <= j < |b.vals|
      ensures Merge(d, a, b).vals[j] == b.vals[j]
    {
      var ty := d.fields[j].ty;
      assert GoodType(ty) && ValueOk(ty, b.vals[j]);
      assert Merge(d, a, b).vals[j] == MergedAt(d, a, b, |b.vals|, j);
      if d.fields[j].inBody && OtherBody(d, b, |b.vals|, j) {
        assert !IsSet(b.vals[j]);
      } else {
        MergeValueIntoDefault(ty, b.vals[j]);
      }
    }
  }

  lemma {:induction false} MergeValueIntoDefault(ty: FieldType, v: Value)
    requires GoodType(ty) && ValueOk(ty, v)
    ensures MergeValue(ty, DefaultValue(ty), v) == v
    decreases v, 0
  {
    match v
    case Sub(Some(x)) => MergeIntoDefault(ty.desc, x);
    case _ =>
  }

  // ----- parsing what was serialized ----------------------------------------------------

  lemma ParseAbsorbsInt(d: Desc, cur: Message, i: nat, n: int, rest: seq<Byte>)
    requires Good(d) && Conforms(d, cur) && i < |d.fields| && ValueOk(d.fields[i].ty, Int(n)) && n != 0
    ensures Parse(d, cur, Ser(d.fields[i], Int(n)) + rest) == Parse(d, Absorb(d, cur, i, Int(n)), rest)
  {
    var f, u := d.fields[i], Varint.Encode(Varint.Unsigned(n));
    assert ValueOk(f.ty, cur.vals[i]);
    assert Ser(f, Int(n)) + rest == Varint.Encode(Tag(f)) + (u + rest);
    ParseRecord(d, cur, i, u + rest);
    Varint.RoundTrip(Varint.Unsigned(n), rest);
    Varint.SignedUnsigned(n);
    assert (u + rest)[|u|..] == rest;
  }

  lemma ParseAbsorbsString(d: Desc, cur: Message, i: nat, s: Text, rest: seq<Byte>)
    requires Good(d) && Conforms(d, cur) && i < |d.fields| && ValueOk(d.fields[i].ty, Str(s))
    requires 0 < |s| <= MAX_INT && Varint.ValidUtf8(s)
    ensures Parse(d, cur, Ser(d.fields[i], Str(s)) + rest) == Parse(d, Absorb(d, cur, i, Str(s)), rest)
  {
    var f := d.fields[i];
    assert ValueOk(f.ty, cur.vals[i]);
    assert Ser(f, Str(s)) + rest == Varint.Encode(Tag(f)) + (Varint.Encode(|s|) + s + rest);
    ParseRecord(d, cur, i, Varint.Encode(|s|) + s + rest);
    ReadsBytes(s, rest);
  }

  /** The record of one field: the parser does to the message what a merge does. */
  lemma {:induction false} ParseAbsorbs(d: Desc, cur: Message, i: nat, v: Value, rest: seq<Byte>)
    requires Good(d) && Conforms(d, cur) && i < |d.fields| && ValueOk(d.fields[i].ty, v)
    requires FieldSize(d.fields[i], v) <= MAX_INT && CleanValue(v)
    ensures Parse(d, cur, Ser(d.fields[i], v) + rest) == Parse(d, Absorb(d, cur, i, v), rest)
    decreases v, 0
  {
    var f := d.fields[i];
    assert GoodType(f.ty) && ValueOk(f.ty, cur.vals[i]);
    if v == DefaultValue(f.ty) {
      assert Ser(f, v) + rest == rest;
    } else {
      match v
      case Int(n) =>
        ParseAbsorbsInt(d, cur, i, n, rest);
      case Str(s) =>
        ParseAbsorbsString(d, cur, i, s, rest);
      case Sub(Some(x)) =>
        ParseSub(d, cur, i, f.ty.desc, x, Mutable(f.ty.desc, cur.vals[i]), rest);
      case Rep(ms) =>
        ParseList(d, cur, i, f.ty.desc, ms, rest);
    }
  }

  lemma SubBytes(f: Field, sd: Desc, x: Message, rest: seq<Byte>)
    requires Good(sd) && Conforms(sd, x)
    ensures SerSub(f, sd, x) + rest
            == Varint.Encode(Tag(f)) + (Varint.Encode(|SerFrom(sd, x, 0)|) + SerFrom(sd, x, 0) + rest)
  {
    SizeIsLengthFrom(sd, x, 0);
    var tag, size, payload := Varint.Encode(Tag(f)), Varint.Encode(ByteSize(sd, x)), SerFrom(sd, x, 0);
    assert SerSub(f, sd, x) == tag + size + payload;
    assert tag + size + payload + rest == tag + (size + payload + rest);
  }

  /** `x` is parsed into the message that this field's case starts from. */
  predicate StartsFrom(d: Desc, cur: Message, i: nat, sd: Desc, into: Message)
    requires Conforms(d, cur) && i < |d.fields|
  {
    && ValueOk(d.fields[i].ty, cur.vals[i])
    && (|| (d.fields[i].ty == TMessage(sd) && into == Mutable(sd, cur.vals[i]))
        || (d.fields[i].ty == TRepeated(sd) && into == Default(sd)))
  }

  /** The submessage `x` in its place: the only one, or the last of the repeated ones. */
  function Keep(d: Desc, cur: Message, i: nat, sd: Desc, x: Message): (r: Message)
    requires Conforms(d, cur) && i < |d.fields| && Conforms(sd, x) && ValueOk(d.fields[i].ty, cur.vals[i])
    requires Good(d) && (d.fields[i].ty == TMessage(sd) || d.fields[i].ty == TRepeated(sd))
    ensures Conforms(d, r)
  {
    assert GoodType(d.fields[i].ty);
    if d.fields[i].ty.TMessage? then Store(d, cur, i, Sub(Some(x)))
    else
      assert forall j | 0 <= j < |cur.vals[i].ms| :: Conforms(sd, cur.vals[i].ms[j]);
      Store(d, cur, i, Rep(cur.vals[i].ms + [x]))
  }

  /** The case of a submessage: what its nested parse leaves is kept, whether it ends well or not. */
  lemma ParseFieldSub(d: Desc, cur: Message, i: nat, sd: Desc, into: Message, body: seq<Byte>)
    requires Good(d) && Conforms(d, cur) && i < |d.fields| && Good(sd) && Conforms(sd, into)
    requires StartsFrom(d, cur, i, sd, into) && ReadBytes(body).Whole?
    ensures ParseField(d, cur, i, body) ==
            var p := Parse(sd, into, ReadBytes(body).payload);
            FieldParsed(p.ok, Keep(d, cur, i, sd, p.msg), ReadBytes(body).rest)
  {
  }

  lemma ParseSubRecord(d: Desc, cur: Message, i: nat, sd: Desc, x: Message, into: Message, rest: seq<Byte>)
    requires Good(d) && Conforms(d, cur) && i < |d.fields| && Good(sd) && Conforms(sd, x) && Conforms(sd, into)
    requires StartsFrom(d, cur, i, sd, into) && SubSize(sd, x) <= MAX_INT
    ensures Parse(d, cur, SerSub(d.fields[i], sd, x) + rest) ==
            var p := Parse(sd, into, SerFrom(sd, x, 0));
            if p.ok then Parse(d, Keep(d, cur, i, sd, p.msg), rest) else Parsed(false, Keep(d, cur, i, sd, p.msg))
  {
    var payload := SerFrom(sd, x, 0);
    var body := Varint.Encode(|payload|) + payload + rest;
    SizeIsLengthFrom(sd, x, 0);
    SubBytes(d.fields[i], sd, x, rest);
    ReadsBytes(payload, rest);
    ParseFieldSub(d, cur, i, sd, into, body);
    ParseRecord(d, cur, i, body);
  }

  /** The record of a submessage, parsed into `into`. */
  lemma {:induction false} ParseSub(d: Desc, cur: Message, i: nat, sd: Desc, x: Message, into: Message, rest: seq<Byte>)
    requires Good(d) && Conforms(d, cur) && i < |d.fields| && Good(sd) && Conforms(sd, x) && Conforms(sd, into)
    requires StartsFrom(d, cur, i, sd, into) && SubSize(sd, x) <= MAX_INT && Clean(x)
    ensures Parse(d, cur, SerSub(d.fields[i], sd, x) + rest) == Parse(d, Keep(d, cur, i, sd, Merge(sd, into, x)), rest)
    decreases x, |x.vals| + 3
  {
    ParseSubRecord(d, cur, i, sd, x, into, rest);
    ParseIsMerge(sd, into, x);
  }

  lemma MergeNone(d: Desc, a: Message, b: Message)
    requires Good(d) && Conforms(d, a) && Conforms(d, b)
    ensures MergeUpTo(d, a, b, 0) == a
  {
    assert forall j | 0 <= j < |b.vals| :: MergeUpTo(d, a, b, 0).vals[j] == MergedAt(d, a, b, 0, j);
  }

  /** One submessage more in a repeated field. */
  lemma KeepOne(d: Desc, cur: Message, i: nat, sd: Desc, x: Message)
    requires Good(d) && Conforms(d, cur) && i < |d.fields| && Conforms(sd, x)
    requires d.fields[i].ty == TRepeated(sd) && ValueOk(TRepeated(sd), cur.vals[i])
    ensures ValueOk(TRepeated(sd), Rep(cur.vals[i].ms + [x]))
    ensures Keep(d, cur, i, sd, x) == Store(d, cur, i, Rep(cur.vals[i].ms + [x]))
    ensures Keep(d, cur, i, sd, x).vals[i] == Rep(cur.vals[i].ms + [x])
  {
    var v := Rep(cur.vals[i].ms + [x]);
    assert ValueOk(TRepeated(sd), v);
    assert Store(d, cur, i, v).vals[i] == StoredAt(d, cur, i, v, i);
  }

  lemma ParseOne(d: Desc, cur: Message, i: nat, sd: Desc, x: Message, rest: seq<Byte>)
    requires Good(d) && Conforms(d, cur) && i < |d.fields| && Good(sd) && Conforms(sd, x)
    requires d.fields[i].ty == TRepeated(sd) && ValueOk(TRepeated(sd), cur.vals[i])
    requires SubSize(sd, x) <= MAX_INT && Clean(x)
    ensures Parse(d, cur, SerSub(d.fields[i], sd, x) + rest) == Parse(d, Keep(d, cur, i, sd, x), rest)
    decreases x, |x.vals| + 4
  {
    ParseSub(d, cur, i, sd, x, Default(sd), rest);
    MergeIntoDefault(sd, x);
  }

  /** The first of `ms` goes in before the others, `more`. */
  lemma KeepTwice(d: Desc, cur: Message, i: nat, sd: Desc, x: Message, more: seq<Message>)
    requires Good(d) && Conforms(d, cur) && i < |d.fields| && Conforms(sd, x)
    requires d.fields[i].ty == TRepeated(sd) && ValueOk(TRepeated(sd), cur.vals[i]) && ValueOk(TRepeated(sd), Rep(more))
    ensures ValueOk(TRepeated(sd), Keep(d, cur, i, sd, x).vals[i])
    ensures ValueOk(TRepeated(sd), Rep(cur.vals[i].ms + ([x] + more)))
    ensures ValueOk(TRepeated(sd), Rep(Keep(d, cur, i, sd, x).vals[i].ms + more))
    ensures Store(d, Keep(d, cur, i, sd, x), i, Rep(Keep(d, cur, i, sd, x).vals[i].ms + more))
            == Store(d, cur, i, Rep(cur.vals[i].ms + ([x] + more)))
  {
    var was := cur.vals[i].ms;
    KeepOne(d, cur, i, sd, x);
    Regroup(was, x, more);
    AllConform(sd, [x], more);
    AllConform(sd, was, [x] + more);
    StoreTwice(d, cur, i, Rep(was + [x]), Rep(was + ([x] + more)));
  }

  lemma Regroup(was: seq<Message>, x: Message, more: seq<Message>)
    ensures (was + [x]) + more == was + ([x] + more)
  {
  }

  lemma AllConform(sd: Desc, was: seq<Message>, more: seq<Message>)
    requires ValueOk(TRepeated(sd), Rep(was)) && ValueOk(TRepeated(sd), Rep(more))
    ensures ValueOk(TRepeated(sd), Rep(was + more))
  {
  }

  lemma {:induction false} ParseList(d: Desc, cur: Message, i: nat, sd: Desc, ms: seq<Message>, rest: seq<Byte>)
    requires Good(d) && Conforms(d, cur) && i < |d.fields| && Good(sd)
    requires d.fields[i].ty == TRepeated(sd) && ValueOk(TRepeated(sd), Rep(ms)) && ValueOk(TRepeated(sd), cur.vals[i])
    requires ListSize(sd, ms) <= MAX_INT && CleanValue(Rep(ms))
    ensures ValueOk(TRepeated(sd), Rep(cur.vals[i].ms + ms))
    ensures Parse(d, cur, SerList(d.fields[i], sd, ms) + rest) ==
            Parse(d, Store(d, cur, i, Rep(cur.vals[i].ms + ms)), rest)
    decreases ms, 0
  {
    var f, was := d.fields[i], cur.vals[i].ms;
    if ms == [] {
      assert was + ms == was && SerList(f, sd, ms) + rest == rest;
      StoreSame(d, cur, i);
    } else {
      ListSplit(f, sd, ms, rest);
      KeepTwice(d, cur, i, sd, ms[0], ms[1..]);
      ParseOne(d, cur, i, sd, ms[0], SerList(f, sd, ms[1..]) + rest);
      ParseList(d, Keep(d, cur, i, sd, ms[0]), i, sd, ms[1..], rest);
    }
  }

  lemma ListSplit(f: Field, sd: Desc, ms: seq<Message>, rest: seq<Byte>)
    requires ms != [] && ValueOk(TRepeated(sd), Rep(ms))
    ensures ms == [ms[0]] + ms[1..] && ValueOk(TRepeated(sd), Rep(ms[1..]))
    ensures SerList(f, sd, ms) + rest == SerSub(f, sd, ms[0]) + (SerList(f, sd, ms[1..]) + rest)
    ensures ListSize(sd, ms) == SubSize(sd, ms[0]) + ListSize(sd, ms[1..])
    ensures CleanValue(Rep(ms)) <==> Clean(ms[0]) && CleanValue(Rep(ms[1..]))
  {
    assert SerSub(f, sd, ms[0]) + SerList(f, sd, ms[1..]) + rest == SerSub(f, sd, ms[0]) + (SerList(f, sd, ms[1..]) + rest);
    assert forall j | 0 < j < |ms| :: ms[j] == ms[1..][j - 1];
  }

  lemma StoreSame(d: Desc, m: Message, i: nat)
    requires Conforms(d, m) && i < |m.vals| && !d.fields[i].inBody && ValueOk(d.fields[i].ty, m.vals[i])
    ensures Store(d, m, i, m.vals[i]) == m
  {
  }

  lemma StoreTwice(d: Desc, m: Message, i: nat, v: Value, w: Value)
    requires Conforms(d, m) && i < |m.vals| && !d.fields[i].inBody
    requires ValueOk(d.fields[i].ty, v) && ValueOk(d.fields[i].ty, w)
    ensures Store(d, Store(d, m, i, v), i, w) == Store(d, m, i, w)
  {
  }

  lemma SerSplit(d: Desc, b: Message, n: nat, rest: seq<Byte>)
    requires Conforms(d, b) && n < |b.vals|
    ensures ValueOk(d.fields[n].ty, b.vals[n]) && (Clean(b) ==> CleanValue(b.vals[n]))
    ensures SerFrom(d, b, n) + rest == Ser(d.fields[n], b.vals[n]) + (SerFrom(d, b, n + 1) + rest)
    ensures SizeFrom(d, b, n) == FieldSize(d.fields[n], b.vals[n]) + SizeFrom(d, b, n + 1)
  {
    assert Ser(d.fields[n], b.vals[n]) + SerFrom(d, b, n + 1) + rest
        == Ser(d.fields[n], b.vals[n]) + (SerFrom(d, b, n + 1) + rest);
  }

  /** Parsing the fields of `b` from `n` on completes the merge, whatever follows. */
  predicate ParsesOn(d: Desc, a: Message, b: Message, n: nat, rest: seq<Byte>)
    requires Good(d) && Conforms(d, a) && Conforms(d, b) && n <= |b.vals|
  {
    Parse(d, MergeUpTo(d, a, b, n), SerFrom(d, b, n) + rest) == Parse(d, Merge(d, a, b), rest)
  }

  lemma NothingLeft(d: Desc, a: Message, b: Message, n: nat, rest: seq<Byte>)
    requires Good(d) && Conforms(d, a) && Conforms(d, b) && n == |b.vals|
    ensures ParsesOn(d, a, b, n, rest)
  {
    assert SerFrom(d, b, n) + rest == rest;
  }

  lemma {:induction false} ParseMergesFrom(d: Desc, a: Message, b: Message, n: nat, rest: seq<Byte>)
    requires Good(d) && Conforms(d, a) && Conforms(d, b) && n <= |b.vals|
    requires SizeFrom(d, b, n) <= MAX_INT && Clean(b)
    ensures ParsesOn(d, a, b, n, rest)
    decreases b, 1 + |b.vals| - n
  {
    if n == |b.vals| {
      NothingLeft(d, a, b, n, rest);
    } else {
      SerSplit(d, b, n, rest);
      ParseMergesFrom(d, a, b, n + 1, rest);
      ParseMergesNext(d, a, b, n, rest);
    }
  }

  /** One field of `b`. */
  lemma {:induction false} ParseMergesNext(d: Desc, a: Message, b: Message, n: nat, rest: seq<Byte>)
    requires Good(d) && Conforms(d, a) && Conforms(d, b) && n < |b.vals|
    requires SizeFrom(d, b, n) <= MAX_INT && Clean(b) && ParsesOn(d, a, b, n + 1, rest)
    ensures ParsesOn(d, a, b, n, rest)
    decreases b, 0
  {
    SerSplit(d, b, n, rest);
    ParseAbsorbs(d, MergeUpTo(d, a, b, n), n, b.vals[n], SerFrom(d, b, n + 1) + rest);
    MergeNext(d, a, b, n);
  }

  // ----- the laws ----------------------------------------------------------------------

  /** Parsing the serialization of `b` into `a` is `a.MergeFrom(b)`. */
  lemma {:induction false} ParseIsMerge(d: Desc, a: Message, b: Message)
    requires Good(d) && Conforms(d, a) && Conforms(d, b) && ByteSize(d, b) <= MAX_INT && Clean(b)
    ensures Parse(d, a, Serialize(d, b)) == Parsed(true, Merge(d, a, b))
    decreases b, |b.vals| + 2
  {
    MergeNone(d, a, b);
    ParseMergesFrom(d, a, b, 0, []);
    assert SerFrom(d, b, 0) + [] == Serialize(d, b);
  }

  // ----- strings that are not UTF-8 --------------------------------------------------------

  /** What of a field is stored by the time the parser refuses it: an invalid string is stored whole. */
  function ReceivedValue(ty: FieldType, v: Value): (r: Value)
    requires ValueOk(ty, v)
    ensures ValueOk(ty, r) && (IsSet(r) <==> IsSet(v)) && (CleanValue(v) ==> r == v)
    ensures v != DefaultValue(ty) ==> r != DefaultValue(ty)
    decreases v, 0
  {
    match v
    case Sub(Some(x)) => Sub(Some(Received(ty.desc, x)))
    case Rep(ms) => Rep(ReceivedList(ty.desc, ms))
    case _ => v
  }

  function ReceivedList(d: Desc, ms: seq<Message>): (rs: seq<Message>)
    requires forall i | 0 <= i < |ms| :: Conforms(d, ms[i])
    ensures forall i | 0 <= i < |rs| :: Conforms(d, rs[i])
    ensures (forall i | 0 <= i < |ms| :: Clean(ms[i])) ==> rs == ms
    ensures ms != [] ==> rs != []
    decreases ms, 0
  {
    if ms == [] then []
    else if Clean(ms[0]) then [ms[0]] + ReceivedList(d, ms[1..])
    else [Received(d, ms[0])]
  }

  predicate CleanUpTo(m: Message, n: nat)
    requires n <= |m.vals|
  {
    forall k | 0 <= k < n :: CleanValue(m.vals[k])
  }

  function ReceivedAt(d: Desc, m: Message, j: nat): (v: Value)
    requires Conforms(d, m) && j < |m.vals|
    ensures ValueOk(d.fields[j].ty, v) && (IsSet(v) ==> IsSet(m.vals[j]))
    ensures CleanUpTo(m, j) && CleanValue(m.vals[j]) ==> v == m.vals[j]
    decreases m, 0
  {
    assert ValueOk(d.fields[j].ty, m.vals[j]);
    if CleanUpTo(m, j) then ReceivedValue(d.fields[j].ty, m.vals[j]) else DefaultValue(d.fields[j].ty)
  }

  /** The part of a message up to and including its first invalid string, in field order. */
  function Received(d: Desc, m: Message): (r: Message)
    requires Conforms(d, m)
    ensures Conforms(d, r) && (Clean(m) ==> r == m)
    decreases m, 1
  {
    Message(seq(|m.vals|, j requires 0 <= j < |m.vals| => ReceivedAt(d, m, j)))
  }

  lemma {:induction false} ParseStopsAtField(d: Desc, cur: Message, i: nat, v: Value, rest: seq<Byte>)
    requires Good(d) && Conforms(d, cur) && i < |d.fields| && ValueOk(d.fields[i].ty, v)
    requires FieldSize(d.fields[i], v) <= MAX_INT && !CleanValue(v)
    ensures Parse(d, cur, Ser(d.fields[i], v) + rest)
            == Parsed(false, Absorb(d, cur, i, ReceivedValue(d.fields[i].ty, v)))
    decreases v, 0
  {
    var f := d.fields[i];
    assert GoodType(f.ty) && ValueOk(f.ty, cur.vals[i]);
    match v
    case Str(s) =>
      assert Ser(f, v) + rest == Varint.Encode(Tag(f)) + (Varint.Encode(|s|) + s + rest);
      ParseRecord(d, cur, i, Varint.Encode(|s|) + s + rest);
      ReadsBytes(s, rest);
    case Sub(Some(x)) =>
      ParseStopsAtSub(d, cur, i, f.ty.desc, x, Mutable(f.ty.desc, cur.vals[i]), rest);
    case Rep(ms) =>
      ParseStopsAtList(d, cur, i, f.ty.desc, ms, rest);
  }

  lemma {:induction false} ParseStopsAtSub(d: Desc, cur: Message, i: nat, sd: Desc, x: Message, into: Message, rest: seq<Byte>)
    requires Good(d) && Conforms(d, cur) && i < |d.fields| && Good(sd) && Conforms(sd, x) && Conforms(sd, into)
    requires StartsFrom(d, cur, i, sd, into) && SubSize(sd, x) <= MAX_INT && !Clean(x)
    ensures Parse(d, cur, SerSub(d.fields[i], sd, x) + rest)
            == Parsed(false, Keep(d, cur, i, sd, Merge(sd, into, Received(sd, x))))
    decreases x, |x.vals| + 2
  {
    ParseSubRecord(d, cur, i, sd, x, into, rest);
    MergeNone(sd, into, x);
    ParseStopsFrom(sd, into, x, 0);
  }

  lemma {:induction false} ParseStopsAtList(d: Desc, cur: Message, i: nat, sd: Desc, ms: seq<Message>, rest: seq<Byte>)
    requires Good(d) && Conforms(d, cur) && i < |d.fields| && Good(sd)
    requires d.fields[i].ty == TRepeated(sd) && ValueOk(TRepeated(sd), Rep(ms)) && ValueOk(TRepeated(sd), cur.vals[i])
    requires ListSize(sd, ms) <= MAX_INT && !CleanValue(Rep(ms))
    ensures ValueOk(TRepeated(sd), Rep(cur.vals[i].ms + ReceivedList(sd, ms)))
    ensures Parse(d, cur, SerList(d.fields[i], sd, ms) + rest)
            == Parsed(false, Store(d, cur, i, Rep(cur.vals[i].ms + ReceivedList(sd, ms))))
    decreases ms, 0
  {
    var f, x := d.fields[i], ms[0];
    ListSplit(f, sd, ms, rest);
    if Clean(x) {
      var more := ReceivedList(sd, ms[1..]);
      KeepTwice(d, cur, i, sd, x, more);
      ParseOne(d, cur, i, sd, x, SerList(f, sd, ms[1..]) + rest);
      ParseStopsAtList(d, Keep(d, cur, i, sd, x), i, sd, ms[1..], rest);
    } else {
      ParseStopsAtSub(d, cur, i, sd, x, Default(sd), SerList(f, sd, ms[1..]) + rest);
      MergeIntoDefault(sd, Received(sd, x));
      KeepOne(d, cur, i, sd, Received(sd, x));
    }
  }

  /** A merge of the first fields does not depend on the others. */
  lemma SameStart(d: Desc, a: Message, b: Message, c: Message, n: nat)
    requires Good(d) && Conforms(d, a) && Conforms(d, b) && Conforms(d, c) && n <= |b.vals| && b.vals[..n] == c.vals[..n]
    ensures MergeUpTo(d, a, b, n) == MergeUpTo(d, a, c, n)
  {
    forall j | 0 <= j < |b.vals|
      ensures MergedAt(d, a, b, n, j) == MergedAt(d, a, c, n, j)
    {
      assert forall k | 0 <= k < n :: b.vals[k] == c.vals[k];
    }
  }

  /** Default fields at the end add nothing to a merge. */
  lemma {:induction false} DefaultsAddNothing(d: Desc, a: Message, b: Message, n: nat)
    requires Good(d) && Conforms(d, a) && Conforms(d, b) && n <= |b.vals|
    requires forall j | n <= j < |b.vals| :: b.vals[j] == DefaultValue(d.fields[j].ty)
    ensures Merge(d, a, b) == MergeUpTo(d, a, b, n)
    decreases |b.vals| - n
  {
    if n == |b.vals| {
    } else {
      assert ValueOk(d.fields[n].ty, b.vals[n]);
      MergeNext(d, a, b, n);
      DefaultsAddNothing(d, a, b, n + 1);
    }
  }

  /** Before, at and behind the first field that is not clean. */
  lemma ReceivedParts(d: Desc, b: Message, n: nat)
    requires Conforms(d, b) && n < |b.vals| && CleanUpTo(b, n) && !CleanValue(b.vals[n])
    ensures ValueOk(d.fields[n].ty, b.vals[n])
    ensures b.vals[..n] == Received(d, b).vals[..n]
    ensures Received(d, b).vals[n] == ReceivedValue(d.fields[n].ty, b.vals[n])
    ensures forall j | n < j < |b.vals| :: Received(d, b).vals[j] == DefaultValue(d.fields[j].ty)
  {
    var r := Received(d, b);
    forall j | 0 <= j < n
      ensures r.vals[j] == b.vals[j]
    {
      assert r.vals[j] == ReceivedAt(d, b, j);
    }
    assert r.vals[n] == ReceivedAt(d, b, n);
    forall j | n < j < |b.vals|
      ensures r.vals[j] == DefaultValue(d.fields[j].ty)
    {
      assert !CleanUpTo(b, j) by { assert !CleanValue(b.vals[n]); }
      assert r.vals[j] == ReceivedAt(d, b, j);
    }
  }

  lemma StopsHere(d: Desc, a: Message, b: Message, n: nat)
    requires Good(d) && Conforms(d, a) && Conforms(d, b) && n < |b.vals| && CleanUpTo(b, n) && !CleanValue(b.vals[n])
    ensures ValueOk(d.fields[n].ty, b.vals[n])
    ensures Absorb(d, MergeUpTo(d, a, b, n), n, ReceivedValue(d.fields[n].ty, b.vals[n])) == Merge(d, a, Received(d, b))
  {
    ReceivedParts(d, b, n);
    AbsorbsLast(d, a, b, Received(d, b), n);
  }

  /** Field `n` of `r` completes the merge when it is the last that is set. */
  lemma AbsorbsLast(d: Desc, a: Message, b: Message, r: Message, n: nat)
    requires Good(d) && Conforms(d, a) && Conforms(d, b) && Conforms(d, r) && n < |b.vals|
    requires b.vals[..n] == r.vals[..n] && ValueOk(d.fields[n].ty, r.vals[n])
    requires forall j | n < j < |r.vals| :: r.vals[j] == DefaultValue(d.fields[j].ty)
    ensures Absorb(d, MergeUpTo(d, a, b, n), n, r.vals[n]) == Merge(d, a, r)
  {
    SameStart(d, a, b, r, n);
    MergeNext(d, a, r, n);
    DefaultsAddNothing(d, a, r, n + 1);
  }

  lemma {:induction false} ParseStopsFrom(d: Desc, a: Message, b: Message, n: nat)
    requires Good(d) && Conforms(d, a) && Conforms(d, b) && n <= |b.vals|
    requires SizeFrom(d, b, n) <= MAX_INT && CleanUpTo(b, n) && !Clean(b)
    ensures Parse(d, MergeUpTo(d, a, b, n), SerFrom(d, b, n)) == Parsed(false, Merge(d, a, Received(d, b)))
    decreases b, |b.vals| - n
  {
    if n == |b.vals| {
      assert false;
    } else {
      var rest := SerFrom(d, b, n + 1);
      assert ValueOk(d.fields[n].ty, b.vals[n]);
      if CleanValue(b.vals[n]) {
        ParseAbsorbs(d, MergeUpTo(d, a, b, n), n, b.vals[n], rest);
        MergeNext(d, a, b, n);
        ParseStopsFrom(d, a, b, n + 1);
      } else {
        ParseStopsAtField(d, MergeUpTo(d, a, b, n), n, b.vals[n], rest);
        StopsHere(d, a, b, n);
      }
    }
  }

  /**
    Parsing any serialization, with valid strings or not: what was received up to
    and including the first invalid string is merged in, and the parse succeeds
    exactly if there was none.
   */
  lemma ParseMergesReceived(d: Desc, a: Message, b: Message)
    requires Good(d) && Conforms(d, a) && Conforms(d, b) && ByteSize(d, b) <= MAX_INT
    ensures Parse(d, a, Serialize(d, b)) == Parsed(Clean(b), Merge(d, a, Received(d, b)))
  {
    if Clean(b) {
      ParseIsMerge(d, a, b);
    } else {
      MergeNone(d, a, b);
      ParseStopsFrom(d, a, b, 0);
    }
  }

  /**
    Parse undoes serialize exactly for the messages whose strings are all valid
    UTF-8: the serializer writes the others too, and the parser refuses them, keeping
    what it had received.
   */
  lemma RoundTrip(d: Desc, m: Message)
    requires Good(d) && Conforms(d, m) && ByteSize(d, m) <= MAX_INT
    ensures Parse(d, Default(d), Serialize(d, m)) == Parsed(Clean(m), Received(d, m))
    ensures Clean(m) ==> Parse(d, Default(d), Serialize(d, m)) == Parsed(true, m)
  {
    ParseMergesReceived(d, Default(d), m);
    MergeIntoDefault(d, Received(d, m));
  }

  /** Two serializations one after the other parse to the merge of the two messages. */
  lemma ParseConcatenation(d: Desc, a: Message, b: Message)
    requires Good(d) && Conforms(d, a) && Conforms(d, b) && ByteSize(d, a) <= MAX_INT && ByteSize(d, b) <= MAX_INT
    requires Clean(a) && Clean(b)
    ensures Parse(d, Default(d), Serialize(d, a) + Serialize(d, b)) == Parsed(true, Merge(d, a, b))
  {
    MergeNone(d, Default(d), a);
    ParseMergesFrom(d, Default(d), a, 0, Serialize(d, b));
    MergeIntoDefault(d, a);
    ParseIsMerge(d, a, b);
  }
}
