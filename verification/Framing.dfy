/**
  `TcpSocket`: frames of four length bytes, most significant first, and a payload,
  over a byte stream that `send` and `recv` split as they please.
 */
module Framing {
  import opened Basics

  const PEER_CLOSE_ERROR := 3003
  const BUFFER_SIZE := 1024

  // ----- frames --------------------------------------------------------------------

  function BigEndian(n: nat): (t: Text)
    requires n < TWO_32
    ensures |t| == 4
  {
    [n / 0x100 / 0x100 / 0x100, n / 0x100 / 0x100 % 0x100, n / 0x100 % 0x100, n % 0x100]
  }

  /** `ntohl` into an `int`: lengths from 2^31 on come out negative. */
  function SignedLength(t: Text): int
    requires |t| == 4
  {
    var n: int := ((t[0] as int * 0x100 + t[1]) * 0x100 + t[2]) * 0x100 + t[3];
    if n < TWO_31 then n else n - TWO_32
  }

  lemma LengthRoundTrip(n: nat)
    requires n < TWO_32
    ensures SignedLength(BigEndian(n)) == if n < TWO_31 then n else n - TWO_32
  {
  }

  /** The most significant byte goes first. */
  lemma MostSignificantFirst(n: nat)
    requires n < TWO_32
    ensures var t := BigEndian(n); 0x100_0000 * t[0] as int + 0x1_0000 * t[1] as int + 0x100 * t[2] as int + t[3] as int == n
  {
  }

  /** A payload that `sendMsg` can frame within an `int`. */
  predicate Sendable(d: Text) {
    |d| + 4 < TWO_31
  }

  function Frame(d: Text): Text
    requires Sendable(d)
  {
    BigEndian(|d|) + d
  }

  function Frames(ds: seq<Text>): Text
    requires forall d | d in ds :: Sendable(d)
  {
    if ds == [] then [] else Frame(ds[0]) + Frames(ds[1..])
  }

  /** What one `recvMsg` makes of the rest of a stream: a payload and a new rest, or nothing when the stream ends early. */
  function NextFrame(stream: Text): Option<(Text, Text)> {
    if |stream| < 4 then None
    else
      var n := SignedLength(stream[..4]);
      if n <= 0 then Some(([], stream[4..]))
      else if |stream| < 4 + n then None
      else Some((stream[4..4 + n], stream[4 + n..]))
  }

  function ReceivedFrom(stream: Text): seq<Text>
    decreases |stream|
  {
    match NextFrame(stream)
    case None => []
    case Some((d, rest)) => [d] + ReceivedFrom(rest)
  }

  /** How many of the frames lie within the first `k` bytes. */
  function WholeFrames(ds: seq<Text>, k: nat): (m: nat)
    requires forall d | d in ds :: Sendable(d)
    ensures m <= |ds|
  {
    if ds == [] || k < |Frame(ds[0])| then 0 else 1 + WholeFrames(ds[1..], k - |Frame(ds[0])|)
  }

  lemma FirstFrame(d: Text, rest: Text, k: nat)
    requires Sendable(d) && k <= |Frame(d)| + |rest|
    ensures NextFrame((Frame(d) + rest)[..k])
            == if k < |Frame(d)| then None else Some((d, rest[..k - |Frame(d)|]))
  {
    var stream := (Frame(d) + rest)[..k];
    if 4 <= k {
      assert stream[..4] == BigEndian(|d|);
      LengthRoundTrip(|d|);
      if |Frame(d)| <= k {
        assert stream[4..4 + |d|] == d;
        assert stream[4 + |d|..] == rest[..k - |Frame(d)|];
      }
    }
  }

  /**
    Cut off anywhere, the frames of any payloads are received as exactly those
    payloads whose frames arrived whole: never a truncated one, never another one.
   */
  lemma {:induction false} CutStream(ds: seq<Text>, k: nat)
    requires (forall d | d in ds :: Sendable(d)) && k <= |Frames(ds)|
    ensures ReceivedFrom(Frames(ds)[..k]) == ds[..WholeFrames(ds, k)]
  {
    if ds == [] {
    } else {
      var d, rest := ds[0], ds[1..];
      FirstFrame(d, Frames(rest), k);
      if |Frame(d)| <= k {
        CutStream(rest, k - |Frame(d)|);
        assert ds[..WholeFrames(ds, k)] == [d] + rest[..WholeFrames(rest, k - |Frame(d)|)];
      }
    }
  }

  lemma {:induction false} AllFramesAreWhole(ds: seq<Text>)
    requires forall d | d in ds :: Sendable(d)
    ensures WholeFrames(ds, |Frames(ds)|) == |ds|
  {
    if ds == [] {
    } else {
      AllFramesAreWhole(ds[1..]);
    }
  }

  /** Sent in full, a sequence of payloads arrives as the same sequence. */
  lemma FramesRoundTrip(ds: seq<Text>)
    requires forall d | d in ds :: Sendable(d)
    ensures ReceivedFrom(Frames(ds)) == ds
  {
    CutStream(ds, |Frames(ds)|);
    AllFramesAreWhole(ds);
    assert Frames(ds)[..|Frames(ds)|] == Frames(ds);
  }

  /**
    A frame whose length field is 2^31 or more is taken for an empty message, its
    payload for the frames that follow; that is the only way a received payload
    can differ from the announced length.
   */
  lemma AnnouncedLength(n: nat, rest: Text)
    requires n < TWO_32
    ensures match NextFrame(BigEndian(n) + rest)
            case None => n < TWO_31 && |rest| < n
            case Some((d, after)) => rest == d + after && (|d| == n <==> n < TWO_31) && (n >= TWO_31 ==> d == [])
  {
    assert (BigEndian(n) + rest)[..4] == BigEndian(n);
    LengthRoundTrip(n);
    assert (BigEndian(n) + rest)[4..] == rest;
    if n < TWO_31 && n <= |rest| {
      assert (BigEndian(n) + rest)[4..4 + n] == rest[..n];
      assert (BigEndian(n) + rest)[4 + n..] == rest[n..];
    }
  }

  // ----- sending -------------------------------------------------------------------

  /** What one `send` call does. */
  datatype SendEvent = Takes(n: nat) | Interrupted | TakesNone | Fails

  predicate Fatal(e: SendEvent) {
    e.TakesNone? || e.Fails?
  }

  predicate Undisturbed(events: seq<SendEvent>) {
    forall i | 0 <= i < |events| :: !Fatal(events[i])
  }

  /** The calls made so far, and one more. */
  lemma OneMoreSend(all: seq<SendEvent>, before: seq<SendEvent>, after: seq<SendEvent>)
    requires |before| <= |all| && before == all[|all| - |before|..]
    requires after == if before == [] then [] else before[1..]
    ensures |after| <= |all| && after == all[|all| - |after|..]
    ensures Undisturbed(all[..|all| - |after|])
            <==> Undisturbed(all[..|all| - |before|]) && (before == [] || !Fatal(before[0]))
  {
    if before != [] {
      var k := |all| - |before|;
      assert all[..k + 1] == all[..k] + [before[0]];
    }
  }

  /** The writing end: the bytes on the wire, and what the coming `send` calls will do; after those they take everything. */
  class Sender {
    var wire: Text
    var events: seq<SendEvent>

    constructor (events: seq<SendEvent>)
      ensures wire == [] && this.events == events
    {
      wire, this.events := [], events;
    }

    /** `send`: a positive count, 0, -1 for EINTR and -2 for any other error. */
    method Send(data: Text) returns (n: int)
      requires data != []
      modifies this
      ensures n <= |data| && wire == old(wire) + if n > 0 then data[..n] else []
      ensures events == if old(events) == [] then [] else old(events)[1..]
      ensures n <= 0 ==> old(events) != [] && (n == -1 <==> old(events)[0].Interrupted?)
      ensures n <= 0 && n != -1 <==> old(events) != [] && Fatal(old(events)[0])
    {
      if events == [] {
        wire := wire + data;
        assert data[..|data|] == data;
        return |data|;
      }
      var e := events[0];
      events := events[1..];
      match e {
        case Takes(k) =>
          n := if k == 0 then 1 else if k > |data| then |data| else k;
          wire := wire + data[..n];
        case Interrupted => n := -1;
        case TakesNone => n := 0;
        case Fails => n := -2;
      }
    }

    /** Success puts all of the data on the wire, failure a proper prefix; interruptions do not matter. */
    method Writen(data: Text) returns (ret: int)
      modifies this
      ensures ret == 0 || ret == -1
      ensures ret == 0 ==> wire == old(wire) + data
      ensures ret != 0 ==> exists k :: 0 <= k < |data| && wire == old(wire) + data[..k]
      ensures |events| <= |old(events)| && events == old(events)[|old(events)| - |events|..]
      ensures ret == 0 <==> Undisturbed(old(events)[..|old(events)| - |events|])
    {
      var done := 0;
      assert wire == Written(old(wire), data, done);
      while done < |data|
        invariant 0 <= done <= |data| && wire == Written(old(wire), data, done)
        invariant |events| <= |old(events)| && events == old(events)[|old(events)| - |events|..]
        invariant Undisturbed(old(events)[..|old(events)| - |events|])
        decreases |events| + |data| - done
      {
        ghost var before := events;
        var written := Send(data[done..]);
        OneMoreSend(old(events), before, events);
        if written == -1 {
          continue;
        }
        if written <= 0 {
          return -1;
        }
        WrittenGrows(old(wire), data, done, written);
        done := done + written;
      }
      assert data[..done] == data;
      return 0;
    }

    method SendMsg(data: Text) returns (ret: int)
      requires Sendable(data)
      modifies this
      ensures ret == 0 ==> wire == old(wire) + Frame(data)
      ensures ret != 0 ==> exists k :: 0 <= k < |Frame(data)| && wire == old(wire) + Frame(data)[..k]
      ensures |events| <= |old(events)| && events == old(events)[|old(events)| - |events|..]
      ensures ret == 0 <==> Undisturbed(old(events)[..|old(events)| - |events|])
    {
      ghost var before := wire;
      ret := Writen(Frame(data));
      if ret != 0 {
        ghost var k :| 0 <= k < |Frame(data)| && wire == before + Frame(data)[..k];
        assert wire == old(wire) + Frame(data)[..k];
      }
    }
  }

  /** The wire after the first `done` bytes of the data. */
  function Written(wire: Text, data: Text, done: nat): Text
    requires done <= |data|
  {
    wire + data[..done]
  }

  lemma WrittenGrows(wire: Text, data: Text, done: nat, n: nat)
    requires done + n <= |data|
    ensures Written(wire, data, done) + data[done..][..n] == Written(wire, data, done + n)
  {
    assert data[..done] + data[done..][..n] == data[..done + n];
  }

  // ----- receiving -----------------------------------------------------------------

  /** What one `recv` call does; an interruption is an error here. */
  datatype RecvEvent = Gives(n: nat) | Breaks

  predicate Unbroken(events: seq<RecvEvent>) {
    forall i | 0 <= i < |events| :: !events[i].Breaks?
  }

  /** The calls made so far, and one more. */
  lemma OneMoreRecv(all: seq<RecvEvent>, before: seq<RecvEvent>, after: seq<RecvEvent>)
    requires |before| <= |all| && before == all[|all| - |before|..]
    requires after == if before == [] then [] else before[1..]
    ensures |after| <= |all| && after == all[|all| - |after|..]
    ensures Unbroken(all[..|all| - |after|])
            <==> Unbroken(all[..|all| - |before|]) && (before == [] || !before[0].Breaks?)
  {
    if before != [] {
      var k := |all| - |before|;
      assert all[..k + 1] == all[..k] + [before[0]];
    }
  }

  /** The reading end: the bytes still to come before the peer closes. */
  class Receiver {
    var pending: Text
    var events: seq<RecvEvent>

    constructor (pending: Text, events: seq<RecvEvent>)
      ensures this.pending == pending && this.events == events
    {
      this.pending, this.events := pending, events;
    }

    /** `recv`: at most `max` bytes and at least one, 0 at the end of the stream, -1 for any error. */
    method Recv(max: nat) returns (n: int, chunk: Text)
      requires max > 0
      modifies this
      ensures n == -1 <==> old(events) != [] && old(events)[0].Breaks?
      ensures n == 0 ==> old(pending) == []
      ensures n <= 0 ==> chunk == [] && pending == old(pending)
      ensures n >= -1
      ensures n > 0 ==> |chunk| == n <= max && old(pending) == chunk + pending
      ensures events == if old(events) == [] then [] else old(events)[1..]
    {
      n, chunk := max, [];
      if events != [] {
        var e := events[0];
        events := events[1..];
        if e.Breaks? {
          return -1, [];
        }
        n := if e.n == 0 then 1 else if e.n > max then max else e.n;
      }
      n := if n > |pending| then |pending| else n;
      chunk, pending := pending[..n], pending[n..];
    }

    /** A length that is not positive reads nothing and succeeds. */
    method Readn(len: int) returns (ret: int, data: Text)
      modifies this
      ensures ret in {0, PEER_CLOSE_ERROR, -1} && old(pending) == data + pending
      ensures ret == 0 ==> |data| == if len > 0 then len else 0
      ensures ret == PEER_CLOSE_ERROR ==> pending == [] && |data| < len
      ensures |events| <= |old(events)| && events == old(events)[|old(events)| - |events|..]
      ensures ret == -1 <==> !Unbroken(old(events)[..|old(events)| - |events|])
      ensures ret == -1 ==> |data| < len
    {
      var left := len;
      data := [];
      assert old(pending) == data + pending;
      while left > 0
        invariant left == len - |data| && (len > 0 ==> left >= 0) && (len <= 0 ==> data == [])
        invariant old(pending) == data + pending
        invariant |events| <= |old(events)| && events == old(events)[|old(events)| - |events|..]
        invariant Unbroken(old(events)[..|old(events)| - |events|])
      {
        var readLen := if left > BUFFER_SIZE then BUFFER_SIZE else left;
        ghost var before := events;
        var nread, chunk := Recv(readLen);
        OneMoreRecv(old(events), before, events);
        if nread > 0 {
          data := data + chunk;
          left := left - nread;
        } else if nread == 0 {
          return PEER_CLOSE_ERROR, data;
        } else {
          return -1, data;
        }
      }
      return 0, data;
    }

    /** Success is the next frame of the stream, whole. */
    method RecvMsg() returns (ret: int, data: Text)
      modifies this
      ensures ret == 0 ==> NextFrame(old(pending)) == Some((data, pending))
      ensures |events| <= |old(events)| && events == old(events)[|old(events)| - |events|..]
      // an error exactly if some call failed, the end of the stream exactly if it comes before the end of a frame
      ensures ret in {0, PEER_CLOSE_ERROR, -1}
      ensures ret == -1 <==> !Unbroken(old(events)[..|old(events)| - |events|])
      // success exactly if no call failed and the stream holds a whole frame
      ensures ret == 0 <==> Unbroken(old(events)[..|old(events)| - |events|]) && NextFrame(old(pending)).Some?
    {
      ghost var stream := pending;
      var lenBuf;
      ret, lenBuf := Readn(4);
      if ret == PEER_CLOSE_ERROR {
        NoHeader(stream);
      }
      if ret != 0 {
        return ret, [];
      }
      ghost var after, left := pending, events;
      var netLen := SignedLength(lenBuf);
      ret, data := Readn(netLen);
      TwoReads(old(events), left, events);
      if ret == 0 {
        WholeFrame(stream, lenBuf, data, pending);
      } else if ret == PEER_CLOSE_ERROR {
        NoPayload(stream, lenBuf, after);
      }
    }
  }

  /** The stream ends within the length. */
  lemma NoHeader(stream: Text)
    requires |stream| < 4
    ensures NextFrame(stream).None?
  {
  }

  /** The stream ends within the payload. */
  lemma NoPayload(stream: Text, header: Text, after: Text)
    requires |header| == 4 && stream == header + after && |after| < SignedLength(header)
    ensures NextFrame(stream).None?
  {
    assert stream[..4] == header;
  }

  lemma WholeFrame(stream: Text, header: Text, data: Text, rest: Text)
    requires |header| == 4 && stream == header + (data + rest)
    requires |data| == if SignedLength(header) > 0 then SignedLength(header) else 0
    ensures NextFrame(stream) == Some((data, rest))
  {
    assert stream[..4] == header;
    assert stream[4..4 + |data|] == data && stream[4 + |data|..] == rest;
  }

  /** The calls of two reads, one after the other, are unbroken exactly if those of each are. */
  lemma TwoReads(all: seq<RecvEvent>, mid: seq<RecvEvent>, rest: seq<RecvEvent>)
    requires |mid| <= |all| && mid == all[|all| - |mid|..]
    requires |rest| <= |mid| && rest == mid[|mid| - |rest|..]
    ensures rest == all[|all| - |rest|..]
    ensures Unbroken(all[..|all| - |rest|])
            <==> Unbroken(all[..|all| - |mid|]) && Unbroken(mid[..|mid| - |rest|])
  {
    var first, second := all[..|all| - |mid|], mid[..|mid| - |rest|];
    assert all[..|all| - |rest|] == first + second;
    UnbrokenParts(first, second);
  }

  lemma UnbrokenParts(a: seq<RecvEvent>, b: seq<RecvEvent>)
    ensures Unbroken(a + b) <==> Unbroken(a) && Unbroken(b)
  {
    if Unbroken(a + b) {
      assert forall i | 0 <= i < |a| :: a[i] == (a + b)[i];
      assert forall i | 0 <= i < |b| :: b[i] == (a + b)[|a| + i];
    }
  }

  // ----- conversations -------------------------------------------------------------

  /** Sends payloads until one fails. What is on the wire is then cut off inside the failed frame. */
  method SendAll(s: Sender, ds: seq<Text>) returns (sent: nat)
    requires forall d | d in ds :: Sendable(d)
    modifies s
    ensures sent <= |ds|
    ensures sent == |ds| ==> s.wire == old(s.wire) + Frames(ds)
    ensures sent < |ds| ==> exists k :: 0 <= k < |Frame(ds[sent])| && s.wire == old(s.wire) + Frames(ds[..sent]) + Frame(ds[sent])[..k]
    ensures Undisturbed(old(s.events)) ==> sent == |ds|
  {
    sent := 0;
    while sent < |ds|
      invariant 0 <= sent <= |ds| && s.wire == old(s.wire) + Frames(ds[..sent])
      invariant |s.events| <= |old(s.events)| && s.events == old(s.events)[|old(s.events)| - |s.events|..]
    {
      var ret := s.SendMsg(ds[sent]);
      if ret != 0 {
        return;
      }
      FramesSnoc(ds[..sent], ds[sent]);
      assert ds[..sent] + [ds[sent]] == ds[..sent + 1];
      sent := sent + 1;
    }
    assert ds[..sent] == ds;
  }

  lemma {:induction false} FramesSnoc(ds: seq<Text>, d: Text)
    requires (forall x | x in ds :: Sendable(x)) && Sendable(d)
    ensures Frames(ds + [d]) == Frames(ds) + Frame(d)
  {
    if ds == [] {
      assert ds + [d] == [d];
    } else {
      assert (ds + [d])[1..] == ds[1..] + [d];
      FramesSnoc(ds[1..], d);
    }
  }

  /** Receives until the stream ends or breaks. */
  method ReceiveAll(r: Receiver) returns (ds: seq<Text>)
    modifies r
    ensures ds <= ReceivedFrom(old(r.pending))
    ensures Unbroken(old(r.events)) ==> ds == ReceivedFrom(old(r.pending))
  {
    ds := [];
    while true
      invariant ds + ReceivedFrom(r.pending) == ReceivedFrom(old(r.pending))
      invariant |r.events| <= |old(r.events)| && r.events == old(r.events)[|old(r.events)| - |r.events|..]
      decreases |r.pending|
    {
      ghost var rest, left := r.pending, r.events;
      var ret, d := r.RecvMsg();
      if ret != 0 {
        if Unbroken(old(r.events)) {
          UnbrokenParts(old(r.events)[..|old(r.events)| - |left|], left);
          assert old(r.events) == old(r.events)[..|old(r.events)| - |left|] + left;
          UnbrokenParts(left[..|left| - |r.events|], r.events);
          assert left == left[..|left| - |r.events|] + r.events;
          assert ReceivedFrom(rest) == [];
        }
        return;
      }
      TwoReads(old(r.events), left, r.events);
      assert ReceivedFrom(rest) == [d] + ReceivedFrom(r.pending);
      ds := ds + [d];
    }
  }

  /**
    Both ends together, over any splitting of the stream and any interruptions of
    `send`: the receiver gets a prefix of what was sent, all of it when no call fails.
   */
  method Converse(ds: seq<Text>, sends: seq<SendEvent>, recvs: seq<RecvEvent>) returns (got: seq<Text>)
    requires forall d | d in ds :: Sendable(d)
    ensures got <= ds
    ensures Undisturbed(sends) && Unbroken(recvs) ==> got == ds
  {
    var s := new Sender(sends);
    var sent := SendAll(s, ds);
    assert OnWire(ds, sent, s.wire);
    WireIsReceived(ds, sent, s.wire);
    var r := new Receiver(s.wire, recvs);
    got := ReceiveAll(r);
  }

  /** What is on the wire when `sent` payloads went out: their frames, and part of the next if one failed. */
  ghost predicate OnWire(ds: seq<Text>, sent: nat, wire: Text)
    requires (forall d | d in ds :: Sendable(d)) && sent <= |ds|
  {
    if sent == |ds| then wire == Frames(ds)
    else exists k :: 0 <= k < |Frame(ds[sent])| && wire == Frames(ds[..sent]) + Frame(ds[sent])[..k]
  }

  lemma WireIsReceived(ds: seq<Text>, sent: nat, wire: Text)
    requires (forall d | d in ds :: Sendable(d)) && sent <= |ds| && OnWire(ds, sent, wire)
    ensures ReceivedFrom(wire) <= ds && (sent == |ds| ==> ReceivedFrom(wire) == ds)
  {
    if sent == |ds| {
      FramesRoundTrip(ds);
    } else {
      var k :| 0 <= k < |Frame(ds[sent])| && wire == Frames(ds[..sent]) + Frame(ds[sent])[..k];
      WireIsCut(ds, sent, k);
      CutStream(ds, |wire|);
    }
  }

  lemma {:induction false} WireIsCut(ds: seq<Text>, sent: nat, k: nat)
    requires (forall d | d in ds :: Sendable(d)) && sent < |ds| && k <= |Frame(ds[sent])|
    ensures var wire := Frames(ds[..sent]) + Frame(ds[sent])[..k];
            |wire| <= |Frames(ds)| && wire == Frames(ds)[..|wire|]
  {
    if sent > 0 {
      WireIsCut(ds[1..], sent - 1, k);
      assert ds[..sent][1..] == ds[1..][..sent - 1];
    }
  }
}
