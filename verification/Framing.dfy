/** Cutting the received byte stream into packets: PacketFramer::Pop, and the specification of
    popping until nothing more comes out. */
module Framing {
  import opened Bytes
  import opened CStrings
  import opened PacketFormat
  import opened Buffers
  import opened RingBuffers

  const MAX_PACKET: nat := 32 * 1024

  datatype PopResult = Ok | NeedMore | Malformed

  /** What Pop decides about the bytes received so far. */
  function Verdict(b: seq<Byte>): PopResult {
    if |b| < HEADER then NeedMore
    else
      var n := ParseHeader(b).size;
      if n < HEADER || n > MAX_PACKET then Malformed
      else if |b| < n then NeedMore
      else Ok
  }

  /** One Pop: on Ok the front packet is consumed, otherwise the buffer is left as it was. */
  method Pop(rb: RingBuffer) returns (r: PopResult, packet: array<Byte>)
    requires rb.Valid()
    modifies rb
    ensures rb.Valid() && fresh(packet)
    ensures r == Verdict(old(rb.Contents()))
    ensures r == Ok ==>
              && packet[..] == old(rb.Contents())[..ParseHeader(old(rb.Contents())).size]
              && rb.Contents() == old(rb.Contents())[ParseHeader(old(rb.Contents())).size..]
    ensures r != Ok ==> rb.Contents() == old(rb.Contents())
  {
    ghost var b := rb.Contents();
    packet := new Byte[0];
    if rb.Readable() < HEADER { return NeedMore, packet; }
    var image := new Byte[HEADER];
    var peeked := rb.Peek(image, HEADER);
    assert image[..] == b[..HEADER];
    assert b[..HEADER][0..2] == b[0..2] && b[..HEADER][2..4] == b[2..4];
    var h := HeaderAt(image, HEADER);
    if h.size < HEADER || h.size > MAX_PACKET { return Malformed, packet; }
    if rb.Readable() < h.size { return NeedMore, packet; }
    packet := new Byte[h.size];
    var got := rb.Read(packet, h.size);
    assert got == h.size;
    return Ok, packet;
  }

  // ---- popping until the verdict is no longer Ok

  datatype Deframed = Deframed(frames: seq<seq<Byte>>, rest: seq<Byte>, malformed: bool)

  function Frames(b: seq<Byte>): (d: Deframed)
    ensures Verdict(d.rest) != Ok && (d.malformed <==> Verdict(d.rest) == Malformed)
    decreases |b|
  {
    if Verdict(b) == Ok then
      var n := ParseHeader(b).size;
      var d := Frames(b[n..]);
      Deframed([b[..n]] + d.frames, d.rest, d.malformed)
    else
      Deframed([], b, Verdict(b) == Malformed)
  }

  function Flatten(parts: seq<seq<Byte>>): seq<Byte> {
    if parts == [] then [] else parts[0] + Flatten(parts[1..])
  }

  lemma {:induction false} FlattenConcat(a: seq<seq<Byte>>, b: seq<seq<Byte>>)
    ensures Flatten(a + b) == Flatten(a) + Flatten(b)
  {
    if a == [] {
      assert a + b == b;
    } else {
      assert (a + b)[0] == a[0] && (a + b)[1..] == a[1..] + b;
      FlattenConcat(a[1..], b);
      assert a[0] + (Flatten(a[1..]) + Flatten(b)) == (a[0] + Flatten(a[1..])) + Flatten(b);
    }
  }

  lemma FlattenCons(x: seq<Byte>, parts: seq<seq<Byte>>)
    ensures Flatten([x] + parts) == x + Flatten(parts)
  {
    assert ([x] + parts)[1..] == parts;
  }

  /** More bytes behind a decided front change neither the verdict nor the packet size. */
  lemma VerdictStable(a: seq<Byte>, b: seq<Byte>)
    requires Verdict(a) != NeedMore
    ensures Verdict(a + b) == Verdict(a)
    ensures ParseHeader(a + b) == ParseHeader(a)
  {
    assert (a + b)[0..2] == a[0..2];
    assert (a + b)[2..4] == a[2..4];
  }

  /** The frames and the remainder tile the stream: no byte is lost, repeated or moved. */
  lemma {:induction false} FramesTile(b: seq<Byte>)
    ensures Flatten(Frames(b).frames) + Frames(b).rest == b
    decreases |b|
  {
    if Verdict(b) == Ok {
      var n := ParseHeader(b).size;
      FramesTile(b[n..]);
      TileFront(b[..n], Frames(b[n..]));
      assert b == b[..n] + b[n..];
    }
  }

  lemma TileFront(front: seq<Byte>, d: Deframed)
    ensures Flatten([front] + d.frames) + d.rest == front + (Flatten(d.frames) + d.rest)
  {
    FlattenCons(front, d.frames);
  }

  /** Deframing state d, continued with more bytes; a malformed header stops it for good. */
  function Continue(d: Deframed, b: seq<Byte>): Deframed {
    if d.malformed then Deframed(d.frames, d.rest + b, true)
    else
      var e := Frames(d.rest + b);
      Deframed(d.frames + e.frames, e.rest, e.malformed)
  }

  lemma ContinueCons(f: seq<Byte>, d: Deframed, b: seq<Byte>)
    ensures var c := Continue(d, b);
            Continue(Deframed([f] + d.frames, d.rest, d.malformed), b) ==
              Deframed([f] + c.frames, c.rest, c.malformed)
  {
    if !d.malformed {
      var e := Frames(d.rest + b);
      assert ([f] + d.frames) + e.frames == [f] + (d.frames + e.frames);
    }
  }

  /** Reassembly: deframing a stream that arrives in two parts gives the frames of the first part
      followed by those of its remainder joined with the second. */
  lemma {:induction false} FramesConcat(a: seq<Byte>, b: seq<Byte>)
    ensures Frames(a + b) == Continue(Frames(a), b)
    decreases |a|
  {
    if Verdict(a) == Ok {
      var n := ParseHeader(a).size;
      assert Verdict(a + b) == Ok && ParseHeader(a + b).size == n by { VerdictStable(a, b); }
      assert (a + b)[n..] == a[n..] + b;
      assert (a + b)[..n] == a[..n];
      FramesConcat(a[n..], b);
      ContinueCons(a[..n], Frames(a[n..]), b);
    } else if Verdict(a) == Malformed {
      VerdictStable(a, b);
    } else {
      var e := Frames(a + b);
      assert [] + e.frames == e.frames;
    }
  }

  /** A stream cut off anywhere yields a prefix of the packets of the whole, never a wrong one. */
  lemma {:induction false} PrefixYieldsPrefix(b: seq<Byte>, n: nat)
    requires n <= |b|
    ensures Frames(b[..n]).frames <= Frames(b).frames
    ensures Frames(b[..n]).malformed ==> Frames(b).malformed && Frames(b[..n]).frames == Frames(b).frames
  {
    FramesConcat(b[..n], b[n..]);
    assert b == b[..n] + b[n..];
  }

  /** Every packet popped is as long as its header says, and of a permitted length; popping stops at a
      header that announces a length that is not, or at an incomplete packet. */
  lemma {:induction false} FramesAreWhole(b: seq<Byte>)
    ensures forall f | f in Frames(b).frames ::
              4 <= |f| <= 32768 && |f| == f[0] as int + 256 * f[1] as int
    ensures var r := Frames(b).rest;
            Frames(b).malformed <==>
              |r| >= 4 && (r[0] as int + 256 * r[1] as int < 4 || r[0] as int + 256 * r[1] as int > 32768)
    ensures var r := Frames(b).rest;
            !Frames(b).malformed ==> |r| < 4 || |r| < r[0] as int + 256 * r[1] as int
    decreases |b|
  {
    if |b| >= HEADER {
      HeaderFromBytes(b);
      if Verdict(b) == Ok {
        var n := ParseHeader(b).size;
        FramesAreWhole(b[n..]);
        assert b[..n][0] == b[0] && b[..n][1] == b[1];
      }
    }
  }

  /** What an incomplete packet can leave behind is shorter than the largest packet. */
  lemma RestIsShort(b: seq<Byte>)
    requires Verdict(b) == NeedMore
    ensures |b| < MAX_PACKET
  {
  }

  // ---- framing and the packet formats

  datatype Typed = Typed(kind: PacketType, packet: Packet)

  predicate AllWellFormed(ps: seq<Typed>) {
    forall t | t in ps :: WellFormed(t.kind, t.packet)
  }

  function EncodeEach(ps: seq<Typed>): (bs: seq<seq<Byte>>)
    ensures |bs| == |ps| && forall i | 0 <= i < |ps| :: bs[i] == Encode(ps[i].packet)
  {
    seq(|ps|, i requires 0 <= i < |ps| => Encode(ps[i].packet))
  }

  /** The one type other than PKUserCountReq that accepts the frame, if any does. */
  function KindOf(f: seq<Byte>): (k: PacketType)
    ensures k == UserCountReq <==> forall c: PacketType | c != UserCountReq :: !Accepts(c, f)
    ensures k != UserCountReq ==> Accepts(k, f)
  {
    if Accepts(ChatMessage, f) then ChatMessage
    else if Accepts(Exit, f) then Exit
    else if Accepts(UserCount, f) then UserCount
    else if Accepts(ChatBroadcast, f) then ChatBroadcast
    else if Accepts(LoginReq, f) then LoginReq
    else if Accepts(LoginAck, f) then LoginAck
    else if Accepts(UserCountAck, f) then UserCountAck
    else UserCountReq
  }

  /** Each frame read by the one type that accepts it; frames nobody accepts are dropped. */
  function Decode(frames: seq<seq<Byte>>): seq<Typed> {
    if frames == [] then []
    else
      var k := KindOf(frames[0]);
      (if k == UserCountReq then [] else [Typed(k, Parse(k, frames[0]))]) + Decode(frames[1..])
  }

  /** What a receiver makes of the packets sent: PKUserCountReq packets are recognised by no
      class, and chat messages come back with both terminators in place. */
  function AsReceived(ps: seq<Typed>): seq<Typed>
    requires AllWellFormed(ps)
  {
    if ps == [] then []
    else
      var t := ps[0];
      (if t.kind == UserCountReq then []
       else [Typed(t.kind, Packet(t.packet.header, Terminated(t.kind, t.packet.body)))])
      + AsReceived(ps[1..])
  }

  lemma FrameOfPacket(t: Typed, rest: seq<Byte>)
    requires WellFormed(t.kind, t.packet)
    ensures Verdict(Encode(t.packet) + rest) == Ok
    ensures ParseHeader(Encode(t.packet) + rest).size == |Encode(t.packet)|
  {
    var b := Encode(t.packet) + rest;
    assert |Encode(t.packet)| == Size(t.kind) by { PrintThenParse(t.kind, t.packet, rest); }
    assert ParseHeader(b) == Header(t.kind) by {
      HeaderRoundTrip(t.packet.header, BodyBytes(t.packet.body) + rest);
      assert b == HeaderBytes(t.packet.header) + (BodyBytes(t.packet.body) + rest);
    }
  }

  /** The concatenation of any sequence of serialised packets is cut back into exactly those
      packets, with nothing left over. */
  lemma {:induction false} FramesOfStream(ps: seq<Typed>)
    requires AllWellFormed(ps)
    ensures Frames(Flatten(EncodeEach(ps))) == Deframed(EncodeEach(ps), [], false)
  {
    if ps != [] {
      var bs := EncodeEach(ps);
      FrameOfPacket(ps[0], Flatten(bs[1..]));
      assert bs[1..] == EncodeEach(ps[1..]);
      FramesOfStream(ps[1..]);
      assert Flatten(bs)[..|bs[0]|] == bs[0];
      assert Flatten(bs)[|bs[0]|..] == Flatten(bs[1..]);
    }
  }

  lemma {:induction false} DecodeOfFrames(ps: seq<Typed>)
    requires AllWellFormed(ps)
    ensures Decode(EncodeEach(ps)) == AsReceived(ps)
  {
    if ps != [] {
      var t := ps[0];
      var f := Encode(t.packet);
      DecodeOfFrames(ps[1..]);
      assert EncodeEach(ps)[1..] == EncodeEach(ps[1..]);
      PrintThenParse(t.kind, t.packet, []);
      assert f + [] == f;
      if t.kind != UserCountReq {
        TypesAreDistinguished(t.kind, KindOf(f), f);
      } else {
        UserCountReqUnrecognised(t.packet);
      }
    }
  }

  /** Reading a whole stream; it fails when bytes are left over or a header is malformed. */
  function DecodeStream(b: seq<Byte>): Option<seq<Typed>> {
    var d := Frames(b);
    if d.rest == [] && !d.malformed then Some(Decode(d.frames)) else None
  }

  /** Unique decoding: framing and decoding a concatenation of serialised packets returns the
      packets that were sent, as received, with nothing left over. */
  lemma {:induction false} UniqueDecoding(ps: seq<Typed>)
    requires AllWellFormed(ps)
    ensures DecodeStream(Flatten(EncodeEach(ps))) == Some(AsReceived(ps))
  {
    FramesOfStream(ps);
    DecodeOfFrames(ps);
  }

  /** What the receiver's class makes of this packet is the packet itself: it is not a
      PKUserCountReq, and a chat message's fields already end in NUL. */
  predicate SurvivesAsIs(t: Typed)
    requires WellFormed(t.kind, t.packet)
  {
    && t.kind != UserCountReq
    && (t.kind == ChatMessage ==>
          t.packet.body.sender[NICK - 1] == NUL && t.packet.body.message[TEXT - 1] == NUL)
  }

  /** The decoded sequence has every packet sent exactly when no PKUserCountReq was sent, and is
      the very sequence sent exactly when, besides, every chat message was already terminated. */
  lemma {:induction false} SameSequenceBack(ps: seq<Typed>)
    requires AllWellFormed(ps)
    ensures |AsReceived(ps)| <= |ps|
    ensures |AsReceived(ps)| == |ps| <==> forall t | t in ps :: t.kind != UserCountReq
    ensures AsReceived(ps) == ps <==> forall t | t in ps :: SurvivesAsIs(t)
  {
    if ps != [] {
      SameSequenceBack(ps[1..]);
      SamePacketBack(ps[0]);
      assert ps[0] in ps;
      assert forall t :: t in ps <==> t == ps[0] || t in ps[1..];
      assert ps == [ps[0]] + ps[1..];
    }
  }

  lemma SamePacketBack(t: Typed)
    requires WellFormed(t.kind, t.packet)
    ensures Packet(t.packet.header, Terminated(t.kind, t.packet.body)) == t.packet <==>
              (t.kind != UserCountReq ==> SurvivesAsIs(t))
  {
  }

  /** Two packet sequences have the same concatenated bytes exactly when they are the same. */
  lemma {:induction false} StreamsInjective(ps: seq<Typed>, qs: seq<Typed>)
    requires AllWellFormed(ps) && AllWellFormed(qs)
    ensures Flatten(EncodeEach(ps)) == Flatten(EncodeEach(qs)) <==> ps == qs
  {
    if Flatten(EncodeEach(ps)) == Flatten(EncodeEach(qs)) {
      FramesOfStream(ps);
      FramesOfStream(qs);
      var bs := EncodeEach(ps);
      assert bs == EncodeEach(qs);
      forall i | 0 <= i < |ps| ensures ps[i] == qs[i] {
        SamePacket(ps[i], qs[i]);
      }
    }
  }

  lemma SamePacket(t: Typed, u: Typed)
    requires WellFormed(t.kind, t.packet) && WellFormed(u.kind, u.packet)
    requires Encode(t.packet) == Encode(u.packet)
    ensures t == u
  {
    HeaderRoundTrip(t.packet.header, BodyBytes(t.packet.body));
    HeaderRoundTrip(u.packet.header, BodyBytes(u.packet.body));
    assert Id(t.kind) == Id(u.kind);
    BodyRoundTrip(t.kind, t.packet.body);
    BodyRoundTrip(u.kind, u.packet.body);
    assert BodyBytes(t.packet.body) == Encode(t.packet)[HEADER..];
    assert BodyBytes(u.packet.body) == Encode(u.packet)[HEADER..];
  }
}
