/** Properties that span constructors, Serialize, Deserialize and GetData. */
module CodecTheorems {
  import opened Bytes
  import opened CStrings
  import opened PacketFormat
  import opened ChatPackets

  // ---- ToPacket, ToData and the normal form

  /** ToData after ToPacket gives the normal form, whatever bytes strncpy_s leaves behind the
      terminators. */
  lemma ConversionNormalises(d: ChatMessageData, r: Residue)
    ensures DataOf(PacketOf(d, r)) == NormalForm(d)
  {
    assert Cut(PacketOf(d, r).body.sender) == Trunc(d.sender, NICK);
  }

  /** The conversion round trip is idempotent, loses nothing exactly when both strings are
      NUL-free and fit, and identifies two values exactly when their truncated strings and
      timestamps agree. */
  lemma NormalFormLaws(d: ChatMessageData, e: ChatMessageData, r: Residue, q: Residue)
    ensures DataOf(PacketOf(DataOf(PacketOf(d, r)), q)) == DataOf(PacketOf(d, r))
    ensures DataOf(PacketOf(d, r)) == d <==> FitsUncut(d)
    ensures DataOf(PacketOf(d, r)) == DataOf(PacketOf(e, q)) <==>
              && Trunc(d.sender, NICK) == Trunc(e.sender, NICK)
              && Trunc(d.message, TEXT) == Trunc(e.message, TEXT)
              && d.timestamp == e.timestamp
  {
    ConversionNormalises(d, r);
    ConversionNormalises(e, q);
    ConversionNormalises(NormalForm(d), q);
    TruncFixedPoints(d.sender, NICK);
    TruncFixedPoints(d.message, TEXT);
  }

  /** What GetData reads after a packet built from d was serialised and deserialised into any
      chat object; None when the object reads something else than a chat message. */
  function Transmitted(d: ChatMessageData, r: Residue, receiver: Packet, rest: seq<Byte>): Option<ChatMessageData> {
    var p := Receive(ChatMessage, receiver, Encode(PacketOf(d, r)) + rest);
    if p.body.ChatBody? then Some(DataOf(p)) else None
  }

  /** Construct, Serialize, Deserialize into any object, GetData: the timestamp survives and
      each string comes back cut at its first NUL and at its capacity. */
  lemma {:induction false} ChatEndToEnd(d: ChatMessageData, r: Residue, receiver: Packet, rest: seq<Byte>)
    ensures Transmitted(d, r, receiver, rest) == Some(NormalForm(d))
  {
    var p := PacketOf(d, r);
    PrintThenParse(ChatMessage, p, rest);
    CutAfterForcedNul(p.body.sender);
    CutAfterForcedNul(p.body.message);
    ConversionNormalises(d, r);
  }

  /** The original comes back exactly when both strings are NUL-free and fit. */
  lemma {:induction false} ChatUnchangedExactly(d: ChatMessageData, r: Residue, receiver: Packet, rest: seq<Byte>)
    ensures Transmitted(d, r, receiver, rest) == Some(d) <==> FitsUncut(d)
  {
    ChatEndToEnd(d, r, receiver, rest);
    NormalFormLaws(d, d, r, r);
  }

  // ---- runs of operations on one object

  /** An object of type k that starts as p and is handed the buffers one after another. */
  function ReceiveAll(k: PacketType, p: Packet, bufs: seq<seq<Byte>>): Packet
    decreases |bufs|
  {
    if bufs == [] then p else ReceiveAll(k, Receive(k, p, bufs[0]), bufs[1..])
  }

  function AcceptedOnly(k: PacketType, bufs: seq<seq<Byte>>): (a: seq<seq<Byte>>)
    ensures forall b | b in a :: Accepts(k, b)
  {
    if bufs == [] then []
    else (if Accepts(k, bufs[0]) then [bufs[0]] else []) + AcceptedOnly(k, bufs[1..])
  }

  /** After any run of Deserialize calls on arbitrary buffers the object holds what the last
      accepted buffer says, or its initial value if none was accepted. */
  lemma {:induction false} LastAcceptedWins(k: PacketType, p: Packet, bufs: seq<seq<Byte>>)
    ensures var a := AcceptedOnly(k, bufs);
            ReceiveAll(k, p, bufs) == if a == [] then p else Receive(k, p, a[|a| - 1])
    decreases |bufs|
  {
    if bufs != [] {
      LastAcceptedWins(k, Receive(k, p, bufs[0]), bufs[1..]);
    }
  }

  /** Rejected buffers can be deleted from a run without changing its result. */
  lemma RejectedBuffersLeaveNoTrace(k: PacketType, p: Packet, bufs: seq<seq<Byte>>)
    ensures ReceiveAll(k, p, bufs) == ReceiveAll(k, p, AcceptedOnly(k, bufs))
  {
    LastAcceptedWins(k, p, bufs);
    LastAcceptedWins(k, p, AcceptedOnly(k, bufs));
    AllAccepted(k, AcceptedOnly(k, bufs));
  }

  lemma {:induction false} AllAccepted(k: PacketType, bufs: seq<seq<Byte>>)
    requires forall b | b in bufs :: Accepts(k, b)
    ensures AcceptedOnly(k, bufs) == bufs
  {
    if bufs != [] {
      AllAccepted(k, bufs[1..]);
      assert bufs == [bufs[0]] + bufs[1..];
    }
  }

  datatype ChatOp = SetData(data: ChatMessageData, residue: Residue) | Deserialize(buf: seq<Byte>)

  function ApplyChat(p: Packet, op: ChatOp): Packet {
    match op
    case SetData(d, r) => PacketOf(d, r)
    case Deserialize(b) => Receive(ChatMessage, p, b)
  }

  function RunChat(p: Packet, ops: seq<ChatOp>): Packet
    decreases |ops|
  {
    if ops == [] then p else RunChat(ApplyChat(p, ops[0]), ops[1..])
  }

  /** The data a PKChatMessage should hold after the operations: set data in normal form, or the
      raw fields of an accepted buffer, cut to what a terminated field can hold. */
  function Latest(d: ChatMessageData, ops: seq<ChatOp>): ChatMessageData
    decreases |ops|
  {
    if ops == [] then d
    else
      var e :=
        match ops[0]
        case SetData(s, _) => NormalForm(s)
        case Deserialize(b) =>
          if Accepts(ChatMessage, b) then ReceivedData(b) else d;
      Latest(e, ops[1..])
  }

  lemma AcceptedChat(b: seq<Byte>)
    requires Accepts(ChatMessage, b)
    ensures ChatInvariant(Parse(ChatMessage, b))
    ensures DataOf(Parse(ChatMessage, b)) == ReceivedData(b)
  {
    assert WellFormed(ChatMessage, Parse(ChatMessage, b)) by { ParseThenPrint(ChatMessage, b); }
    ChatFields(ChatMessage, b);
    CutAfterForcedNul(b[HEADER..HEADER + NICK]);
    CutAfterForcedNul(b[HEADER + NICK..HEADER + NICK + TEXT]);
  }

  /** One operation keeps the invariant, whatever the bytes, and produces the expected data. */
  lemma ChatStep(p: Packet, op: ChatOp)
    requires ChatInvariant(p)
    ensures ChatInvariant(ApplyChat(p, op))
    ensures DataOf(ApplyChat(p, op)) == Latest(DataOf(p), [op])
  {
    match op
    case SetData(d, r) =>
      ConversionNormalises(d, r);
    case Deserialize(b) =>
      if Accepts(ChatMessage, b) {
        AcceptedChat(b);
      }
  }

  /** Every PKChatMessage reachable from a constructor by SetData and by Deserialize on arbitrary
      bytes has a canonical header and a NUL inside both fields, so GetData's scans stop in
      bounds. */
  lemma {:induction false} ReachableChat(p: Packet, ops: seq<ChatOp>)
    requires ChatInvariant(p)
    ensures ChatInvariant(RunChat(p, ops))
    decreases |ops|
  {
    if ops != [] {
      ChatStep(p, ops[0]);
      ReachableChat(ApplyChat(p, ops[0]), ops[1..]);
    }
  }

  /** GetData returns what the run of operations says it should. */
  lemma {:induction false} ReachableData(p: Packet, ops: seq<ChatOp>)
    requires ChatInvariant(p)
    ensures RunChat(p, ops).body.ChatBody? && DataOf(RunChat(p, ops)) == Latest(DataOf(p), ops)
    decreases |ops|
  {
    if ops != [] {
      ChatStep(p, ops[0]);
      ReachableData(ApplyChat(p, ops[0]), ops[1..]);
    }
  }

  // ---- canonical encoding

  /** Two constructed broadcasts serialise to the same bytes exactly when their timestamps and
      their truncated strings agree. */
  lemma BroadcastsCanonical(n1: seq<Byte>, m1: seq<Byte>, t1: U64, n2: seq<Byte>, m2: seq<Byte>, t2: U64)
    ensures Encode(MakeBroadcast(n1, m1, t1)) == Encode(MakeBroadcast(n2, m2, t2)) <==>
              Trunc(n1, NICK) == Trunc(n2, NICK) && Trunc(m1, TEXT) == Trunc(m2, TEXT) && t1 == t2
  {
    EncodeInjective(ChatBroadcast, MakeBroadcast(n1, m1, t1), MakeBroadcast(n2, m2, t2));
    FieldInjective(n1, n2, NICK);
    FieldInjective(m1, m2, TEXT);
  }

  /** Encoding loses nothing: well-formed packets with equal bytes are equal. */
  lemma EncodeInjective(k: PacketType, p: Packet, q: Packet)
    requires WellFormed(k, p) && WellFormed(k, q)
    ensures Encode(p) == Encode(q) <==> p == q
  {
    BodyRoundTrip(k, p.body);
    BodyRoundTrip(k, q.body);
    assert BodyBytes(p.body) == Encode(p)[HEADER..];
    assert BodyBytes(q.body) == Encode(q)[HEADER..];
  }
}
