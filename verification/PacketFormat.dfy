/** The wire format of the packet family: a 4-byte header (size, then id) and a packed body.
    Encode, Accepts and Receive are the specifications the packet classes are proved against. */
module PacketFormat {
  import opened Bytes
  import opened CStrings

  datatype PacketType =
    | ChatMessage | Exit | UserCount | ChatBroadcast
    | LoginReq | LoginAck | UserCountReq | UserCountAck

  /** The enumerator values; all distinct. */
  function Id(k: PacketType): U16 {
    match k
    case ChatMessage => 1
    case Exit => 2
    case UserCount => 3
    case ChatBroadcast => 10
    case LoginReq => 11
    case LoginAck => 12
    case UserCountReq => 13
    case UserCountAck => 14
  }

  /** The id the validator of each packet class compares with. PKUserCountReq compares with
      the id of UserCount instead of its own. */
  function TestedId(k: PacketType): U16 {
    if k == UserCountReq then Id(UserCount) else Id(k)
  }

  const HEADER: nat := 4
  const NICK: nat := 32
  const TEXT: nat := 256
  const REASON: nat := 64

  datatype PacketHeader = PacketHeader(size: U16, id: U16)

  datatype Body =
    | ChatBody(sender: seq<Byte>, message: seq<Byte>, timestamp: U64)
    | NicknameBody(nickname: seq<Byte>)
    | LoginAckBody(sessionId: U64, accepted: Byte, reason: seq<Byte>, currentUsers: I32)
    | CountBody(count: I32)
    | NoBody

  datatype Packet = Packet(header: PacketHeader, body: Body)

  /** sizeof the packed struct behind each class, header included. */
  function Size(k: PacketType): (n: U16)
    ensures n >= HEADER
  {
    match k
    case ChatMessage => HEADER + NICK + TEXT + 8
    case ChatBroadcast => HEADER + NICK + TEXT + 8
    case LoginReq => HEADER + NICK
    case Exit => HEADER + NICK
    case LoginAck => HEADER + 8 + 1 + REASON + 4
    case UserCountAck => HEADER + 4
    case UserCount => HEADER
    case UserCountReq => HEADER
  }

  function Header(k: PacketType): PacketHeader {
    PacketHeader(Size(k), Id(k))
  }

  /** body has the shape and the field widths of packets of type k. */
  predicate Fits(k: PacketType, body: Body) {
    match k
    case ChatMessage => body.ChatBody? && |body.sender| == NICK && |body.message| == TEXT
    case ChatBroadcast => body.ChatBody? && |body.sender| == NICK && |body.message| == TEXT
    case LoginReq => body.NicknameBody? && |body.nickname| == NICK
    case Exit => body.NicknameBody? && |body.nickname| == NICK
    case LoginAck => body.LoginAckBody? && |body.reason| == REASON
    case UserCountAck => body.CountBody?
    case UserCount => body.NoBody?
    case UserCountReq => body.NoBody?
  }

  /** The class invariant of a packet object of type k: own id, own size, own field widths. */
  predicate WellFormed(k: PacketType, p: Packet) {
    p.header == Header(k) && Fits(k, p.body)
  }

  function HeaderBytes(h: PacketHeader): (s: seq<Byte>)
    ensures |s| == HEADER
  {
    EncodeU16(h.size) + EncodeU16(h.id)
  }

  function BodyBytes(b: Body): seq<Byte> {
    match b
    case ChatBody(s, m, t) => s + m + EncodeU64(t)
    case NicknameBody(n) => n
    case LoginAckBody(id, ok, why, users) => EncodeU64(id) + [ok] + why + EncodeI32(users)
    case CountBody(c) => EncodeI32(c)
    case NoBody => []
  }

  function Encode(p: Packet): seq<Byte> {
    HeaderBytes(p.header) + BodyBytes(p.body)
  }

  function ParseHeader(b: seq<Byte>): PacketHeader
    requires |b| >= HEADER
  {
    PacketHeader(DecodeU16(b[0..2]), DecodeU16(b[2..4]))
  }

  /** The struct image at b, read as the body of a packet of type k. */
  function ParseBody(k: PacketType, b: seq<Byte>): (body: Body)
    requires |b| == Size(k) - HEADER
    ensures Fits(k, body)
  {
    match k
    case ChatMessage => ChatBody(b[..NICK], b[NICK..NICK + TEXT], DecodeU64(b[NICK + TEXT..]))
    case ChatBroadcast => ChatBody(b[..NICK], b[NICK..NICK + TEXT], DecodeU64(b[NICK + TEXT..]))
    case LoginReq => NicknameBody(b)
    case Exit => NicknameBody(b)
    case LoginAck =>
      LoginAckBody(DecodeU64(b[..8]), b[8], b[9..9 + REASON], DecodeI32(b[9 + REASON..]))
    case UserCountAck => CountBody(DecodeI32(b))
    case UserCount => NoBody
    case UserCountReq => NoBody
  }

  /** IsValid of each class: long enough, the tested id, the exact size. */
  predicate Accepts(k: PacketType, b: seq<Byte>) {
    && |b| >= Size(k)
    && ParseHeader(b).id == TestedId(k)
    && ParseHeader(b).size == Size(k)
  }

  /** PKChatMessage alone forces a terminator into both text fields after copying. */
  function Terminated(k: PacketType, body: Body): (r: Body)
    requires Fits(k, body)
    ensures Fits(k, r)
  {
    if k == ChatMessage then
      body.(sender := body.sender[NICK - 1 := NUL], message := body.message[TEXT - 1 := NUL])
    else
      body
  }

  /** The same two bytes, counted from the start of the packet. */
  function TerminatedBytes(k: PacketType, b: seq<Byte>): seq<Byte>
    requires |b| == Size(k)
  {
    if k == ChatMessage then b[HEADER + NICK - 1 := NUL][HEADER + NICK + TEXT - 1 := NUL] else b
  }

  function Parse(k: PacketType, b: seq<Byte>): Packet
    requires |b| >= Size(k)
  {
    Packet(ParseHeader(b), Terminated(k, ParseBody(k, b[HEADER..Size(k)])))
  }

  /** Deserialize: all of the object is replaced, or nothing. */
  function Receive(k: PacketType, p: Packet, b: seq<Byte>): Packet {
    if Accepts(k, b) then Parse(k, b) else p
  }

  // ---- what the constructors build

  function MakeBroadcast(nick: seq<Byte>, msg: seq<Byte>, ts: U64): (p: Packet)
    ensures WellFormed(ChatBroadcast, p)
  {
    Packet(Header(ChatBroadcast), ChatBody(Field(nick, NICK), Field(msg, TEXT), ts))
  }

  function MakeLoginReq(name: seq<Byte>): (p: Packet)
    ensures WellFormed(LoginReq, p)
  {
    Packet(Header(LoginReq), NicknameBody(Field(name, NICK)))
  }

  function MakeExit(nick: seq<Byte>): (p: Packet)
    ensures WellFormed(Exit, p)
  {
    Packet(Header(Exit), NicknameBody(Field(nick, NICK)))
  }

  function MakeLoginAck(sid: U64, ok: bool, why: seq<Byte>, users: I32): (p: Packet)
    ensures WellFormed(LoginAck, p)
  {
    Packet(Header(LoginAck), LoginAckBody(sid, if ok then 1 else 0, Field(why, REASON), users))
  }

  function MakeUserCountAck(count: I32): (p: Packet)
    ensures WellFormed(UserCountAck, p)
  {
    Packet(Header(UserCountAck), CountBody(count))
  }

  function MakeUserCount(): (p: Packet)
    ensures WellFormed(UserCount, p)
  {
    Packet(Header(UserCount), NoBody)
  }

  function MakeUserCountReq(): (p: Packet)
    ensures WellFormed(UserCountReq, p)
  {
    Packet(Header(UserCountReq), NoBody)
  }

  // ---- printing then parsing

  lemma HeaderRoundTrip(h: PacketHeader, rest: seq<Byte>)
    ensures ParseHeader(HeaderBytes(h) + rest) == h
  {
    IntegersSurvive(h.size, 0, 0);
    IntegersSurvive(h.id, 0, 0);
    var b := HeaderBytes(h) + rest;
    assert b[0..2] == EncodeU16(h.size);
    assert b[2..4] == EncodeU16(h.id);
  }

  // ---- the bytes on the wire

  lemma HeaderFromBytes(p: seq<Byte>)
    requires |p| >= HEADER
    ensures ParseHeader(p).size == p[0] as int + 256 * p[1] as int
    ensures ParseHeader(p).id == p[2] as int + 256 * p[3] as int
  {
    TwoBytes(p[0], p[1]);
    TwoBytes(p[2], p[3]);
    assert p[0..2] == [p[0], p[1]] && p[2..4] == [p[2], p[3]];
  }

  lemma TwoBytes(a: Byte, b: Byte)
    ensures DecodeU16([a, b]) == a as int + 256 * b as int
  {
    assert [a, b][1..] == [b] && [b][1..] == [];
    assert LeDecode([b]) == b;
  }

  /** Size first, then id, each with its low byte first. */
  lemma HeaderOnWire(h: PacketHeader)
    ensures HeaderBytes(h) == [h.size % 256, h.size / 256, h.id % 256, h.id / 256]
  {
    TwoBytesEncoded(h.size);
    TwoBytesEncoded(h.id);
  }

  lemma TwoBytesEncoded(v: U16)
    ensures EncodeU16(v) == [v % 256, v / 256]
  {
    assert LeEncode(v / 256, 1) == [v / 256 % 256] + LeEncode(v / 256 / 256, 0);
  }

  /** Where each field of each packet lies on the wire. */
  lemma Layout(k: PacketType, p: Packet)
    requires WellFormed(k, p)
    ensures var e := Encode(p);
            && |e| == Size(k) && e[..4] == HeaderBytes(p.header)
            && match p.body
               case ChatBody(s, m, t) => e[4..36] == s && e[36..292] == m && e[292..] == EncodeU64(t)
               case NicknameBody(n) => e[4..] == n
               case LoginAckBody(id, ok, why, users) =>
                 e[4..12] == EncodeU64(id) && e[12] == ok && e[13..77] == why && e[77..] == EncodeI32(users)
               case CountBody(c) => e[4..] == EncodeI32(c)
               case NoBody => |e| == 4
  {
    BodyRoundTrip(k, p.body);
  }

  lemma HeaderBytesRoundTrip(b: seq<Byte>)
    requires |b| >= HEADER
    ensures HeaderBytes(ParseHeader(b)) == b[..HEADER]
  {
    U16BytesSurvive(b[0..2]);
    U16BytesSurvive(b[2..4]);
    assert b[..HEADER] == b[0..2] + b[2..4];
  }

  lemma BodyRoundTrip(k: PacketType, body: Body)
    requires Fits(k, body)
    ensures |BodyBytes(body)| == Size(k) - HEADER
    ensures ParseBody(k, BodyBytes(body)) == body
  {
    var b := BodyBytes(body);
    match body
    case ChatBody(s, m, t) =>
      IntegersSurvive(0, t, 0);
      assert b[..NICK] == s;
      assert b[NICK..NICK + TEXT] == m;
      assert b[NICK + TEXT..] == EncodeU64(t);
    case NicknameBody(n) =>
    case LoginAckBody(id, ok, why, users) =>
      IntegersSurvive(0, id, users);
      assert b[..8] == EncodeU64(id);
      assert b[9..9 + REASON] == why;
      assert b[9 + REASON..] == EncodeI32(users);
    case CountBody(c) =>
      IntegersSurvive(0, 0, c);
    case NoBody =>
  }

  lemma BodyBytesRoundTrip(k: PacketType, b: seq<Byte>)
    requires |b| == Size(k) - HEADER
    ensures BodyBytes(ParseBody(k, b)) == b
  {
    match k
    case ChatMessage =>
      U64BytesSurvive(b[NICK + TEXT..]);
    case ChatBroadcast =>
      U64BytesSurvive(b[NICK + TEXT..]);
    case LoginAck =>
      U64BytesSurvive(b[..8]);
      I32BytesSurvive(b[9 + REASON..]);
      assert b == b[..8] + [b[8]] + b[9..9 + REASON] + b[9 + REASON..];
    case UserCountAck =>
      I32BytesSurvive(b);
    case _ =>
  }

  /** A serialised packet, whatever follows it, is accepted by its own class and read back
      unchanged (up to the two terminators PKChatMessage forces) -- for every class but
      PKUserCountReq, which never accepts its own bytes. */
  lemma PrintThenParse(k: PacketType, p: Packet, rest: seq<Byte>)
    requires WellFormed(k, p)
    ensures |Encode(p)| == Size(k)
    ensures Accepts(k, Encode(p) + rest) <==> k != UserCountReq
    ensures Parse(k, Encode(p) + rest) == Packet(p.header, Terminated(k, p.body))
  {
    BodyRoundTrip(k, p.body);
    var body := BodyBytes(p.body);
    assert Encode(p) + rest == HeaderBytes(p.header) + (body + rest);
    HeaderRoundTrip(p.header, body + rest);
    assert (Encode(p) + rest)[HEADER..Size(k)] == body;
  }

  /** Whatever bytes an accepted buffer holds, printing the parsed packet reproduces the
      accepted prefix, with the two forced terminators in the case of PKChatMessage. */
  lemma ParseThenPrint(k: PacketType, b: seq<Byte>)
    requires Accepts(k, b)
    ensures Encode(Parse(k, b)) == TerminatedBytes(k, b[..Size(k)])
    ensures WellFormed(k, Parse(k, b)) <==> k != UserCountReq
  {
    var body := b[HEADER..Size(k)];
    HeaderBytesRoundTrip(b);
    BodyBytesRoundTrip(k, body);
    assert b[..Size(k)] == b[..HEADER] + body;
    if k == ChatMessage {
      var fixed: seq<Byte> := body[NICK - 1 := NUL][NICK + TEXT - 1 := NUL];
      FixedBody(body, fixed);
      BodyBytesRoundTrip(k, fixed);
      assert TerminatedBytes(k, b[..Size(k)]) == b[..HEADER] + fixed;
    }
  }

  /** Forcing the terminators in the bytes of a chat body is forcing them in its fields. */
  lemma FixedBody(body: seq<Byte>, fixed: seq<Byte>)
    requires |body| == Size(ChatMessage) - HEADER
    requires fixed == body[NICK - 1 := NUL][NICK + TEXT - 1 := NUL]
    ensures ParseBody(ChatMessage, fixed) == Terminated(ChatMessage, ParseBody(ChatMessage, body))
  {
    var p, q := ParseBody(ChatMessage, body), ParseBody(ChatMessage, fixed);
    assert q.sender == p.sender[NICK - 1 := NUL];
    assert q.message == p.message[TEXT - 1 := NUL];
    assert fixed[NICK + TEXT..] == body[NICK + TEXT..];
  }

  lemma TerminatedTwice(k: PacketType, body: Body)
    requires Fits(k, body)
    ensures Terminated(k, Terminated(k, body)) == Terminated(k, body)
  {
    if k == ChatMessage {
      assert body.sender[NICK - 1 := NUL][NICK - 1 := NUL] == body.sender[NICK - 1 := NUL];
      assert body.message[TEXT - 1 := NUL][TEXT - 1 := NUL] == body.message[TEXT - 1 := NUL];
    }
  }

  /** After one pass through parse and print, a second pass is the identity. */
  lemma SecondPassIsIdentity(k: PacketType, b: seq<Byte>, once: seq<Byte>)
    requires Accepts(k, b) && k != UserCountReq
    requires once == Encode(Parse(k, b))
    ensures Accepts(k, once) && Parse(k, once) == Parse(k, b)
  {
    var p := Parse(k, b);
    assert WellFormed(k, p) by { ParseThenPrint(k, b); }
    PrintThenParse(k, p, []);
    assert once + [] == once;
    TerminatedTwice(k, ParseBody(k, b[HEADER..Size(k)]));
  }

  /** Deserialize on arbitrary bytes keeps the class invariant -- own id, own size -- except when
      PKUserCountReq accepts a buffer. */
  lemma ClassInvariantKept(k: PacketType, p: Packet, b: seq<Byte>)
    requires WellFormed(k, p)
    ensures WellFormed(k, Receive(k, p, b)) <==> k != UserCountReq || !Accepts(k, b)
  {
    if Accepts(k, b) {
      ParseThenPrint(k, b);
    }
  }

  // ---- telling packets apart

  /** Appending bytes to a buffer that is long enough changes neither the verdict nor the
      decoded packet. */
  lemma TrailingBytesIgnored(k: PacketType, p: Packet, b: seq<Byte>, more: seq<Byte>)
    requires |b| >= Size(k)
    ensures Accepts(k, b + more) <==> Accepts(k, b)
    ensures Receive(k, p, b + more) == Receive(k, p, b)
  {
    assert (b + more)[0..2] == b[0..2];
    assert (b + more)[2..4] == b[2..4];
    assert (b + more)[HEADER..Size(k)] == b[HEADER..Size(k)];
  }

  /** At most one type accepts a buffer, except that PKUserCountReq accepts exactly what
      PKUserCount accepts. */
  lemma TypesAreDistinguished(k: PacketType, other: PacketType, b: seq<Byte>)
    requires Accepts(k, b)
    ensures Accepts(other, b) <==> TestedId(other) == TestedId(k)
    ensures k != UserCountReq && other != UserCountReq ==> (Accepts(other, b) <==> other == k)
    ensures Accepts(UserCountReq, b) <==> Accepts(UserCount, b)
  {
    assert Size(UserCountReq) == Size(UserCount);
  }

  /** No strict prefix of a serialised packet is accepted by any type, so no serialised packet
      is a strict prefix of another. */
  lemma PrefixFree(k: PacketType, p: Packet, other: PacketType, n: nat)
    requires WellFormed(k, p) && n < Size(k)
    ensures |Encode(p)| == Size(k)
    ensures !Accepts(other, Encode(p)[..n])
  {
    PrintThenParse(k, p, []);
    var b := Encode(p) + [];
    assert b == Encode(p);
    HeaderRoundTrip(p.header, BodyBytes(p.body));
    if n >= HEADER {
      assert b[..n][0..2] == b[0..2];
      assert b[..n][2..4] == b[2..4];
      assert ParseHeader(b[..n]) == p.header;
    }
  }

  // ---- PKUserCountReq

  /** No class, PKUserCountReq included, accepts a serialised PKUserCountReq. */
  lemma UserCountReqUnrecognised(p: Packet)
    requires WellFormed(UserCountReq, p)
    ensures forall k: PacketType :: !Accepts(k, Encode(p))
  {
    HeaderRoundTrip(p.header, BodyBytes(p.body));
  }

  /** PKUserCountReq rejects its own serialisation, so a default object deserialising another
      default object's bytes is left as it was, and equal to it. Any buffer it does accept
      turns it into a UserCount packet and out of its own class invariant. */
  lemma UserCountReqSelfRejection(p: Packet, b: seq<Byte>)
    ensures !Accepts(UserCountReq, Encode(MakeUserCountReq()))
    ensures Receive(UserCountReq, MakeUserCountReq(), Encode(MakeUserCountReq())) == MakeUserCountReq()
    ensures Accepts(UserCountReq, b) <==> Accepts(UserCount, b)
    ensures Accepts(UserCountReq, b) ==> Receive(UserCountReq, p, b) == MakeUserCount()
    ensures WellFormed(UserCountReq, Receive(UserCountReq, p, b)) <==>
              WellFormed(UserCountReq, p) && !Accepts(UserCount, b)
  {
    PrintThenParse(UserCountReq, MakeUserCountReq(), []);
    assert Encode(MakeUserCountReq()) + [] == Encode(MakeUserCountReq());
  }
}
