/** What one packet brings about, in terms of the bytes that come in and of what the receivers of the
    bytes that go out read: field by field, for every packet a client can send. */
module Replies {
  import opened Bytes
  import opened CStrings
  import opened PacketFormat
  import opened ChatPackets
  import opened Framing
  import opened PacketHandlers
  import opened Receiving
  import opened Delivery
  import opened EndToEnd

  // ---- what the receiver of a reply reads

  /** A login answer is read back as it was meant, whatever follows it. */
  lemma LoginAckArrives(sid: U64, ok: bool, why: seq<Byte>, users: I32, receiver: Packet, rest: seq<Byte>)
    ensures var e := Encode(MakeLoginAck(sid, ok, why, users));
            && |e| == 81 && e[..4] == [81, 0, 12, 0]
            && Receive(LoginAck, receiver, e + rest).body ==
                 LoginAckBody(sid, if ok then 1 else 0, Field(why, REASON), users)
  {
    var p := MakeLoginAck(sid, ok, why, users);
    PrintThenParse(LoginAck, p, rest);
    Layout(LoginAck, p);
    HeaderOnWire(p.header);
  }

  /** A count comes back as the count that was sent. */
  lemma CountArrives(count: I32, receiver: Packet, rest: seq<Byte>)
    ensures var e := Encode(MakeUserCountAck(count));
            && |e| == 8 && e[..4] == [8, 0, 14, 0] && e[4..] == EncodeI32(count)
            && Receive(UserCountAck, receiver, e + rest).body == CountBody(count)
  {
    var p := MakeUserCountAck(count);
    PrintThenParse(UserCountAck, p, rest);
    Layout(UserCountAck, p);
    HeaderOnWire(p.header);
  }

  lemma BroadcastArrives(nick: seq<Byte>, text: seq<Byte>, ts: U64, receiver: Packet, rest: seq<Byte>)
    ensures var e := Encode(MakeBroadcast(nick, text, ts));
            var p := Receive(ChatBroadcast, receiver, e + rest);
            && |e| == 300 && e[..4] == [44, 1, 10, 0]
            && p.body.ChatBody? && DataOf(p) == ChatMessageData(Trunc(nick, NICK), Trunc(text, TEXT), ts)
  {
    BroadcastOnWire(MakeBroadcast(nick, text, ts));
    PrintThenParse(ChatBroadcast, MakeBroadcast(nick, text, ts), rest);
    FieldRoundTrip(nick, NICK);
    FieldRoundTrip(text, TEXT);
  }

  lemma BroadcastOnWire(p: Packet)
    requires WellFormed(ChatBroadcast, p)
    ensures |Encode(p)| == 300 && Encode(p)[..4] == [44, 1, 10, 0]
  {
    Layout(ChatBroadcast, p);
    HeaderOnWire(p.header);
  }

  // ---- which handler a packet gets

  lemma FrameHeader(f: seq<Byte>, a: Byte, b: Byte, c: Byte)
    requires |f| >= 4 && f[..4] == [a, b, c, 0]
    ensures ParseHeader(f) == PacketHeader(a + 256 * b, c)
  {
    HeaderFromBytes(f);
    assert f[0] == f[..4][0] && f[1] == f[..4][1] && f[2] == f[..4][2] && f[3] == f[..4][3];
  }

  /** The size and id a packet starts with, for the four packets the server has a handler for. */
  predicate Handled(f: seq<Byte>) {
    |f| >= 4 &&
    ( (|f| >= 36 && f[..4] == [36, 0, 11, 0])
    || (|f| >= 300 && f[..4] == [44, 1, 1, 0])
    || (|f| >= 36 && f[..4] == [36, 0, 2, 0])
    || f[..4] == [4, 0, 13, 0])
  }

  /** Every other packet is logged as an error and has no other effect. */
  lemma OthersAreErrors(l: Link, f: seq<Byte>)
    ensures !Handled(f) ==> OnPacket(l, f) == l.(events := l.events + [Error])
    ensures Handled(f) <==> HandlerFor(f) != ToNobody
  {
    HandledExactly(f);
    if HandlerFor(f) == ToNobody {
      assert OnPacket(l, f) == Note(l, Error);
    }
  }

  lemma HandledExactly(f: seq<Byte>)
    ensures Handled(f) <==> HandlerFor(f) != ToNobody
  {
    if |f| >= 4 {
      HeaderFromBytes(f);
      FourBytes(f, 36, 0, 11, 0);
      FourBytes(f, 44, 1, 1, 0);
      FourBytes(f, 36, 0, 2, 0);
      FourBytes(f, 4, 0, 13, 0);
    }
  }

  lemma FourBytes(f: seq<Byte>, a: Byte, b: Byte, c: Byte, d: Byte)
    requires |f| >= 4
    ensures f[..4] == [a, b, c, d] <==> f[0] == a && f[1] == b && f[2] == c && f[3] == d
  {
    assert f[..4] == [f[0], f[1], f[2], f[3]];
  }

  // ---- what each of them brings about

  /** l with some events behind its own; nothing else changes, except that closing may begin. */
  ghost predicate Follows(m: Link, l: Link, es: seq<Event>, closes: bool) {
    m == l.(events := l.events + es, closing := l.closing || closes)
  }

  /** What a login answer says to whoever receives it, whatever follows it. */
  ghost predicate SaysLogin(bytes: seq<Byte>, sid: U64, accepted: bool, users: I32) {
    && |bytes| == 81 && bytes[..4] == [81, 0, 12, 0]
    && forall receiver: Packet, rest: seq<Byte> ::
         Receive(LoginAck, receiver, bytes + rest).body ==
           LoginAckBody(sid, if accepted then 1 else 0, Field(if accepted then [] else INVALID_NICKNAME, REASON), users)
  }

  ghost predicate SaysCount(bytes: seq<Byte>, count: I32) {
    && |bytes| == 8 && bytes[..4] == [8, 0, 14, 0] && bytes[4..] == EncodeI32(count)
    && forall receiver: Packet, rest: seq<Byte> ::
         Receive(UserCountAck, receiver, bytes + rest).body == CountBody(count)
  }

  ghost predicate SaysChat(bytes: seq<Byte>, data: ChatMessageData) {
    && |bytes| == 300 && bytes[..4] == [44, 1, 10, 0]
    && forall receiver: Packet, rest: seq<Byte> ::
         var p := Receive(ChatBroadcast, receiver, bytes + rest);
         p.body.ChatBody? && DataOf(p) == data
  }

  lemma BuiltLoginAckSays(sid: U64, ok: bool, users: I32)
    ensures SaysLogin(Encode(MakeLoginAck(sid, ok, if ok then [] else INVALID_NICKNAME, users)), sid, ok, users)
  {
    var why := if ok then [] else INVALID_NICKNAME;
    LoginAckArrives(sid, ok, why, users, MakeUserCount(), []);
    forall receiver: Packet, rest: seq<Byte>
      ensures Receive(LoginAck, receiver, Encode(MakeLoginAck(sid, ok, why, users)) + rest).body ==
                LoginAckBody(sid, if ok then 1 else 0, Field(why, REASON), users)
    {
      LoginAckArrives(sid, ok, why, users, receiver, rest);
    }
  }

  lemma BuiltCountSays(count: I32)
    ensures SaysCount(Encode(MakeUserCountAck(count)), count)
  {
    CountArrives(count, MakeUserCount(), []);
    forall receiver: Packet, rest: seq<Byte>
      ensures Receive(UserCountAck, receiver, Encode(MakeUserCountAck(count)) + rest).body == CountBody(count)
    {
      CountArrives(count, receiver, rest);
    }
  }

  lemma BuiltBroadcastSays(nick: seq<Byte>, text: seq<Byte>)
    ensures SaysChat(Encode(MakeBroadcast(nick, text, 0)), ChatMessageData(Trunc(nick, NICK), Trunc(text, TEXT), 0))
  {
    BroadcastArrives(nick, text, 0, MakeUserCount(), []);
    forall receiver: Packet, rest: seq<Byte>
      ensures var p := Receive(ChatBroadcast, receiver, Encode(MakeBroadcast(nick, text, 0)) + rest);
              p.body.ChatBody? && DataOf(p) == ChatMessageData(Trunc(nick, NICK), Trunc(text, TEXT), 0)
    {
      BroadcastArrives(nick, text, 0, receiver, rest);
    }
  }

  /** A login packet: an open session is sent the verdict -- refused exactly when the nickname starts
      with NUL -- with its id and the connection count; then the nickname is logged. A closing
      session is sent nothing. */
  lemma LoginReplied(l: Link, f: seq<Byte>)
    requires |f| >= 36 && f[..4] == [36, 0, 11, 0]
    ensures var nick := f[4..36];
            var ok := nick[0] != 0;
            var line := if NUL in nick then LoginLogged(Cut(nick), ok) else Overread;
            if l.closing then Follows(OnPacket(l, f), l, [line], false)
            else exists b :: SaysLogin(b, l.id, ok, l.users(|l.events|))
                             && Follows(OnPacket(l, f), l, [Sent(b), line], false)
  {
    FrameHeader(f, 36, 0, 11);
    assert HandlerFor(f) == ToLogin;
    ReceivedNickname(f);
    var nick := f[4..36];
    var ok := nick[0] != 0;
    var line := if NUL in nick then LoginLogged(Cut(nick), ok) else Overread;
    BuiltLoginAckSays(l.id, ok, l.users(|l.events|));
    var b := Encode(MakeLoginAck(l.id, ok, if ok then [] else INVALID_NICKNAME, l.users(|l.events|)));
    assert OnPacket(l, f) == Note(Reply(l, b), line);
    SentThen(l, b, line);
  }

  lemma SentThen(l: Link, b: seq<Byte>, e: Event)
    ensures Follows(Note(Reply(l, b), e), l, if l.closing then [e] else [Sent(b), e], false)
    ensures Follows(Reply(Note(l, e), b), l, if l.closing then [e] else [e, Sent(b)], false)
  {
  }

  lemma TwoNotes(l: Link, d: Event, e: Event)
    ensures Follows(Note(Note(l, d), e), l, [d, e], false)
    ensures Follows(Departed(l, e), l, if l.closing then [Info, e] else [Info, e, Closed], true)
  {
  }

  /** A user count request: logged, then an open session is sent the connection count as it was
      read, and a closing one nothing. */
  lemma CountReplied(l: Link, f: seq<Byte>)
    requires |f| >= 4 && f[..4] == [4, 0, 13, 0]
    ensures if l.closing then Follows(OnPacket(l, f), l, [Info], false)
            else exists b :: SaysCount(b, l.users(|l.events| + 1))
                             && Follows(OnPacket(l, f), l, [Info, Sent(b)], false)
  {
    FrameHeader(f, 4, 0, 13);
    assert HandlerFor(f) == ToUserCount;
    var count := l.users(|l.events| + 1);
    var b := Encode(MakeUserCountAck(count));
    BuiltCountSays(count);
    assert |Note(l, Info).events| == |l.events| + 1;
    assert OnPacket(l, f) == Reply(Note(l, Info), b);
    SentThen(l, b, Info);
  }

  /** A chat message: its texts, cut to what their fields can hold, are logged with the session and
      broadcast with the timestamp zero. */
  lemma ChatReplied(l: Link, f: seq<Byte>)
    requires |f| >= 300 && f[..4] == [44, 1, 1, 0]
    ensures var sender, message := Trunc(f[4..36], NICK), Trunc(f[36..292], TEXT);
            exists b :: SaysChat(b, ChatMessageData(sender, message, 0))
                        && Follows(OnPacket(l, f), l,
                             [ChatLogged(ChatMessageData(sender, message, DecodeU64(f[292..300])), l.id), Broadcasted(b)],
                             false)
  {
    FrameHeader(f, 44, 1, 1);
    assert HandlerFor(f) == ToChat;
    var d := ReceivedData(f);
    var b := Encode(MakeBroadcast(d.sender, d.message, 0));
    TruncFixedPoints(f[4..36], NICK);
    TruncFixedPoints(f[36..292], TEXT);
    BuiltBroadcastSays(d.sender, d.message);
    TwoNotes(l, ChatLogged(d, l.id), Broadcasted(b));
    assert OnPacket(l, f) == Note(Note(l, ChatLogged(d, l.id)), Broadcasted(b));
  }

  /** An Exit packet: logged; everybody else is told, by the nickname or, if that is empty, by a
      placeholder; and the session is closed. */
  lemma ExitReplied(l: Link, f: seq<Byte>)
    requires |f| >= 36 && f[..4] == [36, 0, 2, 0]
    ensures var nick := Trunc(f[4..36], NICK);
            var notice := (if nick == [] then UNKNOWN else nick) + HAS_LEFT;
            exists b :: SaysChat(b, ChatMessageData(SERVER, notice, 0))
                        && Follows(OnPacket(l, f), l,
                             if l.closing then [Info, Broadcasted(b)] else [Info, Broadcasted(b), Closed], true)
  {
    FrameHeader(f, 36, 0, 2);
    assert HandlerFor(f) == ToExit;
    var nick := Trunc(f[4..36], NICK);
    var name := if nick == [] then UNKNOWN else nick;
    ReceivedExitName(f);
    NoticeFits(name);
    TruncFixedPoints(SERVER, NICK);
    TruncFixedPoints(name + HAS_LEFT, TEXT);
    BuiltBroadcastSays(SERVER, name + HAS_LEFT);
    var b := Encode(MakeBroadcast(SERVER, name + HAS_LEFT, 0));
    TwoNotes(l, Info, Broadcasted(b));
    assert OnPacket(l, f) == Departed(l, Broadcasted(b));
  }

  lemma ReceivedExitName(f: seq<Byte>)
    requires Accepts(Exit, f)
    ensures var nick := Trunc(f[4..36], NICK);
            LeaverName(f) == if nick == [] then UNKNOWN else nick
  {
    assert Receive(Exit, MakeExit([]), f).body.nickname == f[HEADER..Size(Exit)];
  }

  /** An Exit handler called with less than a whole packet warns and closes without a notice. */
  lemma ShortExit(l: Link, f: seq<Byte>)
    requires |f| < 36
    ensures Follows(OnExit(l, f), l, if l.closing then [Info, Warn] else [Info, Warn, Closed], true)
  {
    TwoNotes(l, Info, Warn);
  }

  // ---- the packets the client builds

  lemma LoginOnWire(name: seq<Byte>)
    ensures var f := RequestBytes(Login(name));
            && |f| == 36 && f[..4] == [36, 0, 11, 0] && NUL in f[4..36]
            && Cut(f[4..36]) == Trunc(name, NICK) && (f[4] != 0 <==> Trunc(name, NICK) != [])
  {
    NicknameOnWire(LoginReq, MakeLoginReq(name));
    FieldRoundTrip(name, NICK);
    var f := RequestBytes(Login(name));
    assert f[4..36] == Field(name, NICK);
    assert f[4] == f[4..36][0];
  }

  lemma NicknameOnWire(k: PacketType, p: Packet)
    requires WellFormed(k, p) && (k == LoginReq || k == Exit)
    ensures |Encode(p)| == 36 && Encode(p)[..4] == [36, 0, Id(k), 0]
    ensures Encode(p)[4..36] == p.body.nickname
  {
    Layout(k, p);
    HeaderOnWire(p.header);
  }

  lemma LeaveOnWire(nick: seq<Byte>)
    ensures var f := RequestBytes(Leave(nick));
            |f| == 36 && f[..4] == [36, 0, 2, 0] && Trunc(f[4..36], NICK) == Trunc(nick, NICK)
  {
    NicknameOnWire(Exit, MakeExit(nick));
    TruncOfField(nick, NICK);
  }

  lemma AskOnWire()
    ensures RequestBytes(AskCount) == [4, 0, 13, 0]
  {
    var p := MakeUserCountReq();
    Layout(UserCountReq, p);
    HeaderOnWire(p.header);
    assert RequestBytes(AskCount) == RequestBytes(AskCount)[..4];
  }

  lemma SayOnWire(d: ChatMessageData, r: Residue)
    ensures var f := RequestBytes(Say(d, r));
            && |f| == 300 && f[..4] == [44, 1, 1, 0] && DecodeU64(f[292..300]) == d.timestamp
            && Trunc(f[4..36], NICK) == Trunc(d.sender, NICK)
            && Trunc(f[36..292], TEXT) == Trunc(d.message, TEXT)
  {
    var p := PacketOf(d, r);
    ChatOnWire(p);
    CutAfterForcedNul(p.body.sender);
    CutAfterForcedNul(p.body.message);
    IntegersSurvive(0, d.timestamp, 0);
  }

  lemma ChatOnWire(p: Packet)
    requires WellFormed(ChatMessage, p)
    ensures var f := Encode(p);
            && |f| == 300 && f[..4] == [44, 1, 1, 0]
            && f[4..36] == p.body.sender && f[36..292] == p.body.message
            && f[292..300] == EncodeU64(p.body.timestamp)
  {
    Layout(ChatMessage, p);
    HeaderOnWire(p.header);
    assert Encode(p)[292..300] == Encode(p)[292..];
  }

  /** What an open session does for each request a client makes, and what it says to whom. */
  ghost predicate ServedAs(l: Link, q: Request, m: Link)
    requires !q.Broken?
  {
    match q
    case Login(name) =>
      var nick := Trunc(name, NICK);
      exists b :: SaysLogin(b, l.id, nick != [], l.users(|l.events|))
                  && Follows(m, l, [Sent(b), LoginLogged(nick, nick != [])], false)
    case Say(d, _) =>
      var sender, message := Trunc(d.sender, NICK), Trunc(d.message, TEXT);
      exists b :: SaysChat(b, ChatMessageData(sender, message, 0))
                  && Follows(m, l, [ChatLogged(ChatMessageData(sender, message, d.timestamp), l.id), Broadcasted(b)], false)
    case AskCount =>
      exists b :: SaysCount(b, l.users(|l.events| + 1)) && Follows(m, l, [Info, Sent(b)], false)
    case Leave(nick) =>
      var shown := if Trunc(nick, NICK) == [] then UNKNOWN else Trunc(nick, NICK);
      exists b :: SaysChat(b, ChatMessageData(SERVER, shown + HAS_LEFT, 0))
                  && Follows(m, l, [Info, Broadcasted(b), Closed], true)
  }

  /** Every request of a client is served, and the bytes that go out say what they should. */
  lemma RequestServed(l: Link, q: Request)
    requires !l.closing && !q.Broken?
    ensures ServedAs(l, q, OnPacket(l, RequestBytes(q)))
    ensures ServedAs(l, q, Answer(l, q))
  {
    var f := RequestBytes(q);
    RequestAnswered(l, q);
    match q
    case Login(name) =>
      LoginOnWire(name);
      LoginReplied(l, f);
    case Say(d, r) =>
      SayOnWire(d, r);
      ChatReplied(l, f);
    case AskCount =>
      AskOnWire();
      CountReplied(l, f);
    case Leave(nick) =>
      LeaveOnWire(nick);
      ExitReplied(l, f);
  }
}
