/** What the server does with one packet of one session: logging, replies, broadcasts, closing. */
module PacketHandlers {
  import opened Bytes
  import opened CStrings
  import opened PacketFormat
  import opened Buffers
  import opened NicknamePackets
  import opened CountPackets
  import opened LoginAckPacket
  import opened ChatPackets
  import opened RingBuffers

  /** The observable effects, in the order they happen. */
  datatype Event =
    | Info | Warn | Error
    | ChatLogged(data: ChatMessageData, session: U64)
    | Sent(bytes: seq<Byte>)         // queued for this session
    | Broadcasted(bytes: seq<Byte>)  // queued for every other session
    | Closed
    | LoginLogged(nick: seq<Byte>, accepted: bool)
    | Overread                       // a scan ran off its array; nothing is promised from here on

  /** A session as its packets see it. users is the connection count other threads keep changing:
      its reading after n events. Two ways of receiving the same bytes thus see the same counts by
      choice of this parameter. */
  datatype Link = Link(id: U64, users: nat -> I32, closing: bool, events: seq<Event>)

  // The server's own texts, in the code page 949 bytes of the source file.
  const SERVER: seq<Byte> := [188, 173, 185, 246]
  const UNKNOWN: seq<Byte> := [190, 203, 188, 246, 190, 248, 192, 189]
  const HAS_LEFT: seq<Byte> :=
    [32, 180, 212, 192, 204, 32, 197, 240, 192, 229, 199, 223, 189, 192, 180, 207, 180, 217, 46]
  const INVALID_NICKNAME: seq<Byte> :=
    [105, 110, 118, 97, 108, 105, 100, 32, 110, 105, 99, 107, 110, 97, 109, 101]

  function Note(l: Link, e: Event): Link { l.(events := l.events + [e]) }

  /** EnqueueSend drops the data once the session is closing. */
  function Reply(l: Link, bytes: seq<Byte>): Link {
    if l.closing then l else Note(l, Sent(bytes))
  }

  /** CloseSession takes effect once. */
  function Close(l: Link): Link {
    if l.closing then l else Note(l.(closing := true), Closed)
  }

  function OnChat(l: Link, f: seq<Byte>): Link
    requires |f| >= Size(ChatMessage)
  {
    var d := ReceivedData(f);
    Note(Note(l, ChatLogged(d, l.id)), Broadcasted(Encode(MakeBroadcast(d.sender, d.message, 0))))
  }

  /** The name an exit notice uses for a nickname; an empty one is replaced. */
  function ShownName(nick: seq<Byte>): (name: seq<Byte>)
    ensures 0 < |name| < NICK && NUL !in name
  {
    if Trunc(nick, NICK) == [] then UNKNOWN else Trunc(nick, NICK)
  }

  function LeaverName(f: seq<Byte>): (name: seq<Byte>)
    ensures 0 < |name| < NICK && NUL !in name
  {
    ShownName(Receive(Exit, MakeExit([]), f).body.nickname)
  }

  /** What the others are told when someone leaves. */
  function ExitNotice(name: seq<Byte>): (e: Event)
    ensures e.Broadcasted?
  {
    Broadcasted(Encode(MakeBroadcast(SERVER, name + HAS_LEFT, 0)))
  }

  /** Logged, told to whoever e goes to, and closed. */
  function Departed(l: Link, e: Event): Link { Close(Note(Note(l, Info), e)) }

  function OnExit(l: Link, f: seq<Byte>): Link {
    Departed(l, if |f| < Size(Exit) then Warn else ExitNotice(LeaverName(f)))
  }

  function OnUserCount(l: Link): Link {
    var m := Note(l, Info);
    Reply(m, Encode(MakeUserCountAck(m.users(|m.events|))))
  }

  function OnLogin(l: Link, f: seq<Byte>): Link {
    var nick := Receive(LoginReq, MakeLoginReq([]), f).body.nickname;
    var ok := nick[0] != NUL;
    var why := if ok then [] else INVALID_NICKNAME;
    Note(Reply(l, Encode(MakeLoginAck(l.id, ok, why, l.users(|l.events|)))), LoginLine(nick, ok))
  }

  /** The line that logs a login prints the nickname field as a C string, terminated or not. */
  function LoginLine(nick: seq<Byte>, ok: bool): Event {
    if NUL in nick then LoginLogged(Cut(nick), ok) else Overread
  }

  datatype Handler = ToLogin | ToChat | ToExit | ToUserCount | ToNobody

  /** The dispatch on id and size. */
  function HandlerFor(f: seq<Byte>): (r: Handler)
    ensures r == ToChat <==> Accepts(ChatMessage, f)
    ensures r == ToUserCount <==> |f| >= HEADER && ParseHeader(f) == Header(UserCountReq)
    ensures r == ToLogin <==> Accepts(LoginReq, f)
    ensures r == ToExit <==> |f| >= HEADER && ParseHeader(f) == Header(Exit) && |f| >= Size(Exit)
  {
    if |f| < HEADER then ToNobody
    else
      var h := ParseHeader(f);
      if h.size < HEADER || |f| < h.size then ToNobody
      else if h.id == Id(LoginReq) && h.size == Size(LoginReq) then ToLogin
      else if h.id == Id(ChatMessage) && h.size == Size(ChatMessage) then ToChat
      else if h.id == Id(Exit) && h.size == Size(Exit) then ToExit
      else if h.id == Id(UserCountReq) && h.size == Size(UserCountReq) then ToUserCount
      else ToNobody
  }

  function OnPacket(l: Link, f: seq<Byte>): Link {
    match HandlerFor(f)
    case ToLogin => OnLogin(l, f)
    case ToChat => OnChat(l, f)
    case ToExit => OnExit(l, f)
    case ToUserCount => OnUserCount(l)
    case ToNobody => Note(l, Error)
  }

  // ---- the same, as the imperative handler

  /** A copy of pkt with both text fields terminated. */
  method SafeCopy(pkt: ChatMessagePacket) returns (safe: ChatMessagePacket)
    requires pkt.Valid()
    ensures safe.Valid() && fresh(safe) && fresh(safe.sender) && fresh(safe.message)
    ensures safe.timestamp == pkt.timestamp
    ensures NUL in safe.sender[..] && Cut(safe.sender[..]) == Trunc(pkt.sender[..], NICK)
    ensures NUL in safe.message[..] && Cut(safe.message[..]) == Trunc(pkt.message[..], TEXT)
  {
    safe := new ChatMessagePacket();
    safe.Assign(pkt);
    ghost var v := safe.Value();
    assert v == pkt.Value();
    safe.sender[NICK - 1] := NUL;
    safe.message[TEXT - 1] := NUL;
    assert safe.sender[..] == v.body.sender[NICK - 1 := NUL];
    assert safe.message[..] == v.body.message[TEXT - 1 := NUL];
    CutAfterForcedNul(pkt.sender[..]);
    CutAfterForcedNul(pkt.message[..]);
  }

  /** The chat struct at the front of the buffer. */
  method PacketImage(buf: array<Byte>) returns (p: ChatMessagePacket)
    requires buf.Length >= Size(ChatMessage)
    ensures p.Valid() && fresh(p) && fresh(p.sender) && fresh(p.message)
    ensures ReceivedData(buf[..]) ==
              ChatMessageData(Trunc(p.sender[..], NICK), Trunc(p.message[..], TEXT), p.timestamp)
  {
    p := new ChatMessagePacket();
    p.header := HeaderAt(buf, buf.Length);
    Fill(p.sender, buf, HEADER);
    Fill(p.message, buf, HEADER + NICK);
    p.timestamp := DecodeU64(buf[HEADER + NICK + TEXT..HEADER + NICK + TEXT + 8]);
    assert buf[..][HEADER..HEADER + NICK] == p.sender[..];
    assert buf[..][HEADER + NICK..HEADER + NICK + TEXT] == p.message[..];
    assert buf[..][HEADER + NICK + TEXT..HEADER + NICK + TEXT + 8] ==
           buf[HEADER + NICK + TEXT..HEADER + NICK + TEXT + 8];
  }

  /** A broadcast built from two C strings, serialised. */
  method BroadcastBytes(nick: seq<Byte>, msg: seq<Byte>) returns (bytes: seq<Byte>)
    ensures bytes == Encode(MakeBroadcast(nick, msg, 0))
  {
    var bcast := new PKChatBroadcast.Of(Some(nick), Some(msg), 0);
    var out := bcast.Serialize();
    assert out[..] == Encode(bcast.Value());
    bytes := out[..];
  }

  /** The leaver's name, or the placeholder when it is empty. */
  method DisplayName(nickname: array<Byte>) returns (shown: seq<Byte>)
    ensures shown == ShownName(nickname[..])
  {
    var name := new Byte[NICK](_ => NUL);
    var text := nickname[..];
    CopyShort(name, text);
    FieldRoundTrip(text, NICK);
    assert name[..][0] == NUL <==> Trunc(text, NICK) == [];
    if name[0] == NUL {
      CopyShort(name, UNKNOWN);
      FieldRoundTrip(UNKNOWN, NICK);
      TruncFixedPoints(UNKNOWN, NICK);
    }
    shown := ScanCString(name);
  }

  method Route(buf: array<Byte>) returns (r: Handler)
    ensures r == HandlerFor(buf[..])
  {
    assert buf[..buf.Length] == buf[..];
    if buf.Length < HEADER { return ToNobody; }
    var h := HeaderAt(buf, buf.Length);
    if h.size < HEADER || buf.Length < h.size { return ToNobody; }
    match h.id {
      case 11 => r := if h.size == HEADER + NICK then ToLogin else ToNobody;
      case 1 => r := if h.size == HEADER + NICK + TEXT + 8 then ToChat else ToNobody;
      case 2 => r := if h.size == HEADER + NICK then ToExit else ToNobody;
      case 13 => r := if h.size == HEADER then ToUserCount else ToNobody;
      case _ => r := ToNobody;
    }
  }

  class Session {
    var id: U64
    var closing: bool
    const rx: RingBuffer
    const users: nat -> I32
    var events: seq<Event>

    constructor (id: U64, users: nat -> I32)
      ensures rx.Valid() && fresh(rx) && fresh(rx.buf) && rx.Contents() == []
      ensures rx.buf.Length == 64 * 1024
      ensures State() == Link(id, users, false, [])
    {
      this.id, closing, events := id, false, [];
      rx := new RingBuffer(64 * 1024);
      this.users := users;
    }

    ghost function State(): Link
      reads this
    {
      Link(id, users, closing, events)
    }

    method Record(e: Event)
      modifies `events
      ensures State() == Note(old(State()), e)
    {
      events := events + [e];
    }

    method EnqueueSend(data: array<Byte>)
      modifies `events
      ensures State() == Reply(old(State()), data[..])
      ensures events == old(events) + if closing then [] else [Sent(data[..])]
    {
      if closing { return; }
      events := events + [Sent(data[..])];
    }

    method CloseSession()
      modifies `events, `closing
      ensures State() == Close(old(State()))
      ensures closing && events == old(events) + if old(closing) then [] else [Closed]
    {
      var was := closing;
      closing := true;
      if was { return; }
      events := events + [Closed];
    }

    method HandleChatMessage(pkt: ChatMessagePacket)
      requires pkt.Valid()
      modifies `events
      ensures var d := ChatMessageData(Trunc(pkt.sender[..], NICK), Trunc(pkt.message[..], TEXT), pkt.timestamp);
              State() == Note(Note(old(State()), ChatLogged(d, id)),
                              Broadcasted(Encode(MakeBroadcast(d.sender, d.message, 0))))
    {
      var safe := SafeCopy(pkt);
      var d := ToData(safe);
      Record(ChatLogged(d, id));
      FieldOfField(safe.sender[..]);
      FieldOfField(safe.message[..]);
      var bytes := BroadcastBytes(safe.sender[..], safe.message[..]);
      Record(Broadcasted(bytes));
    }

    method HandleExit(buf: array<Byte>)
      modifies `events, `closing
      ensures State() == OnExit(old(State()), buf[..])
    {
      Record(Info);
      if buf.Length < HEADER + NICK {
        Record(Warn);
        CloseSession();
        return;
      }
      var req := new PKExit();
      req.Deserialize(buf, buf.Length);
      assert buf[..buf.Length] == buf[..];
      var shown := DisplayName(req.nickname);
      var bytes := BroadcastBytes(SERVER, shown + HAS_LEFT);
      Record(Broadcasted(bytes));
      CloseSession();
    }

    method HandleUserCount()
      modifies `events
      ensures State() == OnUserCount(old(State()))
    {
      Record(Info);
      var count := users(|events|);
      var ack := new PKUserCountAck.Of(count);
      var bytes := ack.Serialize();
      assert bytes[..] == Encode(ack.Value());
      EnqueueSend(bytes);
    }

    method HandleLogin(buf: array<Byte>)
      modifies `events
      ensures State() == OnLogin(old(State()), buf[..])
    {
      var req := new PKLoginReq();
      req.Deserialize(buf, buf.Length);
      assert buf[..buf.Length] == buf[..];
      var accepted := req.nickname[0] != NUL;
      var cur := users(|events|);
      var why := if accepted then [] else INVALID_NICKNAME;
      var ack := new PKLoginAck.Of(id, accepted, Some(why), cur);
      var bytes := ack.Serialize();
      assert bytes[..] == Encode(ack.Value());
      EnqueueSend(bytes);
      var shown := ScanUnchecked(req.nickname);
      Record(if shown.Some? then LoginLogged(shown.value, accepted) else Overread);
    }

    method ProcessChat(buf: array<Byte>)
      requires buf.Length >= Size(ChatMessage)
      modifies `events
      ensures State() == OnChat(old(State()), buf[..])
    {
      var p := PacketImage(buf);
      HandleChatMessage(p);
    }

    /** ProcessOnePacket: the length and header tests, then the switch on the id. */
    method ProcessOnePacket(buf: array<Byte>)
      modifies `events, `closing
      ensures State() == OnPacket(old(State()), buf[..])
    {
      var r := Route(buf);
      match r {
        case ToLogin => HandleLogin(buf);
        case ToChat => ProcessChat(buf);
        case ToExit => HandleExit(buf);
        case ToUserCount => HandleUserCount();
        case ToNobody => Record(Error);
      }
    }
  }

  /** Copying a terminated array as a C string gives the same field as copying its text. */
  lemma FieldOfField(f: seq<Byte>)
    requires NUL in f
    ensures Field(Cut(f), |f|) == Field(f, |f|)
  {
    TerminatedShape(f);
    CutOfTerminated(Cut(f), []);
  }
}
