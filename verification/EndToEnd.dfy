/** From the client's requests to what the server does and what the other clients read, through
    constructors, bytes, arbitrary receive boundaries, framing, dispatch and broadcast. */
module EndToEnd {
  import opened Bytes
  import opened CStrings
  import opened PacketFormat
  import opened ChatPackets
  import opened CodecTheorems
  import opened Framing
  import opened Chunking
  import opened PacketHandlers
  import opened Receiving
  import opened Delivery

  /** Everything the client's send loop can send. Broken is its test command: a header that
      announces 9999 bytes, and 4 bytes behind it. */
  datatype Request =
    | Login(name: seq<Byte>)
    | Say(data: ChatMessageData, residue: Residue)
    | AskCount
    | Leave(nick: seq<Byte>)
    | Broken

  const ANNOUNCED: U16 := 9999
  const BROKEN: nat := 8

  function BrokenBytes(): (b: seq<Byte>)
    ensures |b| == BROKEN
  {
    HeaderBytes(PacketHeader(ANNOUNCED, Id(ChatMessage))) + Zeros(4)
  }

  function PacketFor(q: Request): (t: Typed)
    requires !q.Broken?
    ensures WellFormed(t.kind, t.packet)
  {
    match q
    case Login(name) => Typed(LoginReq, MakeLoginReq(name))
    case Say(d, r) => Typed(ChatMessage, PacketOf(d, r))
    case AskCount => Typed(UserCountReq, MakeUserCountReq())
    case Leave(nick) => Typed(Exit, MakeExit(nick))
  }

  function RequestBytes(q: Request): seq<Byte> {
    if q.Broken? then BrokenBytes() else Encode(PacketFor(q).packet)
  }

  /** The bytes the client writes to its socket. */
  function ClientBytes(qs: seq<Request>): seq<Byte> {
    if qs == [] then [] else RequestBytes(qs[0]) + ClientBytes(qs[1..])
  }

  /** The intended answer, in terms of the strings the client supplied; a broken packet should
      change nothing for the requests around it. */
  function Answer(l: Link, q: Request): Link {
    match q
    case Login(name) =>
      var ok := Trunc(name, NICK) != [];
      var why := if ok then [] else INVALID_NICKNAME;
      Note(Reply(l, Encode(MakeLoginAck(l.id, ok, why, l.users(|l.events|)))), LoginLogged(Trunc(name, NICK), ok))
    case Say(d, _) =>
      Note(Note(l, ChatLogged(NormalForm(d), l.id)), Broadcasted(Encode(MakeBroadcast(d.sender, d.message, 0))))
    case AskCount =>
      Reply(Note(l, Info), Encode(MakeUserCountAck(l.users(|l.events| + 1))))
    case Leave(nick) =>
      Departed(l, ExitNotice(ShownName(nick)))
    case Broken => l
  }

  function AnswerAll(l: Link, qs: seq<Request>): Link
    decreases |qs|
  {
    if qs == [] then l else AnswerAll(Answer(l, qs[0]), qs[1..])
  }

  // ---- one request

  lemma RequestHeader(q: Request)
    requires !q.Broken?
    ensures var t := PacketFor(q);
            |Encode(t.packet)| == Size(t.kind) && ParseHeader(Encode(t.packet)) == Header(t.kind)
  {
    var t := PacketFor(q);
    PrintThenParse(t.kind, t.packet, []);
    HeaderRoundTrip(t.packet.header, BodyBytes(t.packet.body));
  }

  lemma NicknameArrives(k: PacketType, p: Packet, initial: Packet)
    requires k == LoginReq || k == Exit
    requires WellFormed(k, p)
    ensures Receive(k, initial, Encode(p)) == p
  {
    PrintThenParse(k, p, []);
    assert Encode(p) + [] == Encode(p);
  }

  lemma ChatArrives(d: ChatMessageData, r: Residue)
    ensures |Encode(PacketOf(d, r))| == Size(ChatMessage)
    ensures ReceivedData(Encode(PacketOf(d, r))) == NormalForm(d)
  {
    var p := PacketOf(d, r);
    var f := Encode(p);
    PrintThenParse(ChatMessage, p, []);
    assert f + [] == f;
    ChatEndToEnd(d, r, p, []);
    AcceptedChat(f);
  }

  /** Copying an already truncated string truncates no further. */
  lemma BroadcastOfNormalForm(d: ChatMessageData)
    ensures MakeBroadcast(NormalForm(d).sender, NormalForm(d).message, 0) ==
              MakeBroadcast(d.sender, d.message, 0)
  {
    TruncFixedPoints(d.sender, NICK);
    TruncFixedPoints(d.message, TEXT);
  }

  lemma RoutedToLogin(l: Link, f: seq<Byte>)
    requires |f| == Size(LoginReq) && ParseHeader(f) == Header(LoginReq)
    ensures OnPacket(l, f) == OnLogin(l, f)
  {
    assert HandlerFor(f) == ToLogin;
  }

  lemma RoutedToChat(l: Link, f: seq<Byte>)
    requires |f| == Size(ChatMessage) && ParseHeader(f) == Header(ChatMessage)
    ensures OnPacket(l, f) == OnChat(l, f)
  {
    assert HandlerFor(f) == ToChat;
  }

  lemma RoutedToExit(l: Link, f: seq<Byte>)
    requires |f| == Size(Exit) && ParseHeader(f) == Header(Exit)
    ensures OnPacket(l, f) == OnExit(l, f)
  {
    assert HandlerFor(f) == ToExit;
  }

  lemma RoutedToUserCount(l: Link, f: seq<Byte>)
    requires |f| == Size(UserCountReq) && ParseHeader(f) == Header(UserCountReq)
    ensures OnPacket(l, f) == OnUserCount(l)
  {
    assert HandlerFor(f) == ToUserCount;
  }

  /** The server's dispatch gives each request its intended answer. */
  lemma RequestAnswered(l: Link, q: Request)
    requires !q.Broken?
    ensures OnPacket(l, Encode(PacketFor(q).packet)) == Answer(l, q)
  {
    var f := Encode(PacketFor(q).packet);
    RequestHeader(q);
    match q
    case Login(name) =>
      RoutedToLogin(l, f);
      LoginAnswered(l, name);
    case Say(d, r) =>
      RoutedToChat(l, f);
      ChatAnswered(l, d, r);
    case AskCount =>
      RoutedToUserCount(l, f);
    case Leave(nick) =>
      RoutedToExit(l, f);
      LeaverShown(nick);
      LeaveAnswered(l, nick, f);
  }

  lemma LoginAnswered(l: Link, name: seq<Byte>)
    ensures OnLogin(l, Encode(MakeLoginReq(name))) == Answer(l, Login(name))
  {
    NicknameArrives(LoginReq, MakeLoginReq(name), MakeLoginReq([]));
    FieldRoundTrip(name, NICK);
  }

  lemma ChatAnswered(l: Link, d: ChatMessageData, r: Residue)
    requires |Encode(PacketOf(d, r))| == Size(ChatMessage)
    ensures OnChat(l, Encode(PacketOf(d, r))) == Answer(l, Say(d, r))
  {
    ChatArrives(d, r);
    BroadcastOfNormalForm(d);
  }

  lemma LeaverShown(nick: seq<Byte>)
    ensures LeaverName(Encode(MakeExit(nick))) == ShownName(nick)
  {
    NicknameArrives(Exit, MakeExit(nick), MakeExit([]));
    TruncOfField(nick, NICK);
  }

  lemma OnWholeExit(l: Link, f: seq<Byte>, name: seq<Byte>)
    requires |f| >= Size(Exit) && name == LeaverName(f)
    ensures OnExit(l, f) == Departed(l, ExitNotice(name))
  {
  }

  lemma AnswerToLeave(l: Link, nick: seq<Byte>)
    ensures Answer(l, Leave(nick)) == Departed(l, ExitNotice(ShownName(nick)))
  {
  }

  lemma LeaveAnswered(l: Link, nick: seq<Byte>, f: seq<Byte>)
    requires |f| == Size(Exit)
    requires LeaverName(f) == ShownName(nick)
    ensures OnExit(l, f) == Answer(l, Leave(nick))
  {
    OnWholeExit(l, f, ShownName(nick));
    AnswerToLeave(l, nick);
  }

  // ---- up to the first broken packet

  /** The requests from the first broken one on. */
  function FromBroken(qs: seq<Request>): (r: seq<Request>)
    ensures |r| <= |qs|
    ensures r == [] || r[0].Broken?
  {
    if qs == [] || qs[0].Broken? then qs else FromBroken(qs[1..])
  }

  /** What the requests before the first broken one come to. */
  function AnswerSound(l: Link, qs: seq<Request>): Link
    decreases |qs|
  {
    if qs == [] || qs[0].Broken? then l else AnswerSound(Answer(l, qs[0]), qs[1..])
  }

  /** How many bytes they take. */
  function SoundLength(qs: seq<Request>): nat {
    if qs == [] || qs[0].Broken? then 0 else |RequestBytes(qs[0])| + SoundLength(qs[1..])
  }

  lemma {:induction false} AnswersSplit(l: Link, qs: seq<Request>)
    ensures AnswerAll(l, qs) == AnswerAll(AnswerSound(l, qs), FromBroken(qs))
    decreases |qs|
  {
    if qs != [] && !qs[0].Broken? {
      AnswersSplit(Answer(l, qs[0]), qs[1..]);
    }
  }

  /** The bytes of those requests, with tail behind them. */
  function SoundThen(qs: seq<Request>, tail: seq<Byte>): seq<Byte> {
    if qs == [] || qs[0].Broken? then tail else RequestBytes(qs[0]) + SoundThen(qs[1..], tail)
  }

  lemma {:induction false} ClientBytesSplit(qs: seq<Request>)
    ensures ClientBytes(qs) == SoundThen(qs, ClientBytes(FromBroken(qs)))
  {
    if qs != [] && !qs[0].Broken? {
      ClientBytesSplit(qs[1..]);
    }
  }

  lemma {:induction false} SoundThenPrefix(qs: seq<Request>, tail: seq<Byte>, k: nat)
    requires k <= |tail|
    ensures |SoundThen(qs, tail)| == SoundLength(qs) + |tail|
    ensures SoundThen(qs, tail)[..SoundLength(qs) + k] == SoundThen(qs, tail[..k])
  {
    if qs != [] && !qs[0].Broken? {
      SoundThenPrefix(qs[1..], tail, k);
      PrependPrefix(RequestBytes(qs[0]), SoundThen(qs[1..], tail), SoundLength(qs[1..]) + k);
    }
  }

  lemma PrependPrefix(e: seq<Byte>, t: seq<Byte>, n: nat)
    requires n <= |t|
    ensures (e + t)[..|e| + n] == e + t[..n]
  {
  }

  lemma RequestFront(q: Request, rest: seq<Byte>)
    requires !q.Broken?
    ensures var e := RequestBytes(q);
            && Verdict(e + rest) == Ok && ParseHeader(e + rest).size == |e| && |e| > 0
            && (e + rest)[..|e|] == e && (e + rest)[|e|..] == rest
  {
    FrameOfPacket(PacketFor(q), rest);
  }

  lemma SoundStep(l: Link, q: Request, rest: seq<Byte>)
    requires !q.Broken?
    ensures Settle(RequestBytes(q) + rest, l) == Settle(rest, Answer(l, q))
  {
    RequestFront(q, rest);
    SettleStep(RequestBytes(q) + rest, l);
    RequestAnswered(l, q);
  }

  /** Whatever bytes follow, the requests before the first broken packet are answered as intended. */
  lemma {:induction false} SoundPartAnswered(l: Link, qs: seq<Request>, tail: seq<Byte>)
    ensures Settle(SoundThen(qs, tail), l) == Settle(tail, AnswerSound(l, qs))
    decreases |qs|
  {
    if qs != [] && !qs[0].Broken? {
      SoundStep(l, qs[0], SoundThen(qs[1..], tail));
      SoundPartAnswered(Answer(l, qs[0]), qs[1..], tail);
    }
  }

  // ---- a whole conversation

  /** A client that leaves says nothing more; the client's send loop ends there. */
  predicate LeavesLast(qs: seq<Request>) {
    forall i | 0 <= i < |qs| - 1 :: !qs[i].Leave?
  }

  lemma RequestIsExit(q: Request)
    requires !q.Broken?
    ensures IsExit(RequestBytes(q)) <==> q.Leave?
  {
    RequestHeader(q);
  }

  /** No request is broken, and the last one is to leave. */
  predicate EndsWithLeave(qs: seq<Request>) {
    qs != [] && FromBroken(qs) == [] && qs[|qs| - 1].Leave?
  }

  lemma LeaveComesLast(qs: seq<Request>)
    requires LeavesLast(qs) && qs != [] && !qs[0].Broken?
    ensures LeavesLast(qs[1..])
    ensures EndsWithLeave(qs) <==> qs[0].Leave? || EndsWithLeave(qs[1..])
    ensures qs[0].Leave? ==> qs[1..] == []
  {
  }

  lemma ExitBehind(q: Request, rest: seq<Byte>)
    requires !q.Broken?
    ensures ExitEnd(RequestBytes(q) + rest) ==
              if q.Leave? then |RequestBytes(q)|
              else if ExitEnd(rest) == 0 then 0
              else |RequestBytes(q)| + ExitEnd(rest)
    ensures |RequestBytes(q)| > 0
  {
    RequestFront(q, rest);
    RequestIsExit(q);
  }

  /** The first Exit of the stream is the client's own, or lies behind the first broken packet. */
  lemma {:induction false} ExitOfConversation(qs: seq<Request>, tail: seq<Byte>)
    requires LeavesLast(qs)
    ensures ExitEnd(SoundThen(qs, tail)) ==
              if EndsWithLeave(qs) then SoundLength(qs)
              else if ExitEnd(tail) > 0 then SoundLength(qs) + ExitEnd(tail)
              else 0
  {
    if qs != [] && !qs[0].Broken? {
      LeaveComesLast(qs);
      ExitBehind(qs[0], SoundThen(qs[1..], tail));
      if qs[0].Leave? {
        assert SoundLength(qs[1..]) == 0;
      } else {
        ExitOfConversation(qs[1..], tail);
      }
    }
  }

  /** A client that sends no broken packet gets every request answered as intended, once and in
      order, however the network splits its bytes into receives. */
  lemma EveryRequestAnswered(l: Link, qs: seq<Request>, chunks: seq<seq<Byte>>)
    requires !l.closing && LeavesLast(qs) && Chunked(chunks, ClientBytes(qs))
    requires FromBroken(qs) == []
    ensures FeedAll(Start(l), chunks).link == AnswerAll(l, qs)
  {
    var b := ClientBytes(qs);
    ClientBytesSplit(qs);
    assert b == SoundThen(qs, []);
    assert Settle(b, l).link == AnswerAll(l, qs) by {
      SoundPartAnswered(l, qs, []);
      AnswersSplit(l, qs);
    }
    assert HasExit(b) ==> ExitEnd(b) == |b| by {
      ExitOfConversation(qs, []);
      SoundThenPrefix(qs, [], 0);
    }
    if HasExit(b) {
      assert UpToExit(b) == b;
      assert Reach(b) == [];
      QuietMeansSame(l, b, chunks);
    } else {
      NoExitNoDifference(l, b, chunks);
    }
  }

  /** The restriction to clients that leave last is needed: with an Exit packet followed by a chat
      message, what the server does depends on the receive boundaries. */
  lemma TalkingAfterLeaving(l: Link, nick: seq<Byte>, d: ChatMessageData, r: Residue)
    requires !l.closing
    ensures exists c1, c2 ::
              && Chunked(c1, ClientBytes([Leave(nick), Say(d, r)]))
              && Chunked(c2, ClientBytes([Leave(nick), Say(d, r)]))
              && FeedAll(Start(l), c1).link != FeedAll(Start(l), c2).link
  {
    var b := ClientBytes([Leave(nick), Say(d, r)]);
    ChatWithinReach(nick, d, r);
    var c1, c2 := LoudMeansDifferent(l, b);
    assert FeedAll(Start(l), c1).link != FeedAll(Start(l), c2).link;
  }

  lemma ChatWithinReach(nick: seq<Byte>, d: ChatMessageData, r: Residue)
    ensures !QuietAfterExit(ClientBytes([Leave(nick), Say(d, r)]))
  {
    var bye, say := Leave(nick), Say(d, r);
    TwoRequests(bye, say);
    assert RequestBytes(say) + [] == RequestBytes(say);
    RequestFront(bye, RequestBytes(say));
    RequestFront(say, []);
    RequestIsExit(bye);
    assert |RequestBytes(say)| < BUFFER_SIZE by { RequestHeader(say); }
    ReachOfWhole(RequestBytes(bye) + RequestBytes(say), RequestBytes(say));
  }

  lemma OneRequest(q: Request)
    ensures ClientBytes([q]) == RequestBytes(q)
  {
    var rest := [q][1..];
    assert rest == [] && ClientBytes(rest) == [];
    assert ClientBytes([q]) == RequestBytes(q) + ClientBytes(rest);
  }

  lemma TwoRequests(p: Request, q: Request)
    ensures ClientBytes([p, q]) == RequestBytes(p) + RequestBytes(q)
  {
    var rest := [p, q][1..];
    assert rest == [q];
    assert ClientBytes([p, q]) == RequestBytes(p) + ClientBytes(rest);
    OneRequest(q);
  }

  /** A stream that starts with an Exit packet and goes on with something short. */
  lemma ReachOfWhole(b: seq<Byte>, f: seq<Byte>)
    requires Verdict(b) == Ok && IsExit(b[..ParseHeader(b).size])
    requires b[ParseHeader(b).size..] == f && |f| < BUFFER_SIZE && Verdict(f) == Ok
    ensures !QuietAfterExit(b)
  {
    assert ExitEnd(b) == ParseHeader(b).size && ReachEnd(b) == |b|;
    assert Reach(b) == f;
  }

  // ---- what the other clients read

  /** A client that decodes the broadcast of a chat message reads its strings cut once, to what the
      fields can hold, and the timestamp zero. */
  lemma ChatReachesOthers(d: ChatMessageData, receiver: Packet, rest: seq<Byte>)
    ensures var p := Receive(ChatBroadcast, receiver, Encode(MakeBroadcast(d.sender, d.message, 0)) + rest);
            p.body.ChatBody? && DataOf(p) == NormalForm(d).(timestamp := 0)
  {
    PrintThenParse(ChatBroadcast, MakeBroadcast(d.sender, d.message, 0), rest);
    FieldRoundTrip(d.sender, NICK);
    FieldRoundTrip(d.message, TEXT);
  }

  lemma UncutReachesOthers(nick: seq<Byte>, text: seq<Byte>, receiver: Packet, rest: seq<Byte>)
    requires FitsUncut(ChatMessageData(nick, text, 0))
    ensures var p := Receive(ChatBroadcast, receiver, Encode(MakeBroadcast(nick, text, 0)) + rest);
            p.body.ChatBody? && DataOf(p) == ChatMessageData(nick, text, 0)
  {
    ChatReachesOthers(ChatMessageData(nick, text, 0), receiver, rest);
    TruncFixedPoints(nick, NICK);
    TruncFixedPoints(text, TEXT);
  }

  lemma NoticeFits(name: seq<Byte>)
    requires |name| < NICK && NUL !in name
    ensures FitsUncut(ChatMessageData(SERVER, name + HAS_LEFT, 0))
  {
  }

  /** The notice that someone left always fits: it is never cut. */
  lemma ExitNoticeIsWhole(f: seq<Byte>, receiver: Packet, rest: seq<Byte>)
    ensures var text := LeaverName(f) + HAS_LEFT;
            var p := Receive(ChatBroadcast, receiver, Encode(MakeBroadcast(SERVER, text, 0)) + rest);
            p.body.ChatBody? && DataOf(p) == ChatMessageData(SERVER, text, 0)
  {
    NoticeFits(LeaverName(f));
    UncutReachesOthers(SERVER, LeaverName(f) + HAS_LEFT, receiver, rest);
  }
}
