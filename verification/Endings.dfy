/** How a connection ends: the client closes its socket, sends a malformed header or too much; and
    that a session is closed once, whatever its stream and however it arrives. */
module Endings {
  import opened Bytes
  import opened CStrings
  import opened PacketFormat
  import opened ChatPackets
  import opened Framing
  import opened Chunking
  import opened PacketHandlers
  import opened Receiving
  import opened Delivery

  /** A session that is closed for any reason leaves one trace of it. */
  function ClosedIfOpen(l: Link): seq<Event> { if l.closing then [] else [Closed] }

  /** A receive of no bytes is the end of the client's stream: the session closes, and what is still
      buffered stays there unhandled. */
  lemma EndOfStream(c: Conn)
    requires |c.rx| <= CAPACITY
    ensures var d := Feed(c, []);
            && d.rx == c.rx && d.link.closing
            && d.link.events == c.link.events + ClosedIfOpen(c.link)
            && d.link.id == c.link.id && d.link.users == c.link.users
  {
  }

  /** More than fits: what fits is kept, nothing is handled, and the session closes. */
  lemma Overflow(c: Conn, chunk: seq<Byte>)
    requires |c.rx| <= CAPACITY && |c.rx| + |chunk| > CAPACITY
    ensures var d := Feed(c, chunk);
            && d.rx == (c.rx + chunk)[..CAPACITY] && d.link.closing
            && d.link.events == c.link.events + [Warn] + ClosedIfOpen(c.link)
  {
    assert (c.rx + chunk)[..CAPACITY] == c.rx + chunk[..CAPACITY - |c.rx|];
  }

  /** A malformed header: the packets in front of it are handled, and the session closes. */
  lemma MalformedCloses(b: seq<Byte>, l: Link)
    requires Frames(b).malformed
    ensures var m := HandleAll(l, Frames(b).frames);
            && Settle(b, l).link.closing
            && Settle(b, l).link.events == m.events + [Warn] + ClosedIfOpen(m)
  {
  }

  // ---- closed once

  function TimesClosed(l: Link): nat { multiset(l.events)[Closed] }

  predicate ClosesOnce(l: Link, m: Link) {
    && (l.closing ==> m.closing)
    && TimesClosed(m) == TimesClosed(l) + if m.closing && !l.closing then 1 else 0
  }

  lemma NoteKeeps(l: Link, e: Event)
    requires e != Closed
    ensures ClosesOnce(l, Note(l, e))
  {
  }

  lemma CloseCloses(l: Link)
    ensures ClosesOnce(l, Close(l)) && Close(l).closing
  {
  }

  lemma ReplyKeeps(l: Link, bytes: seq<Byte>)
    ensures ClosesOnce(l, Reply(l, bytes))
  {
    NoteKeeps(l, Sent(bytes));
  }

  lemma DepartureCloses(l: Link, e: Event)
    requires e != Closed
    ensures ClosesOnce(l, Departed(l, e))
  {
    NoteKeeps(l, Info);
    NoteKeeps(Note(l, Info), e);
    CloseCloses(Note(Note(l, Info), e));
  }

  lemma LoginKeeps(l: Link, f: seq<Byte>)
    ensures ClosesOnce(l, OnLogin(l, f))
  {
    var nick := Receive(LoginReq, MakeLoginReq([]), f).body.nickname;
    var ok := nick[0] != NUL;
    var out := Encode(MakeLoginAck(l.id, ok, if ok then [] else INVALID_NICKNAME, l.users(|l.events|)));
    ReplyKeeps(l, out);
    NoteKeeps(Reply(l, out), LoginLine(nick, ok));
  }

  lemma ChatKeeps(l: Link, f: seq<Byte>)
    requires |f| >= Size(ChatMessage)
    ensures ClosesOnce(l, OnChat(l, f))
  {
    var d := ReceivedData(f);
    var e := ChatLogged(d, l.id);
    NoteKeeps(l, e);
    NoteKeeps(Note(l, e), Broadcasted(Encode(MakeBroadcast(d.sender, d.message, 0))));
  }

  lemma CountKeeps(l: Link)
    ensures ClosesOnce(l, OnUserCount(l))
  {
    var m := Note(l, Info);
    NoteKeeps(l, Info);
    ReplyKeeps(m, Encode(MakeUserCountAck(m.users(|m.events|))));
  }

  lemma PacketClosesOnce(l: Link, f: seq<Byte>)
    ensures ClosesOnce(l, OnPacket(l, f))
  {
    match HandlerFor(f)
    case ToLogin => LoginKeeps(l, f);
    case ToChat => ChatKeeps(l, f);
    case ToExit => DepartureCloses(l, if |f| < Size(Exit) then Warn else ExitNotice(LeaverName(f)));
    case ToUserCount => CountKeeps(l);
    case ToNobody => NoteKeeps(l, Error);
  }

  lemma {:induction false} HandleAllClosesOnce(l: Link, fs: seq<seq<Byte>>)
    ensures ClosesOnce(l, HandleAll(l, fs))
    decreases |fs|
  {
    if fs != [] {
      PacketClosesOnce(l, fs[0]);
      HandleAllClosesOnce(OnPacket(l, fs[0]), fs[1..]);
    }
  }

  lemma SettleClosesOnce(b: seq<Byte>, l: Link)
    ensures ClosesOnce(l, Settle(b, l).link)
  {
    var m := HandleAll(l, Frames(b).frames);
    HandleAllClosesOnce(l, Frames(b).frames);
    NoteKeeps(m, Warn);
    CloseCloses(Note(m, Warn));
  }

  /** The client closes its socket; a session that is closed already posts no further receive. */
  function HangUp(c: Conn): Conn
    requires |c.rx| <= CAPACITY || c.link.closing
  {
    if c.link.closing then c else Feed(c, [])
  }

  /** Any stream, in any split, followed by its end: the session is closed, exactly once. */
  lemma ClosedExactlyOnce(l: Link, chunks: seq<seq<Byte>>)
    requires !l.closing && Proper(chunks)
    ensures var c := FeedAll(Start(l), chunks);
            && (|c.rx| <= CAPACITY || c.link.closing)
            && HangUp(c).link.closing && TimesClosed(HangUp(c).link) == TimesClosed(l) + 1
  {
    var c := FeedAll(Start(l), chunks);
    ChunksReassemble(l, chunks);
    SettleClosesOnce(Received([], chunks), l);
    if !c.link.closing {
      OpenRestIsShort(l, Received([], chunks));
      CloseCloses(c.link);
    }
  }

  lemma OpenRestIsShort(l: Link, b: seq<Byte>)
    requires !l.closing && !Settle(b, l).link.closing
    ensures |Settle(b, l).rx| < MAX_PACKET
  {
    RestIsShort(Frames(b).rest);
  }
}
