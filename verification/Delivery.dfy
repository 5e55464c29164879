/** What a whole connection does with a stream that arrives in arbitrary chunks, and exactly when the
    way it is split into receives can be observed. It can: an Exit packet closes the session, but
    the packets behind it in the same receive are still handled. */
module Delivery {
  import opened Bytes
  import opened CStrings
  import opened PacketFormat
  import opened Framing
  import opened Chunking
  import opened PacketHandlers
  import opened Receiving

  lemma {:induction false} HandleAllConcat(l: Link, a: seq<seq<Byte>>, b: seq<seq<Byte>>)
    ensures HandleAll(l, a + b) == HandleAll(HandleAll(l, a), b)
    decreases |a|
  {
    if a == [] {
      assert a + b == b;
    } else {
      assert (a + b)[0] == a[0] && (a + b)[1..] == a[1..] + b;
      var m := OnPacket(l, a[0]);
      assert HandleAll(l, a + b) == HandleAll(m, a[1..] + b) && HandleAll(l, a) == HandleAll(m, a[1..]);
      HandleAllConcat(m, a[1..], b);
    }
  }

  /** Every packet leaves a trace, and only an Exit packet closes. */
  lemma OnPacketEffects(l: Link, f: seq<Byte>)
    ensures |OnPacket(l, f).events| > |l.events|
    ensures OnPacket(l, f).closing <==> l.closing || IsExit(f)
  {
  }

  lemma {:induction false} HandleAllEffects(l: Link, fs: seq<seq<Byte>>)
    ensures |HandleAll(l, fs).events| >= |l.events| + |fs|
    ensures HandleAll(l, fs).closing <==> l.closing || exists f | f in fs :: IsExit(f)
    decreases |fs|
  {
    if fs != [] {
      OnPacketEffects(l, fs[0]);
      HandleAllEffects(OnPacket(l, fs[0]), fs[1..]);
      assert forall f :: f in fs <==> f == fs[0] || f in fs[1..];
    }
  }

  /** A session that has received b is closing exactly when b holds an Exit or a malformed header. */
  lemma SettleCloses(b: seq<Byte>, l: Link)
    requires !l.closing
    ensures Settle(b, l).link.closing <==> Closes(b)
  {
    HandleAllEffects(l, Frames(b).frames);
    ExitIsAFrame(b);
  }

  /** Settling after more bytes arrived is settling everything at once. */
  lemma SettleConcat(a: seq<Byte>, b: seq<Byte>, l: Link)
    requires !Frames(a).malformed
    ensures Settle(a + b, l) == Settle(Settle(a, l).rx + b, Settle(a, l).link)
  {
    FramesConcat(a, b);
    HandleAllConcat(l, Frames(a).frames, Frames(Frames(a).rest + b).frames);
  }

  /** Between receives: the session is open and what is buffered is an incomplete packet. */
  predicate Waiting(c: Conn) {
    !c.link.closing && Verdict(c.rx) == NeedMore
  }

  /** The overflow branch is never taken: an incomplete packet and one receive always fit. And
      afterwards the session is waiting again, or closing. */
  lemma FeedWaiting(c: Conn, chunk: seq<Byte>)
    requires Waiting(c) && 0 < |chunk| <= BUFFER_SIZE
    ensures |c.rx| + |chunk| < CAPACITY
    ensures Feed(c, chunk) == Settle(c.rx + chunk, c.link)
    ensures Waiting(Feed(c, chunk)) || Feed(c, chunk).link.closing
  {
    RestIsShort(c.rx);
  }

  /** Feeding the chunks one after another; once closing, no further receive is posted. */
  function FeedAll(c: Conn, chunks: seq<seq<Byte>>): Conn
    requires Waiting(c) || c.link.closing
    requires Proper(chunks)
    decreases |chunks|
  {
    if chunks == [] || c.link.closing then c
    else
      FeedWaiting(c, chunks[0]);
      FeedAll(Feed(c, chunks[0]), chunks[1..])
  }

  function Start(l: Link): Conn { Conn([], l) }

  lemma {:induction false} FeedAllSettles(b: seq<Byte>, l: Link, chunks: seq<seq<Byte>>)
    requires !l.closing && Proper(chunks)
    ensures Waiting(Settle(b, l)) || Settle(b, l).link.closing
    ensures FeedAll(Settle(b, l), chunks) == Settle(Received(b, chunks), l)
    decreases |chunks|
  {
    SettleCloses(b, l);
    if chunks != [] && !Closes(b) {
      FeedWaiting(Settle(b, l), chunks[0]);
      SettleConcat(b, chunks[0], l);
      FeedAllSettles(b + chunks[0], l, chunks[1..]);
    }
  }

  /** Chunk boundaries do not matter as such: for every split of a stream, the outcome is that of
      handling, in one go, the bytes received; and an open session has received all of them. */
  lemma ChunksReassemble(l: Link, chunks: seq<seq<Byte>>)
    requires !l.closing && Proper(chunks)
    ensures FeedAll(Start(l), chunks) == Settle(Received([], chunks), l)
    ensures Received([], chunks) <= Flatten(chunks)
    ensures !FeedAll(Start(l), chunks).link.closing ==> Received([], chunks) == Flatten(chunks)
  {
    FeedAllSettles([], l, chunks);
    assert Settle([], l) == Start(l);
    ReceivedIsPrefix([], chunks);
    assert [] + Flatten(chunks) == Flatten(chunks);
    SettleCloses(Received([], chunks), l);
    if !Closes(Received([], chunks)) {
      OpenReceivesAll([], chunks);
    }
  }

  /** When the stream holds an Exit packet, the server handles exactly the bytes up to the end of
      the receive in which that packet becomes complete. */
  lemma HandledUpToChunkEnd(l: Link, b: seq<Byte>, chunks: seq<seq<Byte>>)
    requires !l.closing && Chunked(chunks, b) && HasExit(b)
    ensures var m := Cover(chunks, ExitEnd(b));
            FeedAll(Start(l), chunks) == Settle(b[..m], l)
  {
    ChunksReassemble(l, chunks);
    ReceivedCoversExit(b, chunks);
  }

  /** Without an Exit packet the split into receives cannot be observed at all. Replies
      that carry a connection count agree because the count is indexed by the number of events so
      far, not by time; see Link.users. */
  lemma NoExitNoDifference(l: Link, b: seq<Byte>, chunks: seq<seq<Byte>>)
    requires !l.closing && Chunked(chunks, b) && !HasExit(b)
    ensures FeedAll(Start(l), chunks).link == Settle(b, l).link
  {
    ChunksReassemble(l, chunks);
    ReceivedWithoutExit(chunks);
  }

  lemma SettleWhole(u: seq<Byte>, t: seq<Byte>, l: Link)
    requires Frames(u).rest == [] && !Frames(u).malformed
    ensures Settle(u + t, l) == Settle(t, Settle(u, l).link)
  {
    SettleConcat(u, t, l);
    assert [] + t == t;
  }

  /** Handling more bytes behind the first Exit. */
  lemma SettlePastExit(l: Link, b: seq<Byte>, m: nat)
    requires HasExit(b) && ExitEnd(b) <= m <= |b|
    ensures Settle(b[..m], l) == Settle(b[ExitEnd(b)..m], Settle(UpToExit(b), l).link)
  {
    UpToExitIsWhole(b);
    SettleWhole(UpToExit(b), b[ExitEnd(b)..m], l);
    SplitPrefix(b, ExitEnd(b), m);
  }

  /** Handling bytes leaves a trace exactly when a packet or a malformed header is complete. */
  lemma SettleEvents(t: seq<Byte>, m: Link)
    ensures Verdict(t) == NeedMore ==> Settle(t, m).link == m
    ensures Verdict(t) != NeedMore ==> |Settle(t, m).link.events| > |m.events|
  {
    HandleAllEffects(m, Frames(t).frames);
  }

  /** If nothing is in reach, every way of receiving the stream ends as if it stopped at Exit. */
  lemma QuietMeansSame(l: Link, b: seq<Byte>, chunks: seq<seq<Byte>>)
    requires !l.closing && Chunked(chunks, b) && HasExit(b) && QuietAfterExit(b)
    ensures FeedAll(Start(l), chunks).link == Settle(UpToExit(b), l).link
  {
    var u := ExitEnd(b);
    var m := Cover(chunks, u);
    HandledUpToChunkEnd(l, b, chunks);
    SettlePastExit(l, b, m);
    QuietSlice(b, u, m, ReachEnd(b));
    SettleEvents(b[u..m], Settle(UpToExit(b), l).link);
  }

  lemma ByteByByte(l: Link, b: seq<Byte>)
    requires !l.closing && HasExit(b)
    ensures Chunked(Singles(b), b)
    ensures FeedAll(Start(l), Singles(b)) == Settle(UpToExit(b), l)
  {
    SinglesCover(b);
    HandledUpToChunkEnd(l, b, Singles(b));
  }

  lemma Greedily(l: Link, b: seq<Byte>) returns (chunks: seq<seq<Byte>>)
    requires !l.closing && HasExit(b)
    ensures Chunked(chunks, b)
    ensures FeedAll(Start(l), chunks) == Settle(Reach(b), Settle(UpToExit(b), l).link)
  {
    chunks := GreedyChunks(b);
    HandledUpToChunkEnd(l, b, chunks);
    SettleReach(l, b);
  }

  lemma SettleReach(l: Link, b: seq<Byte>)
    requires HasExit(b)
    ensures Settle(b[..ReachEnd(b)], l) == Settle(Reach(b), Settle(UpToExit(b), l).link)
  {
    SettlePastExit(l, b, ReachEnd(b));
  }

  /** If something is in reach, receiving byte by byte and receiving greedily end differently. */
  lemma LoudMeansDifferent(l: Link, b: seq<Byte>) returns (c1: seq<seq<Byte>>, c2: seq<seq<Byte>>)
    requires !l.closing && !QuietAfterExit(b)
    ensures Chunked(c1, b) && Chunked(c2, b)
    ensures |FeedAll(Start(l), c1).link.events| > |FeedAll(Start(l), c2).link.events|
  {
    c1 := Greedily(l, b);
    c2 := Singles(b);
    ByteByByte(l, b);
    SettleEvents(Reach(b), Settle(UpToExit(b), l).link);
  }

  /** The outcome of a stream is independent of how it is split into receives if and only if
      nothing can be handled behind its first Exit packet. */
  lemma ChunkingIrrelevant(l: Link, b: seq<Byte>)
    requires !l.closing
    ensures QuietAfterExit(b) <==>
              forall c1, c2 | Chunked(c1, b) && Chunked(c2, b) ::
                FeedAll(Start(l), c1).link == FeedAll(Start(l), c2).link
  {
    if QuietAfterExit(b) {
      forall c1, c2 | Chunked(c1, b) && Chunked(c2, b)
        ensures FeedAll(Start(l), c1).link == FeedAll(Start(l), c2).link
      {
        if HasExit(b) {
          QuietMeansSame(l, b, c1);
          QuietMeansSame(l, b, c2);
        } else {
          NoExitNoDifference(l, b, c1);
          NoExitNoDifference(l, b, c2);
        }
      }
    } else {
      var c1, c2 := LoudMeansDifferent(l, b);
      assert FeedAll(Start(l), c1).link != FeedAll(Start(l), c2).link;
    }
  }

  // ---- the one scan that may leave its array

  /** A login packet whose nickname field holds no NUL. */
  predicate Unterminated(f: seq<Byte>) {
    Accepts(LoginReq, f) && NUL !in f[HEADER..Size(LoginReq)]
  }

  lemma ReceivedNickname(f: seq<Byte>)
    requires Accepts(LoginReq, f)
    ensures Receive(LoginReq, MakeLoginReq([]), f).body.nickname == f[HEADER..Size(LoginReq)]
  {
  }

  lemma LoginOverreads(l: Link, f: seq<Byte>)
    requires Accepts(LoginReq, f)
    ensures Overread in OnLogin(l, f).events <==> Overread in l.events || Unterminated(f)
  {
    ReceivedNickname(f);
    LoginLeavesLine(l, f);
  }

  lemma LoginLeavesLine(l: Link, f: seq<Byte>)
    ensures var nick := Receive(LoginReq, MakeLoginReq([]), f).body.nickname;
            Overread in OnLogin(l, f).events <==> Overread in l.events || NUL !in nick
  {
    var nick := Receive(LoginReq, MakeLoginReq([]), f).body.nickname;
    var es := OnLogin(l, f).events;
    var line := LoginLine(nick, nick[0] != NUL);
    assert es == l.events + [line] || (|es| == |l.events| + 2 && es[..|l.events|] == l.events
                                       && es[|l.events|].Sent? && es[|l.events| + 1] == line);
  }

  lemma DepartureStaysInside(l: Link, e: Event)
    requires e != Overread
    ensures Overread in Departed(l, e).events <==> Overread in l.events
  {
  }

  lemma ExitStaysInside(l: Link, f: seq<Byte>)
    ensures Overread in OnExit(l, f).events <==> Overread in l.events
  {
    DepartureStaysInside(l, if |f| < Size(Exit) then Warn else ExitNotice(LeaverName(f)));
  }

  lemma ChatStaysInside(l: Link, f: seq<Byte>)
    requires |f| >= Size(ChatMessage)
    ensures Overread in OnChat(l, f).events <==> Overread in l.events
  {
  }

  lemma CountStaysInside(l: Link)
    ensures Overread in OnUserCount(l).events <==> Overread in l.events
  {
  }

  /** Handling a packet stays inside every array exactly unless it is such a login packet. */
  lemma OverreadExactly(l: Link, f: seq<Byte>)
    ensures Overread in OnPacket(l, f).events <==> Overread in l.events || Unterminated(f)
  {
    match HandlerFor(f)
    case ToLogin => LoginOverreads(l, f);
    case ToChat => ChatStaysInside(l, f);
    case ToExit => ExitStaysInside(l, f);
    case ToUserCount => CountStaysInside(l);
    case ToNobody =>
  }

  lemma {:induction false} HandleAllOverreads(l: Link, fs: seq<seq<Byte>>)
    ensures Overread in HandleAll(l, fs).events <==>
              Overread in l.events || exists f | f in fs :: Unterminated(f)
    decreases |fs|
  {
    if fs != [] {
      OverreadExactly(l, fs[0]);
      HandleAllOverreads(OnPacket(l, fs[0]), fs[1..]);
      assert forall f :: f in fs <==> f == fs[0] || f in fs[1..];
    }
  }

  /** For every stream and every split of it: the connection never reads outside an array if and
      only if no packet it pops is a login packet without a NUL in its nickname. */
  lemma StreamOverreads(l: Link, chunks: seq<seq<Byte>>)
    requires !l.closing && Proper(chunks) && Overread !in l.events
    ensures Overread !in FeedAll(Start(l), chunks).link.events <==>
              forall f | f in Frames(Received([], chunks)).frames :: !Unterminated(f)
  {
    ChunksReassemble(l, chunks);
    HandleAllOverreads(l, Frames(Received([], chunks)).frames);
  }

  /** Such a packet exists: own id and size, and a nickname field without a NUL. */
  lemma UnterminatedLogin(l: Link, nick: seq<Byte>)
    requires |nick| == NICK && NUL !in nick
    ensures var f := HeaderBytes(Header(LoginReq)) + nick;
            Unterminated(f) && Overread in OnPacket(l, f).events
  {
    var f := HeaderBytes(Header(LoginReq)) + nick;
    HeaderRoundTrip(Header(LoginReq), nick);
    assert f[HEADER..Size(LoginReq)] == nick;
    OverreadExactly(l, f);
  }

  /** No login packet the packet class builds is one. */
  lemma BuiltLoginsAreTerminated(name: seq<Byte>)
    ensures !Unterminated(Encode(MakeLoginReq(name)))
  {
    FieldRoundTrip(name, NICK);
    assert Encode(MakeLoginReq(name))[HEADER..Size(LoginReq)] == Field(name, NICK);
  }
}
