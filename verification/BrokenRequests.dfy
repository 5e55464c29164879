/** What the client's broken test packet does to the requests behind it: it makes the framer wait for
    9999 bytes, so that they are swallowed, and whatever is left of them is read out of step. */
module BrokenRequests {
  import opened Bytes
  import opened CStrings
  import opened PacketFormat
  import opened ChatPackets
  import opened Framing
  import opened Chunking
  import opened PacketHandlers
  import opened Receiving
  import opened Delivery
  import opened EndToEnd

  /** The test packet on the wire: size 9999, the id of a chat message, four zero bytes. */
  lemma BrokenOnWire()
    ensures RequestBytes(Broken) == [15, 39, 1, 0, 0, 0, 0, 0]
  {
    HeaderOnWire(PacketHeader(ANNOUNCED, Id(ChatMessage)));
    assert Zeros(4) == [0, 0, 0, 0];
  }

  // ---- which requests are answered

  /** A broken packet makes the framer wait for 9999 bytes, and drop them as one unknown packet. */
  lemma BrokenFront(qs: seq<Request>, n: nat)
    requires qs != [] && qs[0].Broken? && BROKEN <= n <= |ClientBytes(qs)|
    ensures ParseHeader(ClientBytes(qs)[..n]) == PacketHeader(ANNOUNCED, Id(ChatMessage))
    ensures Verdict(ClientBytes(qs)[..n]) == if n < ANNOUNCED then NeedMore else Ok
  {
    var h := PacketHeader(ANNOUNCED, Id(ChatMessage));
    var x := ClientBytes(qs)[..n];
    HeaderRoundTrip(h, x[HEADER..]);
    assert x[..HEADER] == HeaderBytes(h);
    assert x == x[..HEADER] + x[HEADER..];
  }

  lemma OnPacketExtends(l: Link, f: seq<Byte>)
    ensures l.events <= OnPacket(l, f).events
  {
  }

  lemma {:induction false} HandleAllExtends(l: Link, fs: seq<seq<Byte>>)
    ensures l.events <= HandleAll(l, fs).events
    decreases |fs|
  {
    if fs != [] {
      OnPacketExtends(l, fs[0]);
      HandleAllExtends(OnPacket(l, fs[0]), fs[1..]);
    }
  }

  lemma SwallowedIsUnknown(x: seq<Byte>)
    requires |x| >= ANNOUNCED && ParseHeader(x) == PacketHeader(ANNOUNCED, Id(ChatMessage))
    ensures HandlerFor(x[..ANNOUNCED]) == ToNobody
  {
    assert x[..ANNOUNCED][0..2] == x[0..2] && x[..ANNOUNCED][2..4] == x[2..4];
    assert ParseHeader(x[..ANNOUNCED]) == ParseHeader(x);
  }

  lemma SettleExtends(b: seq<Byte>, m: Link)
    ensures m.events <= Settle(b, m).link.events
  {
    HandleAllExtends(m, Frames(b).frames);
  }

  lemma SwallowedIsLogged(m: Link, x: seq<Byte>)
    requires Verdict(x) == Ok && ParseHeader(x) == PacketHeader(ANNOUNCED, Id(ChatMessage))
    ensures m.events + [Error] <= Settle(x, m).link.events
  {
    SettleStep(x, m);
    SwallowedIsUnknown(x);
    assert OnPacket(m, x[..ANNOUNCED]) == Note(m, Error);
    SettleExtends(x[ANNOUNCED..], Note(m, Error));
  }

  predicate AllBroken(qs: seq<Request>) {
    forall i | 0 <= i < |qs| :: qs[i].Broken?
  }

  lemma AllBrokenFront(qs: seq<Request>)
    requires qs != []
    ensures AllBroken(qs) <==> qs[0].Broken? && AllBroken(qs[1..])
  {
    if qs[0].Broken? && AllBroken(qs[1..]) {
      forall i | 0 <= i < |qs| ensures qs[i].Broken? {
        assert i > 0 ==> qs[1..][i - 1].Broken?;
      }
    }
  }

  /** m has more events than l, the first of them not an Error line, and none that l lacks says that
      an array was left. */
  predicate Adds(l: Link, m: Link) {
    && l.events < m.events && m.events[|l.events|] != Error
    && (Overread in m.events <==> Overread in l.events)
  }

  lemma NotesAdd(l: Link, e: Event, f: Event)
    requires e != Error && e != Overread && f != Overread
    ensures Adds(l, Note(Note(l, e), f))
  {
  }

  lemma ReplyAdds(l: Link, out: seq<Byte>, e: Event)
    requires e != Error && e != Overread
    ensures Adds(l, Note(Reply(l, out), e)) && Adds(l, Reply(Note(l, e), out))
  {
  }

  lemma DepartureAdds(l: Link, e: Event)
    requires e != Overread
    ensures Adds(l, Departed(l, e))
  {
  }

  lemma AnswerAdds(l: Link, q: Request)
    requires !q.Broken?
    ensures Adds(l, Answer(l, q))
  {
    match q
    case Login(name) =>
      var ok := Trunc(name, NICK) != [];
      var why := if ok then [] else INVALID_NICKNAME;
      ReplyAdds(l, Encode(MakeLoginAck(l.id, ok, why, l.users(|l.events|))), LoginLogged(Trunc(name, NICK), ok));
    case Say(d, _) =>
      NotesAdd(l, ChatLogged(NormalForm(d), l.id), Broadcasted(Encode(MakeBroadcast(d.sender, d.message, 0))));
    case AskCount =>
      ReplyAdds(l, Encode(MakeUserCountAck(l.users(|l.events| + 1))), Info);
    case Leave(nick) =>
      DepartureAdds(l, ExitNotice(ShownName(nick)));
  }

  /** Intended answers to nothing but broken packets are none; any other request is answered, and
      the first thing that happens is not an Error line. */
  lemma {:induction false} IntendedShows(l: Link, qs: seq<Request>)
    ensures AllBroken(qs) ==> AnswerAll(l, qs) == l
    ensures l.events <= AnswerAll(l, qs).events
    ensures !AllBroken(qs) ==>
              l.events < AnswerAll(l, qs).events && AnswerAll(l, qs).events[|l.events|] != Error
    decreases |qs|
  {
    if qs != [] {
      if !qs[0].Broken? { AnswerAdds(l, qs[0]); }
      IntendedShows(Answer(l, qs[0]), qs[1..]);
      assert AllBroken(qs) <==> qs[0].Broken? && AllBroken(qs[1..]) by { AllBrokenFront(qs); }
    }
  }

  lemma {:induction false} BrokenLength(qs: seq<Request>)
    requires AllBroken(qs)
    ensures |ClientBytes(qs)| == BROKEN * |qs|
  {
    if qs != [] {
      BrokenLength(qs[1..]);
    }
  }

  /** Fewer than 9999 bytes from the first broken packet on: nothing of them is ever handled. */
  lemma BrokenSwallows(l: Link, qs: seq<Request>, chunks: seq<seq<Byte>>)
    requires !l.closing && LeavesLast(qs) && Chunked(chunks, ClientBytes(qs))
    requires FromBroken(qs) != [] && |ClientBytes(FromBroken(qs))| < ANNOUNCED
    ensures FeedAll(Start(l), chunks).link == AnswerSound(l, qs)
  {
    var c := ClientBytes(FromBroken(qs));
    assert Verdict(c) == NeedMore by {
      BrokenFront(FromBroken(qs), |c|);
      assert c[..|c|] == c;
    }
    ClientBytesSplit(qs);
    assert !HasExit(ClientBytes(qs)) by { ExitOfConversation(qs, c); }
    NoExitNoDifference(l, ClientBytes(qs), chunks);
    SoundPartAnswered(l, qs, c);
  }

  /** How much behind the sound requests is handled when 9999 bytes and more come. */
  lemma HandledLength(l: Link, qs: seq<Request>, chunks: seq<seq<Byte>>) returns (k: nat)
    requires !l.closing && LeavesLast(qs) && Chunked(chunks, ClientBytes(qs))
    requires FromBroken(qs) != [] && |ClientBytes(FromBroken(qs))| >= ANNOUNCED
    ensures ANNOUNCED <= k <= |ClientBytes(FromBroken(qs))|
    ensures FeedAll(Start(l), chunks).link == Settle(SoundThen(qs, ClientBytes(FromBroken(qs))[..k]), l).link
  {
    var b, c := ClientBytes(qs), ClientBytes(FromBroken(qs));
    ClientBytesSplit(qs);
    assert |b| == SoundLength(qs) + |c| by { SoundThenPrefix(qs, c, |c|); }
    if HasExit(b) {
      assert ExitEnd(b) >= SoundLength(qs) + ANNOUNCED by { LateExit(qs); }
      var n := Cover(chunks, ExitEnd(b));
      k := n - SoundLength(qs);
      assert FeedAll(Start(l), chunks) == Settle(b[..n], l) by { HandledUpToChunkEnd(l, b, chunks); }
      assert b[..n] == SoundThen(qs, c[..k]) by { SoundThenPrefix(qs, c, k); }
    } else {
      k := |c|;
      assert c[..k] == c;
      NoExitNoDifference(l, b, chunks);
    }
  }

  lemma LateExit(qs: seq<Request>)
    requires LeavesLast(qs) && HasExit(ClientBytes(qs))
    requires FromBroken(qs) != [] && |ClientBytes(FromBroken(qs))| >= ANNOUNCED
    ensures ExitEnd(ClientBytes(qs)) >= SoundLength(qs) + ANNOUNCED
  {
    var c := ClientBytes(FromBroken(qs));
    ClientBytesSplit(qs);
    ExitOfConversation(qs, c);
    BrokenFront(FromBroken(qs), |c|);
    assert c[..|c|] == c;
    BrokenIsNoExit(c);
  }

  lemma BrokenIsNoExit(c: seq<Byte>)
    requires Verdict(c) == Ok && ParseHeader(c) == PacketHeader(ANNOUNCED, Id(ChatMessage)) && HasExit(c)
    ensures ExitEnd(c) >= ANNOUNCED
  {
    assert c[..ANNOUNCED][0..2] == c[0..2] && c[..ANNOUNCED][2..4] == c[2..4];
    assert !IsExit(c[..ANNOUNCED]);
  }

  /** From the first broken packet on the client sends only broken ones, and too few of them to add
      up to the bytes the first one announces. */
  predicate Undisturbed(qs: seq<Request>) {
    && AllBroken(FromBroken(qs))
    && BROKEN * |FromBroken(qs)| < ANNOUNCED
  }

  /** For every split into receives, the server does exactly what the client's requests intend if
      and only if no other request follows a broken packet and there are fewer than 1250 of them. */
  lemma AnsweredExactly(l: Link, qs: seq<Request>, chunks: seq<seq<Byte>>)
    requires !l.closing && LeavesLast(qs) && Chunked(chunks, ClientBytes(qs))
    ensures FeedAll(Start(l), chunks).link == AnswerAll(l, qs) <==> Undisturbed(qs)
  {
    var r, m := FromBroken(qs), AnswerSound(l, qs);
    AnswersSplit(l, qs);
    IntendedShows(m, r);
    if AllBroken(r) { BrokenLength(r); }
    if r == [] {
      EveryRequestAnswered(l, qs, chunks);
    } else if |ClientBytes(r)| < ANNOUNCED {
      BrokenSwallows(l, qs, chunks);
    } else {
      LongTailDiffers(l, qs, chunks);
    }
  }

  lemma LongTailDiffers(l: Link, qs: seq<Request>, chunks: seq<seq<Byte>>)
    requires !l.closing && LeavesLast(qs) && Chunked(chunks, ClientBytes(qs))
    requires FromBroken(qs) != [] && |ClientBytes(FromBroken(qs))| >= ANNOUNCED
    ensures AnswerSound(l, qs).events + [Error] <= FeedAll(Start(l), chunks).link.events
  {
    var k := HandledLength(l, qs, chunks);
    var x := ClientBytes(FromBroken(qs))[..k];
    SoundPartAnswered(l, qs, x);
    BrokenFront(FromBroken(qs), k);
    SwallowedIsLogged(AnswerSound(l, qs), x);
  }

  /** Any single request behind the test command is lost, whatever the split. */
  lemma LostBehindBroken(l: Link, q: Request, chunks: seq<seq<Byte>>)
    requires !l.closing && !q.Broken? && Chunked(chunks, ClientBytes([Broken, q]))
    ensures FeedAll(Start(l), chunks).link == l != AnswerAll(l, [Broken, q])
  {
    var qs := [Broken, q];
    RequestHeader(q);
    TwoRequests(Broken, q);
    BrokenSwallows(l, qs, chunks);
    assert FromBroken(qs)[1] == q && !AllBroken(FromBroken(qs));
    AnsweredExactly(l, qs, chunks);
  }

  /** The Error line the test packet is meant to provoke appears, behind the answers to the requests
      before it, if and only if the client sends at least the announced number of bytes from it on --
      for every split into receives. */
  lemma ErrorLineExactly(l: Link, qs: seq<Request>, chunks: seq<seq<Byte>>)
    requires !l.closing && LeavesLast(qs) && Chunked(chunks, ClientBytes(qs))
    ensures AnswerSound(l, qs).events + [Error] <= FeedAll(Start(l), chunks).link.events <==>
              |ClientBytes(FromBroken(qs))| >= ANNOUNCED
  {
    if FromBroken(qs) == [] {
      EveryRequestAnswered(l, qs, chunks);
      AnswersSplit(l, qs);
    } else if |ClientBytes(FromBroken(qs))| < ANNOUNCED {
      BrokenSwallows(l, qs, chunks);
    } else {
      LongTailDiffers(l, qs, chunks);
    }
  }

  // ---- whether the server stays inside its arrays

  lemma {:induction false} AnswersStayInside(l: Link, qs: seq<Request>)
    ensures Overread in AnswerAll(l, qs).events <==> Overread in l.events
    ensures Overread in AnswerSound(l, qs).events <==> Overread in l.events
    decreases |qs|
  {
    if qs != [] {
      if !qs[0].Broken? { AnswerAdds(l, qs[0]); }
      AnswersStayInside(Answer(l, qs[0]), qs[1..]);
    }
  }

  /** The packets of the requests before the first broken one. */
  function SoundFrames(qs: seq<Request>): (fs: seq<seq<Byte>>)
    ensures |fs| == |qs| - |FromBroken(qs)|
  {
    if qs == [] || qs[0].Broken? then [] else [RequestBytes(qs[0])] + SoundFrames(qs[1..])
  }

  lemma RequestIsTerminated(q: Request)
    requires !q.Broken?
    ensures !Unterminated(RequestBytes(q))
  {
    if q.Login? {
      BuiltLoginsAreTerminated(q.name);
    } else {
      RequestHeader(q);
    }
  }

  lemma {:induction false} SoundFramesTerminated(qs: seq<Request>)
    ensures forall f | f in SoundFrames(qs) :: !Unterminated(f)
  {
    if qs != [] && !qs[0].Broken? {
      RequestIsTerminated(qs[0]);
      SoundFramesTerminated(qs[1..]);
    }
  }

  lemma FramesOfFront(e: seq<Byte>, rest: seq<Byte>)
    requires Verdict(e + rest) == Ok && ParseHeader(e + rest).size == |e|
    ensures Frames(e + rest).frames == [e] + Frames(rest).frames
  {
    FirstFrame(e + rest);
    assert (e + rest)[..|e|] == e && (e + rest)[|e|..] == rest;
  }

  lemma FramesOfRequest(q: Request, rest: seq<Byte>)
    requires !q.Broken?
    ensures Frames(RequestBytes(q) + rest).frames == [RequestBytes(q)] + Frames(rest).frames
  {
    RequestFront(q, rest);
    FramesOfFront(RequestBytes(q), rest);
  }

  lemma {:induction false} FramesOfSound(qs: seq<Request>, tail: seq<Byte>)
    ensures Frames(SoundThen(qs, tail)).frames == SoundFrames(qs) + Frames(tail).frames
  {
    if qs == [] || qs[0].Broken? {
      assert SoundFrames(qs) + Frames(tail).frames == Frames(tail).frames;
    } else {
      FramesOfRequest(qs[0], SoundThen(qs[1..], tail));
      FramesOfSound(qs[1..], tail);
      ConsConcat(RequestBytes(qs[0]), SoundFrames(qs[1..]), Frames(tail).frames);
    }
  }

  lemma ConsConcat(e: seq<Byte>, a: seq<seq<Byte>>, b: seq<seq<Byte>>)
    ensures [e] + (a + b) == ([e] + a) + b
  {
  }

  /** The packets the server pops. */
  function Popped(chunks: seq<seq<Byte>>): seq<seq<Byte>> { Frames(Received([], chunks)).frames }

  lemma PoppedLength(qs: seq<Request>, chunks: seq<seq<Byte>>) returns (k: nat)
    requires LeavesLast(qs) && Chunked(chunks, ClientBytes(qs))
    requires FromBroken(qs) != [] && |ClientBytes(FromBroken(qs))| >= ANNOUNCED
    ensures ANNOUNCED <= k <= |ClientBytes(FromBroken(qs))|
    ensures Popped(chunks) == Frames(SoundThen(qs, ClientBytes(FromBroken(qs))[..k])).frames
  {
    var b, c := ClientBytes(qs), ClientBytes(FromBroken(qs));
    ClientBytesSplit(qs);
    assert |b| == SoundLength(qs) + |c| by { SoundThenPrefix(qs, c, |c|); }
    if HasExit(b) {
      assert ExitEnd(b) >= SoundLength(qs) + ANNOUNCED by { LateExit(qs); }
      var n := Cover(chunks, ExitEnd(b));
      k := n - SoundLength(qs);
      assert Received([], chunks) == b[..n] by { ReceivedCoversExit(b, chunks); }
      assert b[..n] == SoundThen(qs, c[..k]) by { SoundThenPrefix(qs, c, k); }
    } else {
      k := |c|;
      assert c[..k] == c;
      ReceivedWithoutExit(chunks);
    }
  }

  lemma SwallowedFrame(x: seq<Byte>)
    requires Verdict(x) == Ok && ParseHeader(x) == PacketHeader(ANNOUNCED, Id(ChatMessage))
    ensures var fs := Frames(x).frames;
            fs != [] && |fs[0]| == ANNOUNCED && !Unterminated(fs[0])
  {
    FirstFrame(x);
    var f := x[..ANNOUNCED];
    assert f[0..2] == x[0..2] && f[2..4] == x[2..4];
    assert ParseHeader(f) == ParseHeader(x);
  }

  /** A conversation, for every split: while fewer bytes than announced follow the first broken
      packet, the server never reads outside an array. Beyond that it does not if and only if no
      packet it pops behind the swallowed one is a login packet without a NUL in its nickname. */
  lemma StaysInsideExactly(l: Link, qs: seq<Request>, chunks: seq<seq<Byte>>)
    requires !l.closing && Overread !in l.events && LeavesLast(qs) && Chunked(chunks, ClientBytes(qs))
    ensures |ClientBytes(FromBroken(qs))| < ANNOUNCED ==> Overread !in FeedAll(Start(l), chunks).link.events
    ensures |ClientBytes(FromBroken(qs))| >= ANNOUNCED ==>
              var ps := Popped(chunks);
              var n := |qs| - |FromBroken(qs)|;
              && n < |ps| && |ps[n]| == ANNOUNCED
              && (Overread !in FeedAll(Start(l), chunks).link.events <==>
                    forall i | n < i < |ps| :: !Unterminated(ps[i]))
  {
    if |ClientBytes(FromBroken(qs))| < ANNOUNCED {
      AnswersStayInside(l, qs);
      if FromBroken(qs) == [] {
        EveryRequestAnswered(l, qs, chunks);
      } else {
        BrokenSwallows(l, qs, chunks);
      }
    } else {
      BehindSwallowed(qs, chunks);
      StreamOverreads(l, chunks);
    }
  }

  lemma BehindSwallowed(qs: seq<Request>, chunks: seq<seq<Byte>>)
    requires LeavesLast(qs) && Chunked(chunks, ClientBytes(qs))
    requires |ClientBytes(FromBroken(qs))| >= ANNOUNCED
    ensures var ps := Popped(chunks);
            var n := |qs| - |FromBroken(qs)|;
            && n < |ps| && |ps[n]| == ANNOUNCED
            && ((forall f | f in ps :: !Unterminated(f)) <==> forall i | n < i < |ps| :: !Unterminated(ps[i]))
  {
    var k := PoppedLength(qs, chunks);
    var x := ClientBytes(FromBroken(qs))[..k];
    assert Verdict(x) == Ok && ParseHeader(x) == PacketHeader(ANNOUNCED, Id(ChatMessage)) by {
      BrokenFront(FromBroken(qs), k);
    }
    var a, b := SoundFrames(qs), Frames(x).frames;
    assert Popped(chunks) == a + b by { FramesOfSound(qs, x); }
    SwallowedFrame(x);
    SoundFramesTerminated(qs);
    BehindIndex(a, b);
  }

  lemma BehindIndex(a: seq<seq<Byte>>, b: seq<seq<Byte>>)
    requires b != [] && !Unterminated(b[0]) && forall f | f in a :: !Unterminated(f)
    ensures (forall f | f in a + b :: !Unterminated(f)) <==>
              forall i | |a| < i < |a + b| :: !Unterminated((a + b)[i])
  {
    var ps := a + b;
    if forall i | |a| < i < |ps| :: !Unterminated(ps[i]) {
      forall f | f in ps ensures !Unterminated(f) {
        var i :| 0 <= i < |ps| && ps[i] == f;
        assert i < |a| ==> f == a[i];
        assert i == |a| ==> f == b[0];
      }
    }
  }
}
