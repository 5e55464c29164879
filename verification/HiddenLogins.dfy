/** A conversation the client can have that makes the server read outside an array: a broken packet
    shifts the stream, and a chat message then reads as a login packet without a terminator. */
module HiddenLogins {
  import opened Bytes
  import opened CStrings
  import opened PacketFormat
  import opened ChatPackets
  import opened Framing
  import opened Chunking
  import opened PacketHandlers
  import opened Receiving
  import opened Delivery
  import opened EndToEnd
  import opened BrokenRequests

  /** 55 letters and '$'. */
  function HiddenText(): (t: seq<Byte>)
    ensures |t| == 56 && t[55] == 36 && NUL !in t
  {
    seq(55, i => 97) + [36]
  }

  /** The bytes strncpy_s may leave behind the text: 11, 0, then letters. */
  function HiddenTail(): nat -> Byte {
    (i: nat) => if i == 0 then 11 else if i == 1 then 0 else 97
  }

  /** A chat message whose packet holds, from byte 91, the header of a login packet and then no NUL
      for more than 32 bytes. */
  function HiddenLogin(): Request {
    Say(ChatMessageData([], HiddenText(), 0), Residue((i: nat) => 97, HiddenTail()))
  }

  function Repeated(q: Request, n: nat): (qs: seq<Request>)
    ensures |qs| == n && forall i | 0 <= i < n :: qs[i] == q
  {
    if n == 0 then [] else [q] + Repeated(q, n - 1)
  }

  /** The broken packet, then the chat message n times. */
  function Shifted(n: nat): seq<Request> {
    [Broken] + Repeated(HiddenLogin(), n)
  }

  // ---- its bytes

  lemma MessageInPacket(p: Packet)
    requires WellFormed(ChatMessage, p)
    ensures |Encode(p)| == Size(ChatMessage)
    ensures Encode(p)[HEADER + NICK..HEADER + NICK + TEXT] == p.body.message
  {
    PrintThenParse(ChatMessage, p, []);
  }

  lemma HiddenMessage()
    ensures var m := StrncpySBytes(HiddenText(), TEXT, HiddenTail());
            && m[55] == 36 && m[56] == 0 && m[57] == 11 && m[58] == 0
            && forall i | 59 <= i < TEXT :: m[i] == 97
  {
    TruncFixedPoints(HiddenText(), TEXT);
    var m := StrncpySBytes(HiddenText(), TEXT, HiddenTail());
    assert Trunc(HiddenText(), TEXT) == HiddenText();
    assert m == HiddenText() + [NUL] + Unspecified(TEXT - 57, HiddenTail());
  }

  /** What follows byte 91 of the packet is a login header and letters. */
  predicate Hidden(e: seq<Byte>) {
    && |e| == 300 && e[91] == 36 && e[92] == 0 && e[93] == 11 && e[94] == 0
    && forall i | 95 <= i < 292 :: e[i] == 97
  }

  lemma HiddenBytes()
    ensures Hidden(RequestBytes(HiddenLogin()))
  {
    var p := PacketFor(HiddenLogin()).packet;
    var e := RequestBytes(HiddenLogin());
    MessageInPacket(p);
    HiddenMessage();
    assert p.body.message == StrncpySBytes(HiddenText(), TEXT, HiddenTail());
    MessageAt(e, p.body.message);
  }

  lemma MessageAt(e: seq<Byte>, m: seq<Byte>)
    requires |e| == 300 && |m| == TEXT && e[HEADER + NICK..HEADER + NICK + TEXT] == m
    ensures forall i | 36 <= i < 292 :: e[i] == m[i - 36]
  {
    forall i | 36 <= i < 292 ensures e[i] == m[i - 36] {
      assert e[HEADER + NICK..HEADER + NICK + TEXT][i - 36] == e[i];
    }
  }

  function Copies(e: seq<Byte>, n: nat): seq<Byte> {
    if n == 0 then [] else e + Copies(e, n - 1)
  }

  lemma {:induction false} BytesOfRepeated(q: Request, n: nat)
    ensures ClientBytes(Repeated(q, n)) == Copies(RequestBytes(q), n)
  {
    if n > 0 {
      BytesOfRepeated(q, n - 1);
      assert Repeated(q, n)[1..] == Repeated(q, n - 1);
    }
  }

  lemma {:induction false} DropCopies(e: seq<Byte>, n: nat, k: nat)
    requires k <= n && |e| == 300
    ensures |Copies(e, n)| == 300 * n
    ensures Copies(e, n)[300 * k..] == Copies(e, n - k)
  {
    if n > 0 {
      DropCopies(e, n - 1, if k > 0 then k - 1 else 0);
      if k > 0 {
        assert Copies(e, n)[300 * k..] == Copies(e, n - 1)[300 * (k - 1)..];
      }
    }
  }

  /** Byte 9999 is byte 91 of the 34th copy. */
  lemma TailOfCopies(head: seq<Byte>, e: seq<Byte>, n: nat)
    requires |head| == BROKEN && |e| == 300 && n >= 34
    ensures var b := head + Copies(e, n);
            |b| == 8 + 300 * n && b[ANNOUNCED..] == e[91..] + Copies(e, n - 34)
  {
    DropCopies(e, n, 33);
    var t := Copies(e, n);
    assert (head + t)[ANNOUNCED..] == t[9991..];
    assert t[9991..] == t[9900..][91..];
    assert t[9900..] == e + Copies(e, n - 34);
  }

  lemma ShiftedBytes(n: nat)
    ensures ClientBytes(Shifted(n)) == BrokenBytes() + Copies(RequestBytes(HiddenLogin()), n)
  {
    BytesOfRepeated(HiddenLogin(), n);
    assert Shifted(n)[1..] == Repeated(HiddenLogin(), n);
  }

  // ---- how the server reads them

  /** Two letters as a size announce more than is left. */
  lemma LettersNeedMore(rest: seq<Byte>)
    requires HEADER <= |rest| < 24929 && rest[0] == 97 && rest[1] == 97
    ensures Frames(rest).frames == [] && ExitEnd(rest) == 0
  {
    HeaderFromBytes(rest);
  }

  lemma HiddenFront(p: seq<Byte>)
    requires 40 <= |p| && p[0] == 36 && p[1] == 0 && p[2] == 11 && p[3] == 0
    requires forall i | 4 <= i < 38 :: p[i] == 97
    ensures Verdict(p) == Ok && ParseHeader(p).size == 36
    ensures Unterminated(p[..36]) && !IsExit(p[..36])
  {
    HeaderFromBytes(p);
    HeaderFromBytes(p[..36]);
    assert p[..36][HEADER..Size(LoginReq)] == p[4..36];
  }

  /** What is left behind the swallowed bytes: one login packet, then the beginning of a packet that
      does not arrive. */
  lemma HiddenFrames(p: seq<Byte>)
    requires 40 <= |p| < 24929 && p[0] == 36 && p[1] == 0 && p[2] == 11 && p[3] == 0
    requires forall i | 4 <= i < 38 :: p[i] == 97
    ensures Frames(p).frames == [p[..36]] && Unterminated(p[..36]) && ExitEnd(p) == 0
  {
    HiddenFront(p);
    LettersNeedMore(p[36..]);
    FirstFrame(p);
  }

  /** The whole stream: the swallowed bytes, then the rest. */
  lemma SwallowedThen(b: seq<Byte>)
    requires Verdict(b) == Ok && ParseHeader(b) == PacketHeader(ANNOUNCED, Id(ChatMessage))
    requires ExitEnd(b[ANNOUNCED..]) == 0
    ensures !HasExit(b)
    ensures forall f | f in Frames(b[ANNOUNCED..]).frames :: f in Frames(b).frames
  {
    FirstFrame(b);
    HeaderFromBytes(b);
    HeaderFromBytes(b[..ANNOUNCED]);
    assert !IsExit(b[..ANNOUNCED]);
  }

  lemma ShiftedStream(b: seq<Byte>, e: seq<Byte>, more: seq<Byte>)
    requires Hidden(e) && |more| < 20000
    requires Verdict(b) == Ok && ParseHeader(b) == PacketHeader(ANNOUNCED, Id(ChatMessage))
    requires b[ANNOUNCED..] == e[91..] + more
    ensures !HasExit(b) && exists f | f in Frames(b).frames :: Unterminated(f)
  {
    var p := b[ANNOUNCED..];
    assert forall i | 0 <= i < 209 :: p[i] == e[91 + i];
    HiddenFrames(p);
    SwallowedThen(b);
    assert p[..36] in Frames(p).frames;
  }

  lemma ShiftedHeader(n: nat)
    requires |ClientBytes(Shifted(n))| >= ANNOUNCED
    ensures var b := ClientBytes(Shifted(n));
            Verdict(b) == Ok && ParseHeader(b) == PacketHeader(ANNOUNCED, Id(ChatMessage))
  {
    var b := ClientBytes(Shifted(n));
    BrokenFront(Shifted(n), |b|);
    assert b[..|b|] == b;
  }

  lemma ShiftedFrames(n: nat)
    requires 34 <= n <= 100
    ensures !HasExit(ClientBytes(Shifted(n)))
    ensures exists f | f in Frames(ClientBytes(Shifted(n))).frames :: Unterminated(f)
  {
    var b, e := ClientBytes(Shifted(n)), RequestBytes(HiddenLogin());
    assert Hidden(e) by { HiddenBytes(); }
    ShiftedBytes(n);
    TailOfCopies(BrokenBytes(), e, n);
    assert |Copies(e, n - 34)| < 20000 by { DropCopies(e, n - 34, 0); }
    ShiftedHeader(n);
    ShiftedStream(b, e, Copies(e, n - 34));
  }

  /** A stream without an Exit packet that holds a login packet without a terminator. */
  lemma StreamReadsOutside(l: Link, b: seq<Byte>, chunks: seq<seq<Byte>>)
    requires !l.closing && Chunked(chunks, b) && !HasExit(b)
    requires exists f | f in Frames(b).frames :: Unterminated(f)
    ensures Overread in FeedAll(Start(l), chunks).link.events
  {
    NoExitNoDifference(l, b, chunks);
    HandleAllOverreads(l, Frames(b).frames);
  }

  lemma ShiftedLeavesLast(n: nat)
    ensures LeavesLast(Shifted(n))
  {
    assert forall i | 0 <= i < n :: Shifted(n)[i + 1] == Repeated(HiddenLogin(), n)[i];
  }

  /** The broken packet and 34 to 100 of these chat messages: for every split into receives the
      server reads outside an array, and no request asks for that. */
  lemma ConversationOverreads(l: Link, n: nat, chunks: seq<seq<Byte>>)
    requires !l.closing && Overread !in l.events && 34 <= n <= 100
    requires Chunked(chunks, ClientBytes(Shifted(n)))
    ensures LeavesLast(Shifted(n))
    ensures Overread in FeedAll(Start(l), chunks).link.events
    ensures Overread !in AnswerAll(l, Shifted(n)).events
  {
    ShiftedLeavesLast(n);
    ShiftedFrames(n);
    StreamReadsOutside(l, ClientBytes(Shifted(n)), chunks);
    AnswersStayInside(l, Shifted(n));
  }
}
