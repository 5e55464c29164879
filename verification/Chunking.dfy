/** Streams that arrive in chunks: how much of a stream is received before the session closes. Only
    bytes here; what is done with them is in Delivery. */
module Chunking {
  import opened Bytes
  import opened CStrings
  import opened PacketFormat
  import opened Framing

  /** The most one receive can deliver. */
  const BUFFER_SIZE: nat := 4096

  /** The only packet that makes the server close the session. */
  predicate IsExit(f: seq<Byte>) {
    |f| >= HEADER && ParseHeader(f).id == Id(Exit) && ParseHeader(f).size == Size(Exit) <= |f|
  }

  /** Where the first Exit packet of the stream ends, or 0 if the server never gets to one. */
  function ExitEnd(b: seq<Byte>): (e: nat)
    ensures e <= |b|
    decreases |b|
  {
    if Verdict(b) != Ok then 0
    else
      var n := ParseHeader(b).size;
      if IsExit(b[..n]) then n
      else
        var e := ExitEnd(b[n..]);
        if e == 0 then 0 else n + e
  }

  predicate HasExit(b: seq<Byte>) { ExitEnd(b) > 0 }

  /** The stream up to and including its first Exit packet. */
  function UpToExit(b: seq<Byte>): seq<Byte> { b[..ExitEnd(b)] }

  /** Once these bytes are received the session is closing. */
  predicate Closes(b: seq<Byte>) {
    HasExit(b) || Frames(b).malformed
  }

  /** A receive completes with at least one and at most BUFFER_SIZE bytes. */
  predicate Proper(chunks: seq<seq<Byte>>) {
    forall x | x in chunks :: 0 < |x| <= BUFFER_SIZE
  }

  /** chunks is one way of receiving b. */
  predicate Chunked(chunks: seq<seq<Byte>>, b: seq<Byte>) {
    Proper(chunks) && Flatten(chunks) == b
  }

  /** All bytes received when b has been received and the chunks are offered: no further receive
      is posted once the session is closing. */
  function Received(b: seq<Byte>, chunks: seq<seq<Byte>>): seq<Byte>
    decreases |chunks|
  {
    if chunks == [] || Closes(b) then b else Received(b + chunks[0], chunks[1..])
  }

  // ---- where the first Exit is

  lemma FirstFrame(b: seq<Byte>)
    requires Verdict(b) == Ok
    ensures var n := ParseHeader(b).size;
            Frames(b).frames == [b[..n]] + Frames(b[n..]).frames && n > 0
            && Frames(b).malformed == Frames(b[n..]).malformed
  {
  }

  lemma {:induction false} ExitIsAFrame(b: seq<Byte>)
    ensures HasExit(b) <==> exists f | f in Frames(b).frames :: IsExit(f)
    decreases |b|
  {
    if Verdict(b) == Ok {
      var n := ParseHeader(b).size;
      ExitIsAFrame(b[n..]);
      FirstFrame(b);
      assert forall f :: f in Frames(b).frames <==> f == b[..n] || f in Frames(b[n..]).frames;
    }
  }

  /** Bytes that arrive later do not move an Exit that is already complete. */
  lemma {:induction false} ExitStaysPut(a: seq<Byte>, b: seq<Byte>)
    requires HasExit(a)
    ensures ExitEnd(a + b) == ExitEnd(a)
    decreases |a|
  {
    var n := ParseHeader(a).size;
    VerdictStable(a, b);
    assert (a + b)[..n] == a[..n];
    assert (a + b)[n..] == a[n..] + b;
    if !IsExit(a[..n]) {
      ExitStaysPut(a[n..], b);
    }
  }

  lemma FrontOfPrefix(b: seq<Byte>, m: nat)
    requires Verdict(b) == Ok && ParseHeader(b).size <= m <= |b|
    ensures Verdict(b[..m]) == Ok && ParseHeader(b[..m]) == ParseHeader(b)
  {
    assert b[..m][0..2] == b[0..2];
    assert b[..m][2..4] == b[2..4];
  }

  /** The first packet of b, in a prefix of b. */
  lemma PrefixFront(b: seq<Byte>, m: nat)
    requires Verdict(b) == Ok && ParseHeader(b).size <= m <= |b|
    ensures var n := ParseHeader(b).size;
            && Verdict(b[..m]) == Ok && ParseHeader(b[..m]).size == n
            && b[..m][..n] == b[..n] && b[..m][n..] == b[n..][..m - n]
  {
    FrontOfPrefix(b, m);
  }

  /** The stream up to the first Exit is a whole number of packets, the Exit being the last. */
  lemma {:induction false} UpToExitIsWhole(b: seq<Byte>)
    requires HasExit(b)
    ensures Frames(UpToExit(b)).rest == [] && !Frames(UpToExit(b)).malformed
    ensures ExitEnd(UpToExit(b)) == ExitEnd(b)
    decreases |b|
  {
    var n := ParseHeader(b).size;
    PrefixFront(b, ExitEnd(b));
    if !IsExit(b[..n]) {
      UpToExitIsWhole(b[n..]);
    }
  }

  lemma IncompleteFront(b: seq<Byte>, m: nat)
    requires Verdict(b) == Ok && m < ParseHeader(b).size
    ensures Verdict(b[..m]) == NeedMore
  {
    if m >= HEADER {
      assert b[..m][0..2] == b[0..2];
    }
  }

  /** A strict prefix of the stream up to the first Exit holds neither an Exit nor a malformed
      header, so it keeps the session open. */
  lemma {:induction false} ShortPrefixIsClean(b: seq<Byte>, m: nat)
    requires m < ExitEnd(b)
    ensures !HasExit(b[..m]) && !Frames(b[..m]).malformed
    decreases |b|
  {
    var n := ParseHeader(b).size;
    if m < n {
      IncompleteFront(b, m);
    } else {
      PrefixFront(b, m);
      ShortPrefixIsClean(b[n..], m - n);
    }
  }

  /** Any prefix that covers the first Exit holds it. */
  lemma {:induction false} ExitInside(b: seq<Byte>, m: nat)
    requires HasExit(b) && ExitEnd(b) <= m <= |b|
    ensures HasExit(b[..m])
    decreases |b|
  {
    var n := ParseHeader(b).size;
    PrefixFront(b, m);
    if !IsExit(b[..n]) {
      ExitInside(b[n..], m - n);
    }
  }

  // ---- how much is received

  function Monus(a: nat, b: nat): nat { if a <= b then 0 else a - b }

  /** The length of the shortest run of chunks that covers n bytes. */
  function Cover(chunks: seq<seq<Byte>>, n: nat): (m: nat)
    requires Proper(chunks) && n <= |Flatten(chunks)|
    ensures n <= m <= |Flatten(chunks)| && (n > 0 ==> m < n + BUFFER_SIZE)
    decreases |chunks|
  {
    if n == 0 then 0
    else |chunks[0]| + Cover(chunks[1..], Monus(n, |chunks[0]|))
  }

  /** Whatever is received is a prefix of the stream. */
  lemma {:induction false} ReceivedIsPrefix(b: seq<Byte>, chunks: seq<seq<Byte>>)
    ensures b <= Received(b, chunks) <= b + Flatten(chunks)
    decreases |chunks|
  {
    if chunks != [] && !Closes(b) {
      var c, rest := b + chunks[0], chunks[1..];
      ReceivedIsPrefix(c, rest);
      FlattenStep(b, chunks);
    }
  }

  lemma FlattenStep(b: seq<Byte>, chunks: seq<seq<Byte>>)
    requires chunks != []
    ensures (b + chunks[0]) + Flatten(chunks[1..]) == b + Flatten(chunks)
  {
  }

  /** A session that stays open receives all of the stream. */
  lemma {:induction false} OpenReceivesAll(b: seq<Byte>, chunks: seq<seq<Byte>>)
    requires !Closes(Received(b, chunks))
    ensures Received(b, chunks) == b + Flatten(chunks)
    decreases |chunks|
  {
    if chunks == [] {
      assert b + [] == b;
    } else if !Closes(b) {
      OpenReceivesAll(b + chunks[0], chunks[1..]);
      FlattenStep(b, chunks);
    }
  }

  /** The session starts closing when u bytes of s have been received. */
  predicate ClosesAt(s: seq<Byte>, u: nat) {
    forall k | 0 <= k <= |s| :: Closes(s[..k]) <==> u <= k
  }

  lemma ExitClosesAt(s: seq<Byte>)
    requires HasExit(s)
    ensures ClosesAt(s, ExitEnd(s))
  {
    forall k | 0 <= k <= |s| ensures Closes(s[..k]) <==> ExitEnd(s) <= k {
      if ExitEnd(s) <= k {
        ExitInside(s, k);
      } else {
        ShortPrefixIsClean(s, k);
      }
    }
  }

  lemma {:induction false} ReceivedCovers(b: seq<Byte>, chunks: seq<seq<Byte>>, s: seq<Byte>, u: nat)
    requires Proper(chunks) && s == b + Flatten(chunks)
    requires |b| < u <= |s| && ClosesAt(s, u)
    ensures |Received(b, chunks)| == |b| + Cover(chunks, u - |b|)
    decreases |chunks|
  {
    var c, rest := b + chunks[0], chunks[1..];
    FlattenStep(b, chunks);
    assert s[..|b|] == b && s[..|c|] == c;
    assert !Closes(b) && (Closes(c) <==> u <= |c|);
    assert Received(b, chunks) == Received(c, rest);
    if |c| < u {
      ReceivedCovers(c, rest, s, u);
    }
  }

  /** When the stream holds an Exit packet, exactly the chunks that cover it are received. */
  lemma ReceivedCoversExit(b: seq<Byte>, chunks: seq<seq<Byte>>)
    requires Chunked(chunks, b) && HasExit(b)
    ensures Received([], chunks) == b[..Cover(chunks, ExitEnd(b))]
  {
    var u, r := ExitEnd(b), Received([], chunks);
    assert [] + b == b;
    assert |r| == Cover(chunks, u) by {
      ExitClosesAt(b);
      ReceivedCovers([], chunks, b, u);
    }
    assert r <= b by { ReceivedIsPrefix([], chunks); }
    assert r == b[..|r|];
  }

  /** A stream without an Exit is cut short only by a malformed header, behind which nothing would
      have been popped anyway. */
  lemma ReceivedWithoutExit(chunks: seq<seq<Byte>>)
    requires !HasExit(Flatten(chunks))
    ensures Frames(Received([], chunks)).frames == Frames(Flatten(chunks)).frames
    ensures Frames(Received([], chunks)).malformed == Frames(Flatten(chunks)).malformed
  {
    var s, r := Flatten(chunks), Received([], chunks);
    ReceivedIsPrefix([], chunks);
    assert [] + s == s;
    assert r + s[|r|..] == s;
    if !Closes(r) {
      OpenReceivesAll([], chunks);
    }
    if HasExit(r) {
      ExitStaysPut(r, s[|r|..]);
    }
    FramesConcat(r, s[|r|..]);
  }

  // ---- what can share the receive that completes the Exit

  /** The bytes behind the Exit that can share its last receive. */
  function Reach(b: seq<Byte>): seq<Byte> {
    b[ExitEnd(b)..ReachEnd(b)]
  }

  function ReachEnd(b: seq<Byte>): (m: nat)
    ensures ExitEnd(b) <= m <= |b| && m < ExitEnd(b) + BUFFER_SIZE
  {
    if |b| < ExitEnd(b) + BUFFER_SIZE then |b| else ExitEnd(b) + BUFFER_SIZE - 1
  }

  /** Nothing can be handled behind the first Exit: no complete packet and no malformed header
      lies within reach of the receive that completes it. */
  predicate QuietAfterExit(b: seq<Byte>) {
    HasExit(b) ==> Verdict(Reach(b)) == NeedMore
  }

  lemma NeedMorePrefix(t: seq<Byte>, n: nat)
    requires n <= |t| && Verdict(t) == NeedMore
    ensures Verdict(t[..n]) == NeedMore
  {
    assert t[..n] + t[n..] == t;
    if Verdict(t[..n]) != NeedMore {
      VerdictStable(t[..n], t[n..]);
    }
  }

  /** What a receive that completes the Exit can add is a prefix of what is in reach. */
  lemma QuietSlice(b: seq<Byte>, e: nat, m: nat, k: nat)
    requires e <= m <= k <= |b| && Verdict(b[e..k]) == NeedMore
    ensures Verdict(b[e..m]) == NeedMore
  {
    PrefixOfSlice(b, e, m, k);
    NeedMorePrefix(b[e..k], m - e);
  }

  function Singles(b: seq<Byte>): (s: seq<seq<Byte>>)
    ensures |s| == |b| && Proper(s)
  {
    if b == [] then [] else [[b[0]]] + Singles(b[1..])
  }

  lemma {:induction false} SinglesFlatten(b: seq<Byte>)
    ensures Flatten(Singles(b)) == b
  {
    if b != [] {
      SinglesFlatten(b[1..]);
      assert [b[0]] + b[1..] == b;
    }
  }

  lemma {:induction false} CoverSingles(b: seq<Byte>, more: seq<seq<Byte>>, n: nat)
    requires Proper(more) && n <= |Flatten(Singles(b) + more)|
    requires Proper(Singles(b) + more)
    ensures n <= |b| ==> Cover(Singles(b) + more, n) == n
    ensures n == |b| + 1 && more != [] && Flatten(more) != [] ==>
              Cover(Singles(b) + more, n) == |b| + |more[0]|
  {
    if b == [] {
      assert Singles(b) + more == more;
    } else {
      var s := Singles(b) + more;
      assert s[1..] == Singles(b[1..]) + more;
      if n > 0 {
        CoverSingles(b[1..], more, n - 1);
      }
    }
  }

  /** Byte by byte through a, then x at once, then byte by byte through c. */
  lemma ThreeParts(a: seq<Byte>, x: seq<Byte>, c: seq<Byte>) returns (chunks: seq<seq<Byte>>)
    requires 0 < |x| <= BUFFER_SIZE
    ensures Proper(chunks) && Flatten(chunks) == a + (x + c)
    ensures Cover(chunks, |a| + 1) == |a| + |x|
  {
    var more := [x] + Singles(c);
    assert more[1..] == Singles(c);
    SinglesFlatten(a);
    SinglesFlatten(c);
    FlattenConcat(Singles(a), more);
    CoverSingles(a, more, |a| + 1);
    chunks := Singles(a) + more;
  }

  /** Some way of receiving b puts everything within reach into the receive that completes the
      Exit. */
  lemma GreedyChunks(b: seq<Byte>) returns (chunks: seq<seq<Byte>>)
    requires HasExit(b)
    ensures Chunked(chunks, b)
    ensures Cover(chunks, ExitEnd(b)) == ReachEnd(b)
  {
    var i, j := ExitEnd(b) - 1, ReachEnd(b);
    assert b == b[..i] + (b[i..j] + b[j..]);
    chunks := ThreeParts(b[..i], b[i..j], b[j..]);
  }

  lemma SinglesCover(b: seq<Byte>)
    requires HasExit(b)
    ensures Chunked(Singles(b), b)
    ensures Cover(Singles(b), ExitEnd(b)) == ExitEnd(b)
  {
    SinglesFlatten(b);
    assert Singles(b) + [] == Singles(b);
    CoverSingles(b, [], ExitEnd(b));
  }
}
