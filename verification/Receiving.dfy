/** RecvCompletion: accumulate what arrived, pop and handle every complete packet, and what a whole
    connection does with a stream that arrives in arbitrary chunks. */
module Receiving {
  import opened Bytes
  import opened PacketFormat
  import opened RingBuffers
  import opened Framing
  import opened PacketHandlers

  const CAPACITY: nat := 64 * 1024

  /** Bytes received but not yet consumed, and the session they belong to. */
  datatype Conn = Conn(rx: seq<Byte>, link: Link)

  function HandleAll(l: Link, frames: seq<seq<Byte>>): Link
    decreases |frames|
  {
    if frames == [] then l else HandleAll(OnPacket(l, frames[0]), frames[1..])
  }

  /** Pop and handle until no complete packet is left; a malformed header closes the session. */
  function Settle(b: seq<Byte>, l: Link): Conn {
    var d := Frames(b);
    var m := HandleAll(l, d.frames);
    Conn(d.rest, if d.malformed then Close(Note(m, Warn)) else m)
  }

  /** One completed receive. */
  function Feed(c: Conn, chunk: seq<Byte>): Conn
    requires |c.rx| <= CAPACITY
  {
    if chunk == [] then Conn(c.rx, Close(c.link))
    else if |c.rx| + |chunk| > CAPACITY then
      Conn(c.rx + chunk[..CAPACITY - |c.rx|], Close(Note(c.link, Warn)))
    else Settle(c.rx + chunk, c.link)
  }

  ghost function ConnOf(s: Session): Conn
    requires s.rx.Valid()
    reads s, s.rx, s.rx.buf
  {
    Conn(s.rx.Contents(), s.State())
  }

  /** The receive loop; again says whether the next receive is posted. */
  method RecvCompletion(s: Session, rxBuf: array<Byte>, bytes: nat) returns (again: bool)
    requires s.rx.Valid() && s.rx.buf.Length == CAPACITY
    requires rxBuf != s.rx.buf && bytes <= rxBuf.Length
    modifies s, s.rx, s.rx.buf
    ensures s.rx.Valid()
    ensures ConnOf(s) == Feed(old(ConnOf(s)), old(rxBuf[..bytes]))
    ensures again <==> !s.closing
    ensures bytes == 0 ==> s.closing && s.rx.Contents() == old(s.rx.Contents())
  {
    if bytes == 0 {
      s.CloseSession();
      return false;
    }
    ghost var start := ConnOf(s);
    var appended := s.rx.Append(rxBuf, bytes);
    if appended < bytes {
      s.Record(Warn);
      s.CloseSession();
      assert rxBuf[..bytes][..appended] == rxBuf[..appended];
      return false;
    }
    PopAll(s);
    again := !s.closing;
  }

  /** The framing loop: every complete packet is handled; a malformed header closes the session. */
  method PopAll(s: Session)
    requires s.rx.Valid()
    modifies s, s.rx, s.rx.buf
    ensures s.rx.Valid()
    ensures ConnOf(s) == Settle(old(s.rx.Contents()), old(s.State()))
  {
    while true
      invariant s.rx.Valid()
      invariant Settle(s.rx.Contents(), s.State()) == Settle(old(s.rx.Contents()), old(s.State()))
      decreases |s.rx.Contents()|
    {
      ghost var before := ConnOf(s);
      var r, packet := Pop(s.rx);
      if r == Ok {
        s.ProcessOnePacket(packet);
        SettleStep(before.rx, before.link);
        continue;
      }
      if r == NeedMore { break; }
      s.Record(Warn);
      s.CloseSession();
      return;
    }
  }

  lemma SettleStep(b: seq<Byte>, l: Link)
    requires Verdict(b) == Ok
    ensures var n := ParseHeader(b).size;
            Settle(b, l) == Settle(b[n..], OnPacket(l, b[..n]))
  {
    var n := ParseHeader(b).size;
    var d := Frames(b[n..]);
    assert ([b[..n]] + d.frames)[1..] == d.frames;
  }
}
