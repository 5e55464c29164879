/** PKLoginReq and PKExit: a header and one 32-byte nickname field. */
module NicknamePackets {
  import opened Bytes
  import opened CStrings
  import opened PacketFormat
  import opened Buffers

  class PKLoginReq {
    var header: PacketHeader
    const nickname: array<Byte>

    ghost predicate Valid() { nickname.Length == NICK }

    ghost function Value(): Packet
      reads this, nickname
    {
      Packet(header, NicknameBody(nickname[..]))
    }

    constructor ()
      ensures Valid() && fresh(nickname)
      ensures Value() == MakeLoginReq([])
    {
      header := PacketHeader(HEADER + NICK, 11);
      nickname := new Byte[NICK](_ => NUL);
      new;
      assert nickname[..] == Field([], NICK);
    }

    /** Full-width strncpy, then a forced terminator. */
    constructor Named(name: Option<seq<Byte>>)
      ensures Valid() && fresh(nickname)
      ensures Value() == MakeLoginReq(OrEmpty(name))
      ensures header == PacketHeader(36, 11) && nickname[..] == Field(OrEmpty(name), NICK)
      ensures name == None ==> nickname[..] == Zeros(NICK)
    {
      header := PacketHeader(HEADER + NICK, 11);
      nickname := new Byte[NICK](_ => NUL);
      new;
      CopyFull(nickname, OrEmpty(name));
    }

    method Serialize() returns (out: array<Byte>)
      requires Valid() && header.size >= Size(LoginReq)
      ensures fresh(out)
      ensures out[..] == Encode(Value()) + Zeros(header.size - Size(LoginReq))
    {
      out := Emit(header.size, header, nickname[..]);
    }

    method Deserialize(buf: array?<Byte>, sz: nat)
      requires Valid() && Readable(buf, sz) && buf != nickname
      modifies this, nickname
      ensures Value() == Receive(LoginReq, old(Value()), Seen(buf, sz))
    {
      if !IsValid(buf, sz) { return; }
      header := HeaderAt(buf, sz);
      Fill(nickname, buf, HEADER);
      SeenSlice(buf, sz, HEADER, HEADER + NICK);
    }

    predicate IsValid(buf: array?<Byte>, sz: nat)
      requires Readable(buf, sz)
      reads buf
      ensures IsValid(buf, sz) <==> Accepts(LoginReq, Seen(buf, sz))
    {
      Checks(buf, sz, HEADER + NICK, 11)
    }
  }

  class PKExit {
    var header: PacketHeader
    const nickname: array<Byte>

    ghost predicate Valid() { nickname.Length == NICK }

    ghost function Value(): Packet
      reads this, nickname
    {
      Packet(header, NicknameBody(nickname[..]))
    }

    constructor ()
      ensures Valid() && fresh(nickname)
      ensures Value() == MakeExit([])
    {
      header := PacketHeader(HEADER + NICK, 2);
      nickname := new Byte[NICK](_ => NUL);
      new;
      assert nickname[..] == Field([], NICK);
    }

    /** strncpy of one byte less than the width, then the terminator. */
    constructor Named(nick: Option<seq<Byte>>)
      ensures Valid() && fresh(nickname)
      ensures Value() == MakeExit(OrEmpty(nick))
      ensures header == PacketHeader(36, 2) && nickname[..] == Field(OrEmpty(nick), NICK)
      ensures nick == None ==> nickname[..] == Zeros(NICK)
    {
      header := PacketHeader(HEADER + NICK, 2);
      nickname := new Byte[NICK](_ => NUL);
      new;
      CopyShort(nickname, OrEmpty(nick));
    }

    method Serialize() returns (out: array<Byte>)
      requires Valid() && header.size >= Size(Exit)
      ensures fresh(out)
      ensures out[..] == Encode(Value()) + Zeros(header.size - Size(Exit))
    {
      out := Emit(header.size, header, nickname[..]);
    }

    method Deserialize(buf: array?<Byte>, sz: nat)
      requires Valid() && Readable(buf, sz) && buf != nickname
      modifies this, nickname
      ensures Value() == Receive(Exit, old(Value()), Seen(buf, sz))
    {
      if !IsValid(buf, sz) { return; }
      header := HeaderAt(buf, sz);
      Fill(nickname, buf, HEADER);
      SeenSlice(buf, sz, HEADER, HEADER + NICK);
    }

    predicate IsValid(buf: array?<Byte>, sz: nat)
      requires Readable(buf, sz)
      reads buf
      ensures IsValid(buf, sz) <==> Accepts(Exit, Seen(buf, sz))
    {
      Checks(buf, sz, HEADER + NICK, 2)
    }
  }

  /** The two classes truncate by different idioms, yet from one nickname -- null included --
      they serialise to byte-identical bodies. */
  lemma SameNicknameSameBody(nick: Option<seq<Byte>>)
    ensures Encode(MakeExit(OrEmpty(nick)))[HEADER..] == Encode(MakeLoginReq(OrEmpty(nick)))[HEADER..]
    ensures Encode(MakeExit(OrEmpty(nick)))[HEADER..] ==
              StrncpyBytes(OrEmpty(nick), NICK - 1) + [NUL]
    ensures Encode(MakeLoginReq(OrEmpty(nick)))[HEADER..] ==
              StrncpyBytes(OrEmpty(nick), NICK)[NICK - 1 := NUL]
  {
    TruncationIdiomsAgree(OrEmpty(nick), NICK);
  }
}
