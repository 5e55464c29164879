/** PKLoginAck: session id, accepted flag, a 64-byte reason text and a signed user count. */
module LoginAckPacket {
  import opened Bytes
  import opened CStrings
  import opened PacketFormat
  import opened Buffers

  class PKLoginAck {
    var header: PacketHeader
    var sessionId: U64
    var accepted: Byte
    const reason: array<Byte>
    var currentUsers: I32

    ghost predicate Valid() { reason.Length == REASON }

    ghost function Value(): Packet
      reads this, reason
    {
      Packet(header, LoginAckBody(sessionId, accepted, reason[..], currentUsers))
    }

    constructor ()
      ensures Valid() && fresh(reason)
      ensures Value() == MakeLoginAck(0, false, [], 0)
    {
      header := PacketHeader(HEADER + 8 + 1 + REASON + 4, 12);
      sessionId, accepted, currentUsers := 0, 0, 0;
      reason := new Byte[REASON](_ => NUL);
      new;
      assert reason[..] == Field([], REASON);
    }

    /** Full-width strncpy of the reason, then a forced terminator. */
    constructor Of(sid: U64, ok: bool, why: Option<seq<Byte>>, curUsers: I32)
      ensures Valid() && fresh(reason)
      ensures Value() == MakeLoginAck(sid, ok, OrEmpty(why), curUsers)
      ensures header == PacketHeader(81, 12) && sessionId == sid && currentUsers == curUsers
      ensures accepted == (if ok then 1 else 0) && reason[..] == Field(OrEmpty(why), REASON)
      ensures why == None ==> reason[..] == Zeros(REASON)
    {
      header := PacketHeader(HEADER + 8 + 1 + REASON + 4, 12);
      sessionId := sid;
      accepted := if ok then 1 else 0;
      reason := new Byte[REASON](_ => NUL);
      currentUsers := curUsers;
      new;
      CopyFull(reason, OrEmpty(why));
    }

    method Serialize() returns (out: array<Byte>)
      requires Valid() && header.size >= Size(LoginAck)
      ensures fresh(out)
      ensures out[..] == Encode(Value()) + Zeros(header.size - Size(LoginAck))
    {
      out := Emit(header.size, header,
        EncodeU64(sessionId) + [accepted] + reason[..] + EncodeI32(currentUsers));
    }

    method Deserialize(buf: array?<Byte>, sz: nat)
      requires Valid() && Readable(buf, sz) && buf != reason
      modifies this, reason
      ensures Value() == Receive(LoginAck, old(Value()), Seen(buf, sz))
    {
      if !IsValid(buf, sz) { return; }
      header := HeaderAt(buf, sz);
      sessionId := DecodeU64(buf[HEADER..HEADER + 8]);
      accepted := buf[HEADER + 8];
      Fill(reason, buf, HEADER + 9);
      currentUsers := DecodeI32(buf[HEADER + 9 + REASON..HEADER + 13 + REASON]);
      ghost var image := buf[..sz][HEADER..Size(LoginAck)];
      SeenSlice(buf, sz, HEADER, Size(LoginAck));
      assert image[..8] == buf[HEADER..HEADER + 8];
      assert image[9..9 + REASON] == buf[HEADER + 9..HEADER + 9 + REASON];
      assert image[9 + REASON..] == buf[HEADER + 9 + REASON..HEADER + 13 + REASON];
    }

    predicate IsValid(buf: array?<Byte>, sz: nat)
      requires Readable(buf, sz)
      reads buf
      ensures IsValid(buf, sz) <==> Accepts(LoginAck, Seen(buf, sz))
    {
      Checks(buf, sz, HEADER + 8 + 1 + REASON + 4, 12)
    }
  }
}
