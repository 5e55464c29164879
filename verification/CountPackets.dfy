/** PKUserCount, PKUserCountReq (header only) and PKUserCountAck (a signed 32-bit count). */
module CountPackets {
  import opened Bytes
  import opened PacketFormat
  import opened Buffers

  class PKUserCount {
    var header: PacketHeader

    ghost function Value(): Packet reads this { Packet(header, NoBody) }

    constructor ()
      ensures Value() == MakeUserCount() && header == PacketHeader(4, 3)
    {
      header := PacketHeader(HEADER, 3);
    }

    method Serialize() returns (out: array<Byte>)
      ensures fresh(out) && out[..] == Encode(Value())
    {
      out := Emit(HEADER, header, []);
    }

    method Deserialize(buf: array?<Byte>, sz: nat)
      requires Readable(buf, sz)
      modifies this
      ensures Value() == Receive(UserCount, old(Value()), Seen(buf, sz))
    {
      if !IsValid(buf, sz) { return; }
      header := HeaderAt(buf, sz);
    }

    predicate IsValid(buf: array?<Byte>, sz: nat)
      requires Readable(buf, sz)
      reads buf
      ensures IsValid(buf, sz) <==> Accepts(UserCount, Seen(buf, sz))
    {
      Checks(buf, sz, HEADER, 3)
    }
  }

  class PKUserCountReq {
    var header: PacketHeader

    ghost function Value(): Packet reads this { Packet(header, NoBody) }

    constructor ()
      ensures Value() == MakeUserCountReq() && header == PacketHeader(4, 13)
    {
      header := PacketHeader(HEADER, 13);
    }

    method Serialize() returns (out: array<Byte>)
      ensures fresh(out) && out[..] == Encode(Value())
    {
      out := Emit(HEADER, header, []);
    }

    method Deserialize(buf: array?<Byte>, sz: nat)
      requires Readable(buf, sz)
      modifies this
      ensures Value() == Receive(UserCountReq, old(Value()), Seen(buf, sz))
    {
      if !IsValid(buf, sz) { return; }
      header := HeaderAt(buf, sz);
    }

    /** Tests the id of UserCount, not of UserCountReq. */
    predicate IsValid(buf: array?<Byte>, sz: nat)
      requires Readable(buf, sz)
      reads buf
      ensures IsValid(buf, sz) <==> Accepts(UserCountReq, Seen(buf, sz))
    {
      Checks(buf, sz, HEADER, 3)
    }
  }

  class PKUserCountAck {
    var header: PacketHeader
    var count: I32

    ghost function Value(): Packet reads this { Packet(header, CountBody(count)) }

    constructor ()
      ensures Value() == MakeUserCountAck(0) && header == PacketHeader(8, 14) && count == 0
    {
      header := PacketHeader(HEADER + 4, 14);
      count := 0;
    }

    constructor Of(c: I32)
      ensures Value() == MakeUserCountAck(c) && header == PacketHeader(8, 14) && count == c
    {
      header := PacketHeader(HEADER + 4, 14);
      count := c;
    }

    method Serialize() returns (out: array<Byte>)
      requires header.size >= Size(UserCountAck)
      ensures fresh(out)
      ensures out[..] == Encode(Value()) + Zeros(header.size - Size(UserCountAck))
    {
      out := Emit(header.size, header, EncodeI32(count));
    }

    method Deserialize(buf: array?<Byte>, sz: nat)
      requires Readable(buf, sz)
      modifies this
      ensures Value() == Receive(UserCountAck, old(Value()), Seen(buf, sz))
    {
      if !IsValid(buf, sz) { return; }
      header := HeaderAt(buf, sz);
      count := DecodeI32(buf[HEADER..HEADER + 4]);
      SeenSlice(buf, sz, HEADER, HEADER + 4);
    }

    predicate IsValid(buf: array?<Byte>, sz: nat)
      requires Readable(buf, sz)
      reads buf
      ensures IsValid(buf, sz) <==> Accepts(UserCountAck, Seen(buf, sz))
    {
      Checks(buf, sz, HEADER + 4, 14)
    }
  }
}
