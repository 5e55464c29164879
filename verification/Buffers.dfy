/** The (pointer, length) buffers handed to IsValid and Deserialize. */
module Buffers {
  import opened Bytes
  import opened PacketFormat

  /** What the caller owes: a non-null pointer has sz readable bytes behind it. */
  predicate Readable(buf: array?<Byte>, sz: nat) {
    buf != null ==> sz <= buf.Length
  }

  /** The bytes behind the pointer; a null pointer shows nothing, whatever sz says. */
  ghost function Seen(buf: array?<Byte>, sz: nat): seq<Byte>
    requires Readable(buf, sz)
    reads buf
  {
    if buf == null then [] else buf[..sz]
  }

  lemma SeenSlice(buf: array<Byte>, sz: nat, i: nat, j: nat)
    requires i <= j <= sz <= buf.Length
    ensures buf[..sz][i..j] == buf[i..j]
  {
  }

  /** reinterpret_cast<const PacketHeader*>(buf), on a little-endian machine. */
  function HeaderAt(buf: array<Byte>, ghost sz: nat): (h: PacketHeader)
    requires HEADER <= sz <= buf.Length
    reads buf
    ensures h == ParseHeader(buf[..sz])
  {
    assert buf[..sz][0..2] == [buf[0], buf[1]];
    assert buf[..sz][2..4] == [buf[2], buf[3]];
    assert LeDecode([buf[0], buf[1]]) == buf[0] + 256 * LeDecode([buf[1]]);
    assert LeDecode([buf[2], buf[3]]) == buf[2] + 256 * LeDecode([buf[3]]);
    PacketHeader(buf[0] as int + 256 * buf[1] as int, buf[2] as int + 256 * buf[3] as int)
  }

  /** The three checks every IsValid makes, in their order. */
  predicate Checks(buf: array?<Byte>, sz: nat, size: U16, id: U16)
    requires Readable(buf, sz) && HEADER <= size
    reads buf
  {
    if buf == null then false
    else if sz < size then false
    else
      var h := HeaderAt(buf, sz);
      if h.id != id then false
      else h.size == size
  }

  /** Serialize's common shape: a zeroed vector of n bytes, then header, then body. */
  method Emit(n: nat, header: PacketHeader, body: seq<Byte>) returns (out: array<Byte>)
    requires HEADER + |body| <= n
    ensures fresh(out)
    ensures out[..] == HeaderBytes(header) + body + Zeros(n - HEADER - |body|)
  {
    out := new Byte[n](_ => NUL);
    Store(out, 0, HeaderBytes(header));
    Store(out, HEADER, body);
    assert out[..HEADER] == HeaderBytes(header);
    assert out[HEADER..HEADER + |body|] == body;
    assert out[HEADER + |body|..] == Zeros(n - HEADER - |body|);
    assert out[..] == out[..HEADER] + out[HEADER..HEADER + |body|] + out[HEADER + |body|..];
  }

  /** Copies n bytes of buf, starting at from, over the whole of field. */
  method Fill(field: array<Byte>, buf: array<Byte>, from: nat)
    requires field != buf && from + field.Length <= buf.Length
    modifies field
    ensures field[..] == buf[from..from + field.Length]
  {
    Memcpy(field, 0, buf, from, field.Length);
  }
}
