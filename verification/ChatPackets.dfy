/** ToPacket and ToData, and the two chat packets: PKChatMessage (client to server) and
    PKChatBroadcast (server to clients). */
module ChatPackets {
  import opened Bytes
  import opened CStrings
  import opened PacketFormat
  import opened Buffers

  datatype ChatMessageData =
    ChatMessageData(sender: seq<Byte>, message: seq<Byte>, timestamp: U64)

  /** The bytes strncpy_s leaves unspecified behind the two terminators. */
  datatype Residue = Residue(sender: nat -> Byte, message: nat -> Byte)

  // ---- ToPacket and ToData on values

  function PacketOf(d: ChatMessageData, r: Residue): (p: Packet)
    ensures ChatInvariant(p)
  {
    Packet(Header(ChatMessage),
           ChatBody(StrncpySBytes(d.sender, NICK, r.sender),
                    StrncpySBytes(d.message, TEXT, r.message), d.timestamp))
  }

  function DataOf(p: Packet): ChatMessageData
    requires p.body.ChatBody?
  {
    ChatMessageData(Cut(p.body.sender), Cut(p.body.message), p.body.timestamp)
  }

  /** What a PKChatMessage object keeps: its own header, and a NUL inside both text fields. It
      need not be the last byte: the default constructor sets only the first. */
  predicate ChatInvariant(p: Packet) {
    WellFormed(ChatMessage, p) && NUL in p.body.sender && NUL in p.body.message
  }

  /** The data as it looks after one trip through the packet struct. */
  function NormalForm(d: ChatMessageData): ChatMessageData {
    ChatMessageData(Trunc(d.sender, NICK), Trunc(d.message, TEXT), d.timestamp)
  }

  /** The raw fields of a chat packet, cut to what terminated fields can hold. */
  function ReceivedData(b: seq<Byte>): ChatMessageData
    requires |b| >= Size(ChatMessage)
  {
    ChatMessageData(Trunc(b[HEADER..HEADER + NICK], NICK),
                    Trunc(b[HEADER + NICK..HEADER + NICK + TEXT], TEXT),
                    DecodeU64(b[HEADER + NICK + TEXT..HEADER + NICK + TEXT + 8]))
  }

  /** Where the fields of a chat body are read from. */
  lemma ChatFields(k: PacketType, b: seq<Byte>)
    requires k == ChatMessage || k == ChatBroadcast
    requires |b| >= Size(k)
    ensures var body := ParseBody(k, b[HEADER..Size(k)]);
            && body.sender == b[HEADER..HEADER + NICK]
            && body.message == b[HEADER + NICK..HEADER + NICK + TEXT]
            && body.timestamp == DecodeU64(b[HEADER + NICK + TEXT..HEADER + NICK + TEXT + 8])
  {
    var image := b[HEADER..Size(k)];
    assert image[..NICK] == b[HEADER..HEADER + NICK];
    assert image[NICK..NICK + TEXT] == b[HEADER + NICK..HEADER + NICK + TEXT];
    assert image[NICK + TEXT..] == b[HEADER + NICK + TEXT..HEADER + NICK + TEXT + 8];
  }

  predicate FitsUncut(d: ChatMessageData) {
    NUL !in d.sender && |d.sender| < NICK && NUL !in d.message && |d.message| < TEXT
  }

  /** The packed struct behind PKChatMessage. */
  class ChatMessagePacket {
    var header: PacketHeader
    const sender: array<Byte>
    const message: array<Byte>
    var timestamp: U64

    ghost predicate Valid() {
      sender.Length == NICK && message.Length == TEXT && sender != message
    }

    ghost function Value(): Packet
      reads this, sender, message
    {
      Packet(header, ChatBody(sender[..], message[..], timestamp))
    }

    /** ChatMessagePacket pkt{} -- every byte zero. */
    constructor ()
      ensures Valid() && fresh(sender) && fresh(message)
    {
      header := PacketHeader(0, 0);
      sender := new Byte[NICK](_ => NUL);
      message := new Byte[TEXT](_ => NUL);
      timestamp := 0;
    }

    /** ChatMessagePacket pkt; -- the header is built, the rest is whatever memory held. */
    constructor Uninitialised(r: Residue)
      ensures Valid() && fresh(sender) && fresh(message)
      ensures sender[..] == Unspecified(NICK, r.sender)
      ensures message[..] == Unspecified(TEXT, r.message)
    {
      header := PacketHeader(0, 0);
      sender := new Byte[NICK](i => r.sender(i));
      message := new Byte[TEXT](i => r.message(i));
    }

    /** Struct assignment. */
    method Assign(from: ChatMessagePacket)
      requires Valid() && from.Valid()
      requires {sender, message} !! {from.sender, from.message}
      modifies this, sender, message
      ensures Value() == old(from.Value())
    {
      Fill(sender, from.sender, 0);
      Fill(message, from.message, 0);
      header, timestamp := from.header, from.timestamp;
      assert from.sender[0..NICK] == from.sender[..];
      assert from.message[0..TEXT] == from.message[..];
    }
  }

  method ToPacket(data: ChatMessageData, r: Residue) returns (pkt: ChatMessagePacket)
    ensures pkt.Valid() && fresh(pkt) && fresh(pkt.sender) && fresh(pkt.message)
    ensures pkt.Value() == PacketOf(data, r)
    ensures pkt.header == PacketHeader(300, 1) && pkt.timestamp == data.timestamp
    ensures NUL in pkt.sender[..] && Cut(pkt.sender[..]) == Trunc(data.sender, NICK)
    ensures NUL in pkt.message[..] && Cut(pkt.message[..]) == Trunc(data.message, TEXT)
  {
    pkt := new ChatMessagePacket();
    pkt.header := PacketHeader(HEADER + NICK + TEXT + 8, 1);
    StrncpyS(pkt.sender, data.sender, r.sender);
    StrncpyS(pkt.message, data.message, r.message);
    pkt.timestamp := data.timestamp;
  }

  method ToData(pkt: ChatMessagePacket) returns (data: ChatMessageData)
    requires pkt.Valid() && NUL in pkt.sender[..] && NUL in pkt.message[..]
    ensures data == DataOf(pkt.Value())
  {
    var s := ScanCString(pkt.sender);
    var m := ScanCString(pkt.message);
    data := ChatMessageData(s, m, pkt.timestamp);
  }

  /** What the default constructor leaves: only the first byte of each text field is set. */
  function DefaultPacket(r: Residue): (p: Packet)
    ensures ChatInvariant(p)
  {
    var s := Unspecified(NICK, r.sender)[0 := NUL];
    var m := Unspecified(TEXT, r.message)[0 := NUL];
    assert s[0] == NUL && m[0] == NUL;
    Packet(Header(ChatMessage), ChatBody(s, m, 0))
  }

  class PKChatMessage {
    const pkt: ChatMessagePacket

    ghost predicate Valid() { pkt.Valid() }

    ghost function Value(): Packet
      reads pkt, pkt.sender, pkt.message
    {
      pkt.Value()
    }

    constructor (r: Residue)
      ensures Valid() && fresh(pkt) && fresh(pkt.sender) && fresh(pkt.message)
      ensures Value() == DefaultPacket(r)
      ensures pkt.header == PacketHeader(300, 1) && pkt.timestamp == 0
      ensures pkt.sender[..] == [0] + Unspecified(NICK, r.sender)[1..]
      ensures pkt.message[..] == [0] + Unspecified(TEXT, r.message)[1..]
    {
      pkt := new ChatMessagePacket.Uninitialised(r);
      new;
      pkt.header := PacketHeader(HEADER + NICK + TEXT + 8, 1);
      pkt.sender[0] := NUL;
      pkt.message[0] := NUL;
      pkt.timestamp := 0;
    }

    constructor From(data: ChatMessageData, r: Residue)
      ensures Valid() && fresh(pkt) && fresh(pkt.sender) && fresh(pkt.message)
      ensures Value() == PacketOf(data, r)
    {
      var made := ToPacket(data, r);
      pkt := made;
      new;
      pkt.header := PacketHeader(HEADER + NICK + TEXT + 8, 1);
    }

    method SetData(data: ChatMessageData, r: Residue)
      requires Valid()
      modifies pkt, pkt.sender, pkt.message
      ensures Value() == PacketOf(data, r)
    {
      var made := ToPacket(data, r);
      pkt.Assign(made);
      pkt.header := PacketHeader(HEADER + NICK + TEXT + 8, 1);
    }

    method GetData() returns (data: ChatMessageData)
      requires Valid() && ChatInvariant(Value())
      ensures data == DataOf(Value())
    {
      data := ToData(pkt);
    }

    method Serialize() returns (out: array<Byte>)
      requires Valid()
      ensures fresh(out) && out[..] == Encode(Value())
    {
      out := Emit(HEADER + NICK + TEXT + 8, pkt.header,
        pkt.sender[..] + pkt.message[..] + EncodeU64(pkt.timestamp));
    }

    method Deserialize(buf: array?<Byte>, sz: nat)
      requires Valid() && Readable(buf, sz) && buf != pkt.sender && buf != pkt.message
      modifies pkt, pkt.sender, pkt.message
      ensures Value() == Receive(ChatMessage, old(Value()), Seen(buf, sz))
    {
      if !IsValid(buf, sz) { return; }
      pkt.header := HeaderAt(buf, sz);
      Fill(pkt.sender, buf, HEADER);
      Fill(pkt.message, buf, HEADER + NICK);
      pkt.timestamp := DecodeU64(buf[HEADER + NICK + TEXT..HEADER + NICK + TEXT + 8]);
      ghost var seen := buf[..sz];
      ChatFields(ChatMessage, seen);
      SeenSlice(buf, sz, HEADER, HEADER + NICK);
      SeenSlice(buf, sz, HEADER + NICK, HEADER + NICK + TEXT);
      SeenSlice(buf, sz, HEADER + NICK + TEXT, HEADER + NICK + TEXT + 8);
      pkt.sender[NICK - 1] := NUL;
      pkt.message[TEXT - 1] := NUL;
    }

    predicate IsValid(buf: array?<Byte>, sz: nat)
      requires Readable(buf, sz)
      reads buf
      ensures IsValid(buf, sz) <==> Accepts(ChatMessage, Seen(buf, sz))
    {
      Checks(buf, sz, HEADER + NICK + TEXT + 8, 1)
    }
  }

  class PKChatBroadcast {
    var header: PacketHeader
    const sender: array<Byte>
    const message: array<Byte>
    var timestampMs: U64

    ghost predicate Valid() {
      sender.Length == NICK && message.Length == TEXT && sender != message
    }

    ghost function Value(): Packet
      reads this, sender, message
    {
      Packet(header, ChatBody(sender[..], message[..], timestampMs))
    }

    constructor ()
      ensures Valid() && fresh(sender) && fresh(message)
      ensures Value() == MakeBroadcast([], [], 0)
    {
      header := PacketHeader(HEADER + NICK + TEXT + 8, 10);
      sender := new Byte[NICK](_ => NUL);
      message := new Byte[TEXT](_ => NUL);
      timestampMs := 0;
      new;
      assert sender[..] == Field([], NICK);
      assert message[..] == Field([], TEXT);
    }

    constructor Of(nick: Option<seq<Byte>>, msg: Option<seq<Byte>>, ts: U64)
      ensures Valid() && fresh(sender) && fresh(message)
      ensures Value() == MakeBroadcast(OrEmpty(nick), OrEmpty(msg), ts)
      ensures header == PacketHeader(300, 10) && timestampMs == ts
      ensures sender[..] == Field(OrEmpty(nick), NICK) && message[..] == Field(OrEmpty(msg), TEXT)
      ensures nick == None ==> sender[..] == Zeros(NICK)
      ensures msg == None ==> message[..] == Zeros(TEXT)
    {
      header := PacketHeader(HEADER + NICK + TEXT + 8, 10);
      sender := new Byte[NICK](_ => NUL);
      message := new Byte[TEXT](_ => NUL);
      timestampMs := 0;
      new;
      CopyShort(sender, OrEmpty(nick));
      CopyShort(message, OrEmpty(msg));
      timestampMs := ts;
    }

    method Serialize() returns (out: array<Byte>)
      requires Valid() && header.size >= Size(ChatBroadcast)
      ensures fresh(out)
      ensures out[..] == Encode(Value()) + Zeros(header.size - Size(ChatBroadcast))
    {
      out := Emit(header.size, header, sender[..] + message[..] + EncodeU64(timestampMs));
    }

    method Deserialize(buf: array?<Byte>, sz: nat)
      requires Valid() && Readable(buf, sz) && buf != sender && buf != message
      modifies this, sender, message
      ensures Value() == Receive(ChatBroadcast, old(Value()), Seen(buf, sz))
    {
      if !IsValid(buf, sz) { return; }
      header := HeaderAt(buf, sz);
      Fill(sender, buf, HEADER);
      Fill(message, buf, HEADER + NICK);
      timestampMs := DecodeU64(buf[HEADER + NICK + TEXT..HEADER + NICK + TEXT + 8]);
      ghost var seen := buf[..sz];
      ChatFields(ChatBroadcast, seen);
      SeenSlice(buf, sz, HEADER, HEADER + NICK);
      SeenSlice(buf, sz, HEADER + NICK, HEADER + NICK + TEXT);
      SeenSlice(buf, sz, HEADER + NICK + TEXT, HEADER + NICK + TEXT + 8);
    }

    predicate IsValid(buf: array?<Byte>, sz: nat)
      requires Readable(buf, sz)
      reads buf
      ensures IsValid(buf, sz) <==> Accepts(ChatBroadcast, Seen(buf, sz))
    {
      Checks(buf, sz, HEADER + NICK + TEXT + 8, 10)
    }
  }
}
