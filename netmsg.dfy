/*
 * netmsg: one datagram of the game protocol. A frame is a little-endian
 * sequence number, a flags byte and the sender id, followed by the payload.
 */
module NetMsg {
  import opened Common
  import opened Packet

  /** FLG_UNK, FLG_RELIABLE and FLG_ACK */
  const FlagUnk: bv8 := 1
  const FlagReliable: bv8 := 2
  const FlagAck: bv8 := 4

  /** The length of the frame header: seq, flags and sender id. */
  const HeaderSize: nat := 7

  datatype Message = Message(seqNum: bv32, flags: bv8, senderId: bv16, data: Bytes)
  {
    /** reliable(): the FLG_RELIABLE bit. */
    predicate Reliable()
    {
      flags & FlagReliable != 0
    }

    /** ack(): the FLG_ACK bit. */
    predicate Ack()
    {
      flags & FlagAck != 0
    }

    /** operator<: messages are ordered by their sequence number alone. */
    predicate Before(o: Message)
    {
      seqNum < o.seqNum
    }
  }

  /** The header of a frame. */
  function Header(seqWord: bv32, flags: bv8, senderId: bv16): (r: Bytes)
    ensures |r| == HeaderSize
  {
    LE32(seqWord) + [flags] + LE16(senderId)
  }

  /** The bytes of a message on the wire. */
  function Encode(m: Message): (r: Bytes)
    ensures |r| == HeaderSize + |m.data|
  {
    Header(m.seqNum, m.flags, m.senderId) + m.data
  }

  /** The message a frame holds; None when it is shorter than a header. */
  function Decode(s: Bytes): (r: Option<Message>)
    ensures r.Some? <==> |s| >= HeaderSize
    ensures r.Some? ==> r.value.flags == s[4] && r.value.data == s[HeaderSize..]
  {
    if |s| < HeaderSize then None
    else Some(Message(FromLE32(s[..4]), s[4], FromLE16(s[5..7]), s[HeaderSize..]))
  }

  /** Every frame long enough for a header is the encoding of what it
      decodes to. */
  lemma EncodeDecode(s: Bytes)
    requires |s| >= HeaderSize
    ensures Encode(Decode(s).value) == s
  {
    var m := Decode(s).value;
    LE32RoundTrip(m.seqNum, s[..4]);
    LE16RoundTrip(m.senderId, s[5..7]);
    assert s == s[..4] + [s[4]] + s[5..7] + s[HeaderSize..];
  }

  /** Decoding an encoded message gives it back. */
  lemma DecodeEncode(m: Message)
    ensures Decode(Encode(m)) == Some(m)
  {
    var s := Encode(m);
    assert s[..4] == LE32(m.seqNum) && s[4] == m.flags && s[5..7] == LE16(m.senderId);
    assert s[HeaderSize..] == m.data;
    LE32RoundTrip(m.seqNum, s[..4]);
    LE16RoundTrip(m.senderId, s[5..7]);
  }

  /** parse(pkt): reads the header and takes every remaining byte as the
      payload. A packet too short for the header is a failed read; the
      packet is then left with its bytes but no promise about the index. */
  method Parse(pkt: Packet) returns (r: Option<Message>)
    requires pkt.readIdx <= |pkt.data| < SizeMod
    modifies pkt
    ensures pkt.data == old(pkt.data)
    ensures r == Decode(old(pkt.Rest()))
    ensures r.Some? ==> pkt.readIdx == |pkt.data|
  {
    ghost var rest := pkt.Rest();
    ghost var i := pkt.readIdx;
    var head := ReadHeader(pkt);
    if head.None? {
      return None;
    }
    var n := pkt.Remaining();
    var ok, payload := pkt.Read(n);
    r := Some(head.value.(data := payload));
    assert rest[..4] == pkt.data[i..i + 4] && rest[5..7] == pkt.data[i + 5..i + 7];
    assert rest[HeaderSize..] == payload;
  }

  /** The three header reads of parse: the sequence number, the flags and
      the sender, as a message with no payload yet. */
  method ReadHeader(pkt: Packet) returns (r: Option<Message>)
    requires pkt.readIdx <= |pkt.data|
    modifies pkt
    ensures pkt.data == old(pkt.data)
    ensures r.Some? <==> old(pkt.readIdx) + HeaderSize <= |pkt.data|
    ensures r.Some? ==> var i := old(pkt.readIdx);
              pkt.readIdx == i + HeaderSize &&
              r.value == Message(FromLE32(pkt.data[i..i + 4]), pkt.data[i + 4], FromLE16(pkt.data[i + 5..i + 7]), [])
  {
    var seqNum := pkt.ReadDword();
    if seqNum.None? {
      return None;
    }
    var flags := pkt.ReadByte();
    if flags.None? {
      return None;
    }
    var sender := pkt.ReadWord();
    if sender.None? {
      return None;
    }
    r := Some(Message(seqNum.value, flags.value, sender.value, []));
  }
}
