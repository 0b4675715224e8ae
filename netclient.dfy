/*
 * netclient: the reliable-datagram layer. Outbound frames carry a header
 * with a sequence number; reliable ones take the next number of the send
 * counter, the rest a fixed sentinel. Inbound reliable frames are acked and
 * delivered in sequence order, early ones held back in a queue ordered by
 * sequence number.
 *
 * The socket is replaced by two sequences: `inbox`, the datagrams still
 * waiting to be received, and `sent`, every datagram sent so far.
 */
module NetClient {
  import opened Common
  import opened Packet
  import opened NetMsg

  /** A uint32_t counter, as a number. */
  type U32 = x: int | 0 <= x < 0x1_0000_0000

  /** x + 1 in uint32_t arithmetic. */
  function Next32(x: U32): (r: U32)
    ensures x < 0xFFFF_FFFF ==> r == x + 1
    ensures x == 0xFFFF_FFFF ==> r == 0
  {
    if x == 0xFFFF_FFFF then 0 else x + 1
  }

  /** consts::SeqUnreliable: the sequence number of every unreliable frame
      and every ack. */
  const SeqUnreliable: bv32 := 0xF197DE9A

  /** newframe(seq, flags): the header of an outbound frame. FLG_UNK is
      always set, and only the low 16 bits of the 32-bit client id fit in
      the sender field. */
  function Frame(seqWord: bv32, flags: bv8, clientId: bv32): (r: Bytes)
    ensures |r| == HeaderSize
  {
    Header(seqWord, FlagUnk | flags, (clientId & 0xFFFF) as bv16)
  }

  /** An outbound frame with its body reads back as the message it encodes. */
  lemma FrameDecodes(seqWord: bv32, flags: bv8, clientId: bv32, body: Bytes)
    ensures Decode(Frame(seqWord, flags, clientId) + body)
         == Some(Message(seqWord, FlagUnk | flags, (clientId & 0xFFFF) as bv16, body))
  {
    DecodeEncode(Message(seqWord, FlagUnk | flags, (clientId & 0xFFFF) as bv16, body));
  }

  /** sendack(seqno): the frame acknowledging seqno. */
  function AckFrame(clientId: bv32, acked: bv32): Bytes
  {
    Frame(SeqUnreliable, FlagAck, clientId) + LE32(acked)
  }

  /** An ack reads back as an unreliable ack message whose payload is the
      acknowledged sequence number. */
  lemma AckFrameDecodes(clientId: bv32, acked: bv32)
    ensures var m := Decode(AckFrame(clientId, acked));
            m.Some? && m.value.seqNum == SeqUnreliable && m.value.Ack() && !m.value.Reliable()
            && |m.value.data| == 4 && FromLE32(m.value.data) == acked
  {
    FrameDecodes(SeqUnreliable, FlagAck, clientId, LE32(acked));
    LE32RoundTrip(acked, []);
    assert FlagUnk | FlagAck == 5;
  }

  /** The acks sent on receiving a message: one, when it is reliable. */
  function AckFor(clientId: bv32, m: Message): (r: seq<Bytes>)
    ensures |r| <= 1
  {
    if m.Reliable() then [AckFrame(clientId, m.seqNum)] else []
  }

  /** The acks sent on receiving a datagram: one for a frame with the
      reliable flag, echoing its four sequence bytes. */
  function AckOf(clientId: bv32, frame: Bytes): (r: seq<Bytes>)
    ensures |r| <= 1
  {
    if |frame| >= HeaderSize && frame[4] & FlagReliable != 0
    then [Frame(SeqUnreliable, FlagAck, clientId) + frame[..4]]
    else []
  }

  /** The ack for a datagram is the ack for the message it decodes to. */
  lemma AckOfDecode(clientId: bv32, frame: Bytes)
    ensures AckOf(clientId, frame) == match Decode(frame) case None => [] case Some(m) => AckFor(clientId, m)
  {
    if |frame| >= HeaderSize {
      LE32RoundTrip(FromLE32(frame[..4]), frame[..4]);
    }
  }

  /** The acks the client sends for a run of received datagrams, in order. */
  function AcksOf(clientId: bv32, frames: seq<Bytes>): (r: seq<Bytes>)
    ensures |r| <= |frames|
  {
    if frames == [] then [] else AckOf(clientId, frames[0]) + AcksOf(clientId, frames[1..])
  }

  /** Receiving one datagram, then reading on: the inbox left is still a
      suffix of the original and the acks sent are those of the prefix
      consumed. */
  lemma PopThenRead(clientId: bv32, frames: seq<Bytes>, rest: seq<Bytes>, sent0: seq<Bytes>, sent1: seq<Bytes>)
    requires frames != [] && |rest| <= |frames| - 1
    requires rest == frames[1..][|frames| - 1 - |rest|..]
    requires sent1 == sent0 + AckOf(clientId, frames[0]) + AcksOf(clientId, frames[1..][..|frames| - 1 - |rest|])
    ensures rest == frames[|frames| - |rest|..]
    ensures sent1 == sent0 + AcksOf(clientId, frames[..|frames| - |rest|])
  {
    var k := |frames| - 1 - |rest|;
    assert frames[..k + 1][1..] == frames[1..][..k];
  }

  // ---------------------------------------------------------------------
  // The queue of early messages: a std::set ordered by a key, as a sequence
  // sorted by it. Elements with equal keys are the same element of the set.

  /** The ordering of netmsg: by sequence number alone. */
  function SeqKey(m: Message): int
  {
    m.seqNum as int
  }

  predicate SortedBy<T(!new)>(q: seq<T>, key: T -> int)
  {
    forall i, j :: 0 <= i < j < |q| ==> key(q[i]) < key(q[j])
  }

  /** Whether the queue holds an element with that key. */
  predicate HasKey<T(!new)>(q: seq<T>, key: T -> int, k: int)
  {
    exists i :: 0 <= i < |q| && key(q[i]) == k
  }

  /** A queue whose head has another key holds k iff its tail does. */
  lemma HasKeyTail<T(!new)>(q: seq<T>, key: T -> int, k: int)
    requires q != [] && key(q[0]) != k
    ensures HasKey(q, key, k) <==> HasKey(q[1..], key, k)
  {
    if HasKey(q, key, k) {
      var i :| 0 <= i < |q| && key(q[i]) == k;
      assert q[1..][i - 1] == q[i];
    }
    if HasKey(q[1..], key, k) {
      var i :| 0 <= i < |q| - 1 && key(q[1..][i]) == k;
      assert q[i + 1] == q[1..][i];
    }
  }

  /** An element below every element of a sorted queue can head it. */
  lemma SortedCons<T(!new)>(h: T, t: seq<T>, key: T -> int)
    requires SortedBy(t, key)
    requires forall x :: x in t ==> key(h) < key(x)
    ensures SortedBy([h] + t, key)
  {
    var r := [h] + t;
    forall i, j | 0 <= i < j < |r|
      ensures key(r[i]) < key(r[j])
    {
      if i == 0 {
        assert r[j] == t[j - 1];
      } else {
        assert r[i] == t[i - 1] && r[j] == t[j - 1];
      }
    }
  }

  lemma InTail<T(!new)>(q: seq<T>)
    requires q != []
    ensures forall x :: x in q <==> x == q[0] || x in q[1..]
  {
    assert q == [q[0]] + q[1..];
  }

  /** The recursive case of Insert: m goes after the head, into the tail. */
  lemma InsertStep<T(!new)>(q: seq<T>, m: T, key: T -> int, t: seq<T>)
    requires SortedBy(q, key) && q != [] && key(q[0]) < key(m)
    requires SortedBy(t, key)
    requires forall x :: x in t <==> x in q[1..] || (x == m && !HasKey(q[1..], key, key(m)))
    ensures SortedBy([q[0]] + t, key)
    ensures forall x :: x in [q[0]] + t <==> x in q || (x == m && !HasKey(q, key, key(m)))
  {
    HasKeyTail(q, key, key(m));
    InTail(q);
    assert forall x :: x in t ==> key(q[0]) < key(x);
    SortedCons(q[0], t, key);
  }

  /** emplace(m): adds m unless an element with its key is already present,
      in which case the queue is unchanged. */
  function Insert<T(!new)>(q: seq<T>, m: T, key: T -> int): (r: seq<T>)
    requires SortedBy(q, key)
    ensures SortedBy(r, key)
    ensures forall x :: x in r <==> x in q || (x == m && !HasKey(q, key, key(m)))
    ensures r != [] && (r[0] == m || (q != [] && r[0] == q[0]))
  {
    if q == [] then [m]
    else if key(m) < key(q[0]) then [m] + q
    else if key(m) == key(q[0]) then q
    else
      var t := Insert(q[1..], m, key);
      InsertStep(q, m, key, t);
      [q[0]] + t
  }

  /** The outcome of readmsg: a message delivered (true), nothing to deliver
      (false), or a datagram too short for a frame header. */
  datatype ReadResult = Delivered(msg: Message) | NoMessage | Malformed

  /** What readmsg does with a message it receives, given the number it
      expects: a due reliable message and an unreliable one that is not an
      ack are delivered, and a later reliable one is held in the queue (or
      one with its number already was). */
  predicate Handled(m: Message, expected: int, r: ReadResult, queued: seq<Message>)
  {
    (m.Reliable() && m.seqNum as int == expected ==> r == Delivered(m)) &&
    (!m.Reliable() && !m.Ack() ==> r == Delivered(m)) &&
    (m.Reliable() && m.seqNum as int > expected ==> HasKey(queued, SeqKey, m.seqNum as int))
  }

  /** A message queued before reading on is still queued afterwards: what
      reading on may take out of the queue is only a due message. */
  lemma HeldAfterReading(q0: seq<Message>, q1: seq<Message>, q2: seq<Message>, msg: Message, r: ReadResult, expected: int)
    requires forall x :: x in q0 ==> x in q1
    requires forall x :: x in q1 && x !in q0 ==> x == msg
    requires HasKey(q1, SeqKey, msg.seqNum as int) && msg.seqNum as int > expected
    requires forall x :: x in q1 ==> x.Reliable() && |x.data| < SizeMod
    requires forall x :: x in q1 ==> x in q2 || r == Delivered(x)
    requires forall x :: x in q2 && x !in q1 ==> x.seqNum as int > expected
    requires r.Delivered? && r.msg.Reliable() ==> r.msg.seqNum as int == expected
    ensures HasKey(q2, SeqKey, msg.seqNum as int)
    ensures forall x :: x in q0 ==> x in q2 || r == Delivered(x)
    ensures forall x :: x in q2 && x !in q0 ==> x.seqNum as int > expected
  {
    var i :| 0 <= i < |q1| && SeqKey(q1[i]) == msg.seqNum as int;
    var held := q1[i];
    assert held in q2;
    var j :| 0 <= j < |q2| && q2[j] == held;
    forall x | x in q2 && x !in q0
      ensures x.seqNum as int > expected
    {
      if x in q1 {
        assert x == msg;
      }
    }
  }

  /** After emplace the queue holds an element with the new element's key. */
  lemma InsertHasKey<T(!new)>(q: seq<T>, m: T, key: T -> int)
    requires SortedBy(q, key)
    ensures HasKey(Insert(q, m, key), key, key(m))
  {
    var r := Insert(q, m, key);
    if HasKey(q, key, key(m)) {
      var i :| 0 <= i < |q| && key(q[i]) == key(m);
      assert q[i] in r;
      var j :| 0 <= j < |r| && r[j] == q[i];
    } else {
      assert m in r;
      var j :| 0 <= j < |r| && r[j] == m;
    }
  }

  class Client {
    /** mSeqNo: the number the next reliable frame takes. */
    var seqNo: U32
    /** mExpectedSeq: the number of the next reliable message to deliver. */
    var expectedSeq: U32
    /** mClientId */
    var clientId: bv32
    /** mQueuedSeqs */
    var queued: seq<Message>
    /** The datagrams waiting on the socket. */
    var inbox: seq<Bytes>
    /** The datagrams sent, oldest first. */
    var sent: seq<Bytes>

    /** The queue is ordered by sequence number and holds only reliable
        messages; every queued payload and pending datagram fits a size_t
        length. */
    predicate Valid()
      reads this
    {
      SortedBy(queued, SeqKey)
      && (forall x :: x in queued ==> x.Reliable() && |x.data| < SizeMod)
      && forall i :: 0 <= i < |inbox| ==> |inbox[i]| < SizeMod
    }

    /** netclient(hostname, port): the socket is the given datagrams, and
        reset() draws the client id, given here. */
    constructor (id: bv32, datagrams: seq<Bytes>)
      requires forall i :: 0 <= i < |datagrams| ==> |datagrams[i]| < SizeMod
      ensures Valid()
      ensures seqNo == 1 && expectedSeq == 1 && clientId == id && queued == []
      ensures inbox == datagrams && sent == []
    {
      seqNo := 1;
      expectedSeq := 1;
      clientId := id;
      queued := [];
      inbox := datagrams;
      sent := [];
    }

    /** reset(): a new client id and both counters back to 1, queue emptied. */
    method Reset(id: bv32)
      requires Valid()
      modifies this
      ensures Valid()
      ensures clientId == id && seqNo == 1 && expectedSeq == 1 && queued == []
      ensures inbox == old(inbox) && sent == old(sent)
    {
      clientId := id;
      seqNo := 1;
      expectedSeq := 1;
      queued := [];
    }

    /** newframe(seq, flags) */
    method NewFrame(seqWord: bv32, flags: bv8) returns (frame: Packet)
      ensures fresh(frame) && frame.data == Frame(seqWord, flags, clientId) && frame.readIdx == 0
    {
      frame := new Packet();
      frame.WriteDword(seqWord);
      frame.WriteByte(FlagUnk | flags);
      frame.WriteWord((clientId & 0xFFFF) as bv16);
    }

    /** send(pkt) */
    method Send(pkt: Packet)
      modifies this
      ensures sent == old(sent) + [pkt.data]
      ensures seqNo == old(seqNo) && expectedSeq == old(expectedSeq) && clientId == old(clientId)
      ensures queued == old(queued) && inbox == old(inbox)
    {
      sent := sent + [pkt.data];
    }

    /** sendunreliable(cmdid, data) */
    method SendUnreliable(cmd: bv8, payload: Bytes)
      modifies this
      ensures sent == old(sent) + [Frame(SeqUnreliable, 0, clientId) + [cmd] + payload]
      ensures seqNo == old(seqNo) && expectedSeq == old(expectedSeq) && clientId == old(clientId)
      ensures queued == old(queued) && inbox == old(inbox)
    {
      var pkt := NewFrame(SeqUnreliable, 0);
      pkt.WriteByte(cmd);
      pkt.Write(payload);
      Send(pkt);
    }

    /** sendreliable(cmdid, data): the frame takes the current counter,
        which then moves on by one. */
    method SendReliable(cmd: bv8, payload: Bytes)
      modifies this
      ensures sent == old(sent) + [Frame(old(seqNo) as bv32, FlagReliable, clientId) + [cmd] + payload]
      ensures seqNo == Next32(old(seqNo))
      ensures expectedSeq == old(expectedSeq) && clientId == old(clientId)
      ensures queued == old(queued) && inbox == old(inbox)
    {
      var pkt := NewFrame(seqNo as bv32, FlagReliable);
      seqNo := Next32(seqNo);
      pkt.WriteByte(cmd);
      pkt.Write(payload);
      Send(pkt);
    }

    /** sendreliable(cmdid): a command without data. */
    method SendReliableCmd(cmd: bv8)
      modifies this
      ensures sent == old(sent) + [Frame(old(seqNo) as bv32, FlagReliable, clientId) + [cmd]]
      ensures seqNo == Next32(old(seqNo))
      ensures expectedSeq == old(expectedSeq) && clientId == old(clientId)
      ensures queued == old(queued) && inbox == old(inbox)
    {
      var pkt := NewFrame(seqNo as bv32, FlagReliable);
      seqNo := Next32(seqNo);
      pkt.WriteByte(cmd);
      Send(pkt);
    }

    /** sendack(seqno) */
    method SendAck(acked: bv32)
      modifies this
      ensures sent == old(sent) + [AckFrame(clientId, acked)]
      ensures seqNo == old(seqNo) && expectedSeq == old(expectedSeq) && clientId == old(clientId)
      ensures queued == old(queued) && inbox == old(inbox)
    {
      var pkt := NewFrame(SeqUnreliable, FlagAck);
      pkt.WriteDword(acked);
      Send(pkt);
    }

    /** readmsg(result). A queued message that is due is delivered first,
        without touching the socket. Otherwise datagrams are received one by
        one: each reliable one is acked; a reliable one that is due is
        delivered and moves the expected number on; an early one is queued
        and a late one dropped; an ack is dropped; anything else is
        delivered as it is. After a dropped or queued datagram the next
        pending one is read, if any. */
    method ReadMsg() returns (r: ReadResult)
      requires Valid()
      modifies this
      decreases |inbox|, 1
      ensures Valid()
      ensures seqNo == old(seqNo) && clientId == old(clientId)
      ensures |inbox| <= old(|inbox|) && inbox == old(inbox)[old(|inbox|) - |inbox|..]
      ensures sent == old(sent) + AcksOf(clientId, old(inbox)[..old(|inbox|) - |inbox|])
      ensures r.Delivered? && r.msg.Reliable() ==> r.msg.seqNum as int == old(expectedSeq) && expectedSeq == Next32(old(expectedSeq))
      ensures !(r.Delivered? && r.msg.Reliable()) ==> expectedSeq == old(expectedSeq)
      ensures r.Delivered? ==> r.msg.Reliable() || !r.msg.Ack()
      ensures r.Delivered? ==> |r.msg.data| < SizeMod
      ensures old(queued) != [] && old(queued)[0].seqNum as int == old(expectedSeq) ==>
                r == Delivered(old(queued)[0]) && inbox == old(inbox)
      ensures !(old(queued) != [] && old(queued)[0].seqNum as int == old(expectedSeq)) ==>
                (old(inbox) == [] ==> r == NoMessage) &&
                (old(inbox) != [] && Decode(old(inbox)[0]).Some? ==>
                   Handled(Decode(old(inbox)[0]).value, old(expectedSeq), r, queued))
      ensures forall x :: x in old(queued) ==> x in queued || r == Delivered(x)
      ensures forall x :: x in queued && x !in old(queued) ==> x.seqNum as int > old(expectedSeq)
    {
      if queued != [] && queued[0].seqNum as int == expectedSeq {
        r := Delivered(queued[0]);
        queued := queued[1..];
        expectedSeq := Next32(expectedSeq);
        return;
      }
      if inbox == [] {
        assert old(inbox)[..0] == [];
        return NoMessage;
      }
      r := Receive();
    }

    /** recv into a packet, then parse it. */
    static method ParseDatagram(datagram: Bytes) returns (m: Option<Message>)
      requires |datagram| < SizeMod
      ensures m == Decode(datagram)
    {
      var pkt := new Packet.FromBytes(datagram);
      m := Parse(pkt);
    }

    /** The body of readmsg past the queue: one datagram is received and
        handled, and after one that is not delivered the next is read. */
    method Receive() returns (r: ReadResult)
      requires Valid() && inbox != []
      modifies this
      decreases |inbox|, 0
      ensures Valid()
      ensures seqNo == old(seqNo) && clientId == old(clientId)
      ensures |inbox| < old(|inbox|) && inbox == old(inbox)[old(|inbox|) - |inbox|..]
      ensures sent == old(sent) + AcksOf(clientId, old(inbox)[..old(|inbox|) - |inbox|])
      ensures r.Delivered? && r.msg.Reliable() ==> r.msg.seqNum as int == old(expectedSeq) && expectedSeq == Next32(old(expectedSeq))
      ensures !(r.Delivered? && r.msg.Reliable()) ==> expectedSeq == old(expectedSeq)
      ensures r.Delivered? ==> r.msg.Reliable() || !r.msg.Ack()
      ensures r.Delivered? ==> |r.msg.data| < SizeMod
      ensures Decode(old(inbox)[0]).Some? ==> Handled(Decode(old(inbox)[0]).value, old(expectedSeq), r, queued)
      ensures forall x :: x in old(queued) ==> x in queued || r == Delivered(x)
      ensures forall x :: x in queued && x !in old(queued) ==> x.seqNum as int > old(expectedSeq)
    {
      ghost var frames := inbox;
      var datagram := inbox[0];
      inbox := inbox[1..];
      r := Handle(datagram);
      PopThenRead(clientId, frames, inbox, old(sent), sent);
    }

    /** One received datagram: an empty one is nothing to deliver, one too
        short for a header is malformed, and a frame is dispatched. */
    method Handle(datagram: Bytes) returns (r: ReadResult)
      requires Valid() && |datagram| < SizeMod
      modifies this
      decreases |inbox|, 7
      ensures Valid()
      ensures seqNo == old(seqNo) && clientId == old(clientId)
      ensures |inbox| <= old(|inbox|) && inbox == old(inbox)[old(|inbox|) - |inbox|..]
      ensures sent == old(sent) + AckOf(clientId, datagram) + AcksOf(clientId, old(inbox)[..old(|inbox|) - |inbox|])
      ensures r.Delivered? && r.msg.Reliable() ==> r.msg.seqNum as int == old(expectedSeq) && expectedSeq == Next32(old(expectedSeq))
      ensures !(r.Delivered? && r.msg.Reliable()) ==> expectedSeq == old(expectedSeq)
      ensures r.Delivered? ==> r.msg.Reliable() || !r.msg.Ack()
      ensures r.Delivered? ==> |r.msg.data| < SizeMod
      ensures Decode(datagram).Some? ==> Handled(Decode(datagram).value, old(expectedSeq), r, queued)
      ensures forall x :: x in old(queued) ==> x in queued || r == Delivered(x)
      ensures forall x :: x in queued && x !in old(queued) ==> x.seqNum as int > old(expectedSeq)
    {
      assert old(inbox)[..0] == [];
      if |datagram| == 0 {
        return NoMessage;
      }
      var m := ParseDatagram(datagram);
      if m.None? {
        return Malformed;
      }
      AckOfDecode(clientId, datagram);
      r := Dispatch(m.value);
    }

    /** The handling of one parsed message: a reliable one is acked, then
        delivered when due, queued when early and dropped when late; an ack
        is dropped; any other message is delivered. After a message that is
        not delivered the next datagram is read. */
    method Dispatch(msg: Message) returns (r: ReadResult)
      requires Valid() && |msg.data| < SizeMod
      modifies this
      decreases |inbox|, 6
      ensures Valid()
      ensures seqNo == old(seqNo) && clientId == old(clientId)
      ensures |inbox| <= old(|inbox|) && inbox == old(inbox)[old(|inbox|) - |inbox|..]
      ensures sent == old(sent) + AckFor(clientId, msg) + AcksOf(clientId, old(inbox)[..old(|inbox|) - |inbox|])
      ensures r.Delivered? && r.msg.Reliable() ==> r.msg.seqNum as int == old(expectedSeq) && expectedSeq == Next32(old(expectedSeq))
      ensures !(r.Delivered? && r.msg.Reliable()) ==> expectedSeq == old(expectedSeq)
      ensures r.Delivered? ==> r.msg.Reliable() || !r.msg.Ack()
      ensures r.Delivered? ==> |r.msg.data| < SizeMod
      ensures Handled(msg, old(expectedSeq), r, queued)
      ensures forall x :: x in old(queued) ==> x in queued || r == Delivered(x)
      ensures forall x :: x in queued && x !in old(queued) ==> x.seqNum as int > old(expectedSeq)
    {
      if msg.Reliable() {
        r := HandleReliable(msg);
      } else if msg.Ack() {
        r := ReadNext();
      } else {
        assert old(inbox)[..0] == [];
        r := Delivered(msg);
      }
    }

    /** A reliable message: acked, then delivered when it is the expected
        one, queued when it is later and dropped when it is earlier. */
    method HandleReliable(msg: Message) returns (r: ReadResult)
      requires Valid() && msg.Reliable() && |msg.data| < SizeMod
      modifies this
      decreases |inbox|, 5
      ensures Valid()
      ensures seqNo == old(seqNo) && clientId == old(clientId)
      ensures |inbox| <= old(|inbox|) && inbox == old(inbox)[old(|inbox|) - |inbox|..]
      ensures sent == old(sent) + AckFor(clientId, msg) + AcksOf(clientId, old(inbox)[..old(|inbox|) - |inbox|])
      ensures r.Delivered? && r.msg.Reliable() ==> r.msg.seqNum as int == old(expectedSeq) && expectedSeq == Next32(old(expectedSeq))
      ensures !(r.Delivered? && r.msg.Reliable()) ==> expectedSeq == old(expectedSeq)
      ensures r.Delivered? ==> r.msg.Reliable() || !r.msg.Ack()
      ensures r.Delivered? ==> |r.msg.data| < SizeMod
      ensures Handled(msg, old(expectedSeq), r, queued)
      ensures forall x :: x in old(queued) ==> x in queued || r == Delivered(x)
      ensures forall x :: x in queued && x !in old(queued) ==> x.seqNum as int > old(expectedSeq)
    {
      SendAck(msg.seqNum);
      if msg.seqNum as int == expectedSeq {
        expectedSeq := Next32(expectedSeq);
        assert old(inbox)[..0] == [];
        return Delivered(msg);
      }
      r := HoldOrDrop(msg);
    }

    /** A reliable message that is not due, once acked: queued when it is
        later and dropped when it is earlier; then the next datagram is
        read. */
    method HoldOrDrop(msg: Message) returns (r: ReadResult)
      requires Valid() && msg.Reliable() && |msg.data| < SizeMod && msg.seqNum as int != expectedSeq
      modifies this
      decreases |inbox|, 4
      ensures Valid()
      ensures seqNo == old(seqNo) && clientId == old(clientId)
      ensures |inbox| <= old(|inbox|) && inbox == old(inbox)[old(|inbox|) - |inbox|..]
      ensures sent == old(sent) + AcksOf(clientId, old(inbox)[..old(|inbox|) - |inbox|])
      ensures r.Delivered? && r.msg.Reliable() ==> r.msg.seqNum as int == old(expectedSeq) && expectedSeq == Next32(old(expectedSeq))
      ensures !(r.Delivered? && r.msg.Reliable()) ==> expectedSeq == old(expectedSeq)
      ensures r.Delivered? ==> r.msg.Reliable() || !r.msg.Ack()
      ensures r.Delivered? ==> |r.msg.data| < SizeMod
      ensures msg.seqNum as int > old(expectedSeq) ==> HasKey(queued, SeqKey, msg.seqNum as int)
      ensures forall x :: x in old(queued) ==> x in queued || r == Delivered(x)
      ensures forall x :: x in queued && x !in old(queued) ==> x.seqNum as int > old(expectedSeq)
    {
      if msg.seqNum as int > expectedSeq {
        r := HoldThenReadOn(msg);
      } else {
        r := ReadNext();
      }
    }

    /** A reliable message later than the expected one, once acked: queued,
        then the next datagram is read. */
    method HoldThenReadOn(msg: Message) returns (r: ReadResult)
      requires Valid() && msg.Reliable() && |msg.data| < SizeMod && msg.seqNum as int > expectedSeq
      modifies this
      decreases |inbox|, 3
      ensures Valid()
      ensures seqNo == old(seqNo) && clientId == old(clientId)
      ensures |inbox| <= old(|inbox|) && inbox == old(inbox)[old(|inbox|) - |inbox|..]
      ensures sent == old(sent) + AcksOf(clientId, old(inbox)[..old(|inbox|) - |inbox|])
      ensures r.Delivered? && r.msg.Reliable() ==> r.msg.seqNum as int == old(expectedSeq) && expectedSeq == Next32(old(expectedSeq))
      ensures !(r.Delivered? && r.msg.Reliable()) ==> expectedSeq == old(expectedSeq)
      ensures r.Delivered? ==> r.msg.Reliable() || !r.msg.Ack()
      ensures r.Delivered? ==> |r.msg.data| < SizeMod
      ensures HasKey(queued, SeqKey, msg.seqNum as int)
      ensures forall x :: x in old(queued) ==> x in queued || r == Delivered(x)
      ensures forall x :: x in queued && x !in old(queued) ==> x.seqNum as int > old(expectedSeq)
    {
      ghost var q0 := queued;
      Hold(msg);
      ghost var q1 := queued;
      r := ReadNext();
      HeldAfterReading(q0, q1, queued, msg, r, old(expectedSeq));
    }

    /** mQueuedSeqs.emplace(msg) for a message later than the expected one. */
    method Hold(msg: Message)
      requires Valid() && msg.Reliable() && |msg.data| < SizeMod && msg.seqNum as int > expectedSeq
      modifies this
      ensures Valid() && queued == Insert(old(queued), msg, SeqKey)
      ensures HasKey(queued, SeqKey, msg.seqNum as int)
      ensures forall x :: x in old(queued) ==> x in queued
      ensures forall x :: x in queued && x !in old(queued) ==> x == msg
      ensures seqNo == old(seqNo) && expectedSeq == old(expectedSeq) && clientId == old(clientId)
      ensures inbox == old(inbox) && sent == old(sent)
    {
      InsertHasKey(queued, msg, SeqKey);
      queued := Insert(queued, msg, SeqKey);
    }

    /** `isreadpending() ? readmsg(result) : false` after a datagram that
        was not delivered. */
    method ReadNext() returns (r: ReadResult)
      requires Valid()
      modifies this
      decreases |inbox|, 2
      ensures Valid()
      ensures seqNo == old(seqNo) && clientId == old(clientId)
      ensures |inbox| <= old(|inbox|) && inbox == old(inbox)[old(|inbox|) - |inbox|..]
      ensures sent == old(sent) + AcksOf(clientId, old(inbox)[..old(|inbox|) - |inbox|])
      ensures r.Delivered? && r.msg.Reliable() ==> r.msg.seqNum as int == old(expectedSeq) && expectedSeq == Next32(old(expectedSeq))
      ensures !(r.Delivered? && r.msg.Reliable()) ==> expectedSeq == old(expectedSeq)
      ensures r.Delivered? ==> r.msg.Reliable() || !r.msg.Ack()
      ensures r.Delivered? ==> |r.msg.data| < SizeMod
      ensures old(inbox) == [] ==> r == NoMessage
      ensures old(inbox) != [] && old(queued) != [] && old(queued)[0].seqNum as int == old(expectedSeq) ==>
                r == Delivered(old(queued)[0])
      ensures !(old(queued) != [] && old(queued)[0].seqNum as int == old(expectedSeq)) &&
              old(inbox) != [] && Decode(old(inbox)[0]).Some? ==>
                Handled(Decode(old(inbox)[0]).value, old(expectedSeq), r, queued)
      ensures forall x :: x in old(queued) ==> x in queued || r == Delivered(x)
      ensures forall x :: x in queued && x !in old(queued) ==> x.seqNum as int > old(expectedSeq)
    {
      if inbox == [] {
        assert old(inbox)[..0] == [];
        return NoMessage;
      }
      r := ReadMsg();
    }
  }
}
