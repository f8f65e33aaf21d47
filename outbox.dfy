/** The outgoing message batch of transport.c: messages are appended to a
  * 512-byte packet buffer behind a two-byte header, and flushing writes the
  * header and hands the packet over. The ghost list msgs is the sequence of
  * transport messages the buffer holds. */
module Outgoing {
  import opened Bytes
  import opened Transport

  /** BC_MAX_PACKET_SIZE. */
  const MaxPacket := 512

  /** The message bc_outbox_add_unreliable appends: type 0x00 with the payload. */
  function UnreliableMsg(payload: seq<byte>): Msg
  {
    Msg(TypeKeepalive, 0, 0, payload)
  }

  /** The message bc_outbox_add_reliable appends: flags 0x80, the low byte of
    * seq as the high sequence byte and 0 as the low one. */
  function ReliableMsg(payload: seq<byte>, s: u16): Msg
  {
    Msg(TypeReliable, 0x80, (s % 0x100) * 0x100, payload)
  }

  /** The reliable message's sequence number puts seq & 0xFF in the high
    * byte and 0 in the low byte on the wire. */
  lemma ReliableEncoding(payload: seq<byte>, s: u16)
    requires 5 + |payload| <= 0xFF
    ensures WellFormed(ReliableMsg(payload, s))
    ensures Encode(ReliableMsg(payload, s)) == [TypeReliable, 5 + |payload|, 0x80, s % 0x100, 0] + payload
  {
    var hi := s % 0x100;
    assert (hi * 0x100) / 0x100 == hi && (hi * 0x100) % 0x100 == 0;
  }

  /** The message bc_outbox_add_ack appends: the counter is seq >> 8. */
  function AckMsg(s: u16, flags: u8): Msg
  {
    Msg(TypeAck, flags, s / 0x100, [])
  }

  /** The message bc_outbox_add_keepalive appends: type 0x00, no payload. */
  function KeepaliveMsg(): Msg
  {
    Msg(TypeKeepalive, 0, 0, [])
  }

  /** Appending the encoding of m right after the encoded messages ms leaves
    * the encoding of ms + [m] in front. */
  lemma Appended(before: seq<byte>, after: seq<byte>, p: nat, ms: seq<Msg>, m: Msg)
    requires AllWellFormed(ms) && WellFormed(m)
    requires 2 <= p && p + |Encode(m)| <= |before|
    requires before[2..p] == EncodeAll(ms)
    requires after == before[..p] + Encode(m) + before[p + |Encode(m)|..]
    ensures AllWellFormed(ms + [m])
    ensures after[2..p + |Encode(m)|] == EncodeAll(ms + [m])
  {
    EncodeAllSnoc(ms, m);
    SpliceSlice(before, after, p, Encode(m));
  }

  /** Bytes written at p, behind the two header bytes, extend what was
    * before p. */
  lemma SpliceSlice(before: seq<byte>, after: seq<byte>, p: nat, e: seq<byte>)
    requires 2 <= p && p + |e| <= |before|
    requires after == before[..p] + e + before[p + |e|..]
    ensures after[2..p + |e|] == before[2..p] + e
  {
    assert after[2..p + |e|] == (before[..p] + e)[2..];
  }

  /** Writing the two header bytes leaves the messages behind them. */
  lemma WithHeader(before: seq<byte>, after: seq<byte>, p: nat, h: seq<byte>)
    requires |h| == 2 && 2 <= p <= |before|
    requires after == before[..0] + h + before[2..]
    ensures after[..p] == h + before[2..p]
  {
    assert before[..0] + h == h;
  }

  /** Copying x to the front of a buffer leaves x as its prefix. */
  lemma CopiedPrefix(after: seq<byte>, before: seq<byte>, x: seq<byte>)
    requires |x| <= |before|
    requires after == before[..0] + x + before[|x|..]
    ensures after[..|x|] == x && after == x + before[|x|..]
  {
    assert before[..0] + x == x;
  }

  /** A buffer of at most 512 bytes holds at most 255 messages, so the
    * message count always fits the header's count byte. */
  lemma CountFits(ms: seq<Msg>)
    requires AllWellFormed(ms) && 2 + |EncodeAll(ms)| <= MaxPacket
    ensures |ms| < 0x100
  {
  }

  /** The packet a flush of the messages ms produces reads back as those
    * messages, up to the parser's limit of 32. */
  lemma FlushedPacketParses(ms: seq<Msg>)
    requires AllWellFormed(ms) && ms != [] && 2 + |EncodeAll(ms)| <= MaxPacket
    ensures |ms| < 0x100
    ensures ParseSpec([DirServer, |ms|] + EncodeAll(ms)) == Some(Packet(DirServer, ms[..Min(|ms|, MaxMsgs)]))
  {
    CountFits(ms);
    PacketRoundTrip(DirServer, ms);
  }

  /** bc_outbox_t. */
  class Outbox {
    const buf: array<byte>
    var pos: int
    var msgCount: int
    ghost var msgs: seq<Msg>

    ghost predicate Valid()
      reads this, buf
    {
      buf.Length == MaxPacket && 2 <= pos <= MaxPacket &&
      msgCount == |msgs| && AllWellFormed(msgs) && buf[2..pos] == EncodeAll(msgs)
    }

    /** A fresh outbox, as bc_outbox_init leaves one. */
    constructor()
      ensures Valid() && fresh(buf)
      ensures msgs == [] && pos == 2
    {
      buf := new byte[MaxPacket](_ => 0);
      pos := 2;
      msgCount := 0;
      msgs := [];
    }

    /** bc_outbox_init: empties the batch; the buffer bytes stay. */
    method Init()
      requires buf.Length == MaxPacket
      modifies this
      ensures Valid()
      ensures msgs == [] && pos == 2
    {
      pos := 2;
      msgCount := 0;
      msgs := [];
    }

    /** bc_outbox_add_unreliable. */
    method AddUnreliable(payload: seq<byte>) returns (ok: bool)
      requires Valid()
      modifies this, buf
      ensures Valid()
      ensures ok <==> old(pos) + 2 + |payload| <= MaxPacket && 2 + |payload| <= 0xFF
      ensures !ok ==> unchanged(this) && unchanged(buf)
      ensures ok ==> msgs == old(msgs) + [UnreliableMsg(payload)]
      ensures ok ==> pos == old(pos) + |Encode(UnreliableMsg(payload))|
      ensures ok ==> buf[..] == old(buf[..])[..old(pos)] + Encode(UnreliableMsg(payload)) + old(buf[..])[pos..]
    {
      var msgLen := 2 + |payload|;
      if pos + msgLen > MaxPacket {
        return false;
      }
      if msgLen > 0xFF {
        return false;
      }
      ghost var before := buf[..];
      CopyIn(buf, pos, [TypeKeepalive, msgLen] + payload);
      Appended(before, buf[..], pos, msgs, UnreliableMsg(payload));
      pos := pos + msgLen;
      msgCount := msgCount + 1;
      msgs := msgs + [UnreliableMsg(payload)];
      ok := true;
    }

    /** bc_outbox_add_reliable. */
    method AddReliable(payload: seq<byte>, s: u16) returns (ok: bool)
      requires Valid()
      modifies this, buf
      ensures Valid()
      ensures ok <==> old(pos) + 5 + |payload| <= MaxPacket && 5 + |payload| <= 0xFF
      ensures !ok ==> unchanged(this) && unchanged(buf)
      ensures ok ==> msgs == old(msgs) + [ReliableMsg(payload, s)]
      ensures ok ==> pos == old(pos) + |Encode(ReliableMsg(payload, s))|
      ensures ok ==> buf[..] == old(buf[..])[..old(pos)] + Encode(ReliableMsg(payload, s)) + old(buf[..])[pos..]
    {
      var msgLen := 5 + |payload|;
      if pos + msgLen > MaxPacket {
        return false;
      }
      if msgLen > 0xFF {
        return false;
      }
      ghost var m := ReliableMsg(payload, s);
      ReliableEncoding(payload, s);
      ghost var before := buf[..];
      CopyIn(buf, pos, [TypeReliable, msgLen, 0x80, s % 0x100, 0] + payload);
      Appended(before, buf[..], pos, msgs, m);
      pos := pos + msgLen;
      msgCount := msgCount + 1;
      msgs := msgs + [m];
      ok := true;
    }

    /** bc_outbox_add_ack. */
    method AddAck(s: u16, flags: u8) returns (ok: bool)
      requires Valid()
      modifies this, buf
      ensures Valid()
      ensures ok <==> old(pos) + 4 <= MaxPacket
      ensures !ok ==> unchanged(this) && unchanged(buf)
      ensures ok ==> msgs == old(msgs) + [AckMsg(s, flags)]
      ensures ok ==> pos == old(pos) + 4
      ensures ok ==> buf[..] == old(buf[..])[..old(pos)] + Encode(AckMsg(s, flags)) + old(buf[..])[pos..]
    {
      if pos + 4 > MaxPacket {
        return false;
      }
      ghost var before := buf[..];
      CopyIn(buf, pos, [TypeAck, s / 0x100, 0, flags]);
      Appended(before, buf[..], pos, msgs, AckMsg(s, flags));
      pos := pos + 4;
      msgCount := msgCount + 1;
      msgs := msgs + [AckMsg(s, flags)];
      ok := true;
    }

    /** bc_outbox_add_keepalive. */
    method AddKeepalive() returns (ok: bool)
      requires Valid()
      modifies this, buf
      ensures Valid()
      ensures ok <==> old(pos) + 2 <= MaxPacket
      ensures !ok ==> unchanged(this) && unchanged(buf)
      ensures ok ==> msgs == old(msgs) + [KeepaliveMsg()]
      ensures ok ==> pos == old(pos) + 2
      ensures ok ==> buf[..] == old(buf[..])[..old(pos)] + Encode(KeepaliveMsg()) + old(buf[..])[pos..]
    {
      if pos + 2 > MaxPacket {
        return false;
      }
      ghost var before := buf[..];
      CopyIn(buf, pos, [TypeKeepalive, 2]);
      Appended(before, buf[..], pos, msgs, KeepaliveMsg());
      pos := pos + 2;
      msgCount := msgCount + 1;
      msgs := msgs + [KeepaliveMsg()];
      ok := true;
    }

    /** bc_outbox_flush_to_buf: 0 and nothing changed for an empty batch;
      * -1 and an emptied batch when the packet does not fit out_size;
      * otherwise the packet length, with the header and the messages copied
      * to out and the batch emptied. */
    method FlushToBuf(out: array<byte>, outSize: int) returns (n: int)
      requires Valid() && outSize <= out.Length && out != buf
      modifies this, buf, out
      ensures Valid()
      ensures old(msgs) == [] ==> n == 0 && unchanged(this) && unchanged(buf) && unchanged(out)
      ensures old(msgs) != [] && old(pos) > outSize ==> n == -1 && msgs == [] && pos == 2 && unchanged(out)
      ensures old(msgs) != [] && old(pos) <= outSize ==>
        n == old(pos) && msgs == [] && pos == 2 &&
        out[..] == [DirServer, |old(msgs)|] + EncodeAll(old(msgs)) + old(out[..])[n..]
      ensures n > 0 ==> ParseSpec(out[..n]) == Some(Packet(DirServer, old(msgs)[..Min(|old(msgs)|, MaxMsgs)]))
    {
      if msgCount == 0 {
        return 0;
      }
      var pktLen := pos;
      if pktLen > outSize {
        Init();
        return -1;
      }
      CountFits(msgs);
      assert msgCount % 0x100 == msgCount;
      ghost var ms := msgs;
      ghost var pkt := [DirServer, |ms|] + EncodeAll(ms);
      var header: seq<byte> := [DirServer, msgCount % 0x100];
      assert header == [DirServer, |ms|];
      ghost var before := buf[..];
      CopyIn(buf, 0, header);
      WithHeader(before, buf[..], pktLen, header);
      assert buf[..pktLen] == pkt;
      ghost var outBefore := out[..];
      CopyIn(out, 0, buf[..pktLen]);
      CopiedPrefix(out[..], outBefore, pkt);
      FlushedPacketParses(ms);
      Init();
      n := pktLen;
    }

    /** bc_outbox_pending. */
    function Pending(): (p: bool)
      requires Valid()
      reads this, buf
      ensures p <==> msgs != []
    {
      msgCount > 0
    }
  }
}
