/** Transport framing of transport.c: a decrypted packet is
  * [direction][message count] followed by transport messages, each an ACK
  * [0x01][counter][0x00][flags], a reliable message
  * [0x32][totalLen][flags][seqHi][seqLo][payload], or any other type
  * [type][totalLen][payload]. */
module Transport {
  import opened Bytes

  const DirServer := 0x01
  const TypeKeepalive := 0x00
  const TypeAck := 0x01
  const TypeConnectAck := 0x05
  const TypeReliable := 0x32
  /** The size of bc_packet_t's message array. */
  const MaxMsgs := 32

  /** A parsed transport message; the payload is the bytes the C points at. */
  datatype Msg = Msg(kind: byte, flags: byte, seqNum: u16, payload: seq<byte>)

  datatype Packet = Packet(direction: byte, msgs: seq<Msg>)

  function Min(a: int, b: int): int
  {
    if a < b then a else b
  }

  /** ms in front of the messages of r, if r has any. */
  function Prepend(ms: seq<Msg>, r: Option<seq<Msg>>): Option<seq<Msg>>
  {
    match r
    case None => None
    case Some(t) => Some(ms + t)
  }

  /** The message at the front of rest, the bytes remaining from the current
    * position, and how many bytes it takes; None when it is truncated or
    * declares a length too short for its header. */
  function ParseOne(rest: seq<byte>): (r: Option<(Msg, nat)>)
    requires |rest| > 0
    ensures r.Some? ==> 0 < r.value.1 <= |rest|
  {
    var kind := rest[0];
    if kind == TypeAck then
      if |rest| < 4 then None
      else Some((Msg(kind, rest[3], rest[1], []), 4))
    else if |rest| < 2 then None
    else
      var total := rest[1];
      if kind == TypeReliable then
        if total < 5 || total > |rest| then None
        else Some((Msg(kind, rest[2], (rest[3] as int) * 0x100 + rest[4], rest[5..total]), total))
      else if total < 2 || total > |rest| then None
      else Some((Msg(kind, 0, 0, rest[2..total]), total))
  }

  /** At most n messages from the front of rest, stopping early when the
    * bytes run out. */
  function ParseFrom(rest: seq<byte>, n: nat): Option<seq<Msg>>
    decreases n
  {
    if n == 0 || rest == [] then Some([])
    else match ParseOne(rest)
      case None => None
      case Some((m, k)) => Prepend([m], ParseFrom(rest[k..], n - 1))
  }

  /** No more messages are read than were asked for, nor than there are
    * bytes left. */
  lemma {:induction false} ParseFromLength(rest: seq<byte>, n: nat)
    ensures ParseFrom(rest, n).Some? ==> |ParseFrom(rest, n).value| <= n && |ParseFrom(rest, n).value| <= |rest|
    decreases n
  {
    if n > 0 && rest != [] && ParseOne(rest).Some? {
      ParseFromLength(rest[ParseOne(rest).value.1..], n - 1);
    }
  }

  /** bc_transport_parse: None when the packet is shorter than its two
    * header bytes or some message is malformed; otherwise the direction and
    * the messages read, at most 32 and at most the declared count. */
  function ParseSpec(data: seq<byte>): (r: Option<Packet>)
    ensures |data| < 2 ==> r.None?
    ensures r.Some? ==> r.value.direction == data[0] && |r.value.msgs| <= Min(data[1], MaxMsgs)
  {
    if |data| < 2 then None
    else if data[1] == 0 then Some(Packet(data[0], []))
    else
      ParseFromLength(data[2..], Min(data[1], MaxMsgs));
      match ParseFrom(data[2..], Min(data[1], MaxMsgs))
      case None => None
      case Some(ms) => Some(Packet(data[0], ms))
  }

  // ---------------------------------------------------------------------
  // The parse loop

  /** The body of one iteration of the parse loop. */
  method ParseMessage(data: seq<byte>, pos: nat, ghost rest: seq<byte>) returns (ok: bool, m: Msg, next: nat)
    requires pos < |data| && rest == data[pos..]
    ensures ok <==> ParseOne(rest).Some?
    ensures ok ==> pos < next <= |data| && ParseOne(rest) == Some((m, next - pos))
  {
    var kind := data[pos];
    m := Msg(kind, 0, 0, []);
    next := pos;
    ok := false;
    if kind == TypeAck {
      if pos + 4 <= |data| {
        m := Msg(kind, data[pos + 3], data[pos + 1], []);
        next := pos + 4;
        ok := true;
      }
    } else if kind == TypeReliable {
      if pos + 2 <= |data| {
        var total := data[pos + 1];
        if total >= 5 && pos + total <= |data| {
          assert rest[5..total] == data[pos + 5..pos + total];
          m := Msg(kind, data[pos + 2], (data[pos + 3] as int) * 0x100 + data[pos + 4], data[pos + 5..pos + total]);
          next := pos + total;
          ok := true;
        }
      }
    } else {
      if pos + 2 <= |data| {
        var total := data[pos + 1];
        if total >= 2 && pos + total <= |data| {
          assert rest[2..total] == data[pos + 2..pos + total];
          m := Msg(kind, 0, 0, data[pos + 2..pos + total]);
          next := pos + total;
          ok := true;
        }
      }
    }
  }

  /** The message loop of bc_transport_parse: up to limit messages read
    * from pos 2 on, stopping early when the packet runs out. */
  method ParseMessages(data: seq<byte>, limit: nat) returns (ok: bool, msgs: seq<Msg>)
    requires 2 <= |data|
    ensures ok <==> ParseFrom(data[2..], limit).Some?
    ensures ok ==> msgs == ParseFrom(data[2..], limit).value
  {
    var pos := 2;
    var count := 0;
    msgs := [];
    ok := true;
    ghost var whole := ParseFrom(data[2..], limit);
    PrependNil(whole);
    ghost var rest := data[2..];
    ghost var left: nat := limit;
    while count < limit && pos < |data|
      invariant 0 <= count <= limit && 2 <= pos <= |data| && |msgs| == count
      invariant rest == data[pos..] && left == limit - count
      invariant Prepend(msgs, ParseFrom(rest, left)) == whole
      decreases |data| - pos
    {
      var good, m, next := ParseMessage(data, pos, rest);
      if !good {
        ParseStep(rest, left);
        ok := false;
        return;
      }
      ghost var rest0, left0, msgs0, k := rest, left, msgs, next - pos;
      DropDrop(data, pos, next);
      msgs := msgs + [m];
      rest := rest[next - pos..];
      left := left - 1;
      pos := next;
      count := count + 1;
      ParseAdvance(rest0, left0, msgs0, m, k, whole, rest, left, msgs);
    }
    ParseDone(rest, left, msgs);
  }

  /** One iteration of the message loop: the messages read so far and the
    * ones still to come keep adding up to the whole parse. */
  lemma ParseAdvance(rest: seq<byte>, n: nat, msgs: seq<Msg>, m: Msg, k: nat, whole: Option<seq<Msg>>,
                     rest': seq<byte>, n': nat, msgs': seq<Msg>)
    requires rest != [] && n > 0
    requires ParseOne(rest) == Some((m, k))
    requires Prepend(msgs, ParseFrom(rest, n)) == whole
    requires rest' == rest[k..] && n' == n - 1 && msgs' == msgs + [m]
    ensures Prepend(msgs', ParseFrom(rest', n')) == whole
  {
    ParseStep(rest, n);
    PrependAppend(msgs, [m], ParseFrom(rest[k..], n - 1));
  }

  lemma DropDrop(data: seq<byte>, pos: nat, next: nat)
    requires pos <= next <= |data|
    ensures data[pos..][next - pos..] == data[next..]
  {
  }

  /** The message loop stops with nothing more to read. */
  lemma ParseDone(rest: seq<byte>, n: nat, msgs: seq<Msg>)
    requires n == 0 || rest == []
    ensures Prepend(msgs, ParseFrom(rest, n)) == Some(msgs)
  {
    assert msgs + [] == msgs;
  }

  /** One step of ParseFrom on non-empty bytes with room for a message. */
  lemma ParseStep(rest: seq<byte>, n: nat)
    requires rest != [] && n > 0
    ensures ParseOne(rest).None? ==> ParseFrom(rest, n).None?
    ensures ParseOne(rest).Some? ==>
      ParseFrom(rest, n) == Prepend([ParseOne(rest).value.0], ParseFrom(rest[ParseOne(rest).value.1..], n - 1))
  {
  }

  /** bc_transport_parse. */
  method Parse(data: seq<byte>) returns (ok: bool, pkt: Packet)
    ensures ok <==> ParseSpec(data).Some?
    ensures ok ==> pkt == ParseSpec(data).value
  {
    pkt := Packet(0, []);
    ok := false;
    if |data| >= 2 {
      ok := true;
      pkt := Packet(data[0], []);
      if data[1] != 0 {
        var msgs;
        ok, msgs := ParseMessages(data, Min(data[1], MaxMsgs));
        if ok {
          pkt := Packet(data[0], msgs);
        }
      }
    }
  }

  lemma PrependNil(r: Option<seq<Msg>>)
    ensures Prepend([], r) == r
  {
    if r.Some? {
      assert [] + r.value == r.value;
    }
  }

  lemma PrependAppend(a: seq<Msg>, b: seq<Msg>, r: Option<seq<Msg>>)
    ensures Prepend(a, Prepend(b, r)) == Prepend(a + b, r)
  {
    if r.Some? {
      assert a + (b + r.value) == (a + b) + r.value;
    }
  }

  // ---------------------------------------------------------------------
  // Encoding messages

  /** Whether a message can be written on the wire and read back unchanged:
    * an ACK counter fits its byte and carries no payload, a reliable
    * message's length fits its byte, and any other type has no flags, no
    * sequence number and a length that fits. */
  predicate WellFormed(m: Msg)
  {
    if m.kind == TypeAck then m.seqNum < 0x100 && m.payload == []
    else if m.kind == TypeReliable then 5 + |m.payload| <= 0xFF
    else m.flags == 0 && m.seqNum == 0 && 2 + |m.payload| <= 0xFF
  }

  /** The wire form of a message. */
  function Encode(m: Msg): (e: seq<byte>)
    requires WellFormed(m)
    ensures |e| >= 2
  {
    if m.kind == TypeAck then [TypeAck, m.seqNum, 0, m.flags]
    else if m.kind == TypeReliable then
      [TypeReliable, 5 + |m.payload|, m.flags, m.seqNum / 0x100, m.seqNum % 0x100] + m.payload
    else [m.kind, 2 + |m.payload|] + m.payload
  }

  predicate AllWellFormed(ms: seq<Msg>)
  {
    ms == [] || (WellFormed(ms[0]) && AllWellFormed(ms[1..]))
  }

  /** The wire form of a message sequence. */
  function EncodeAll(ms: seq<Msg>): (e: seq<byte>)
    requires AllWellFormed(ms)
    ensures |e| >= 2 * |ms|
  {
    if ms == [] then [] else Encode(ms[0]) + EncodeAll(ms[1..])
  }

  lemma EncodeAllSnoc(ms: seq<Msg>, m: Msg)
    requires AllWellFormed(ms) && WellFormed(m)
    ensures AllWellFormed(ms + [m])
    ensures EncodeAll(ms + [m]) == EncodeAll(ms) + Encode(m)
  {
    if ms != [] {
      assert (ms + [m])[1..] == ms[1..] + [m];
      EncodeAllSnoc(ms[1..], m);
    }
  }

  /** A well-formed message is read back from the front of its encoding
    * followed by anything, and takes exactly its encoding's length. */
  lemma ParseOneEncode(m: Msg, tail: seq<byte>)
    requires WellFormed(m)
    ensures ParseOne(Encode(m) + tail) == Some((m, |Encode(m)|))
  {
    var e := Encode(m);
    var rest := e + tail;
    assert rest[0] == e[0] && rest[1] == e[1];
    if m.kind == TypeAck {
      assert rest[3] == e[3];
    } else if m.kind == TypeReliable {
      assert rest[2] == e[2] && rest[3] == e[3] && rest[4] == e[4];
      assert rest[5..|e|] == e[5..];
    } else {
      assert rest[2..|e|] == e[2..];
    }
  }

  /** Taking k + 1 messages is the first one followed by k of the rest. */
  lemma TakeCons(ms: seq<Msg>, n: nat)
    requires ms != [] && n > 0
    ensures [ms[0]] + ms[1..][..Min(n - 1, |ms| - 1)] == ms[..Min(n, |ms|)]
  {
  }

  /** Encoded well-formed messages are read back, as many of them as the
    * limit allows. */
  lemma {:induction false} ParseFromEncodeAll(ms: seq<Msg>, n: nat)
    requires AllWellFormed(ms)
    ensures ParseFrom(EncodeAll(ms), n) == Some(ms[..Min(n, |ms|)])
    decreases n
  {
    if n == 0 || ms == [] {
      assert ms[..Min(n, |ms|)] == [];
    } else {
      var e := Encode(ms[0]);
      var tail := EncodeAll(ms[1..]);
      ParseOneEncode(ms[0], tail);
      assert (e + tail)[|e|..] == tail;
      ParseFromEncodeAll(ms[1..], n - 1);
      TakeCons(ms, n);
    }
  }

  /** A packet of well-formed messages with their count in the header
    * parses back to those messages, up to the parser's limit of 32. */
  lemma PacketRoundTrip(direction: byte, ms: seq<Msg>)
    requires AllWellFormed(ms) && 0 < |ms| < 0x100
    ensures ParseSpec([direction, |ms|] + EncodeAll(ms)) == Some(Packet(direction, ms[..Min(|ms|, MaxMsgs)]))
  {
    var data := [direction, |ms|] + EncodeAll(ms);
    assert data[2..] == EncodeAll(ms);
    ParseFromEncodeAll(ms, Min(|ms|, MaxMsgs));
    assert Min(Min(|ms|, MaxMsgs), |ms|) == Min(|ms|, MaxMsgs);
  }

  // ---------------------------------------------------------------------
  // Single-message packet builders

  /** Copies src into out at index at (memcpy). */
  method CopyIn(out: array<byte>, at: nat, src: seq<byte>)
    requires at + |src| <= out.Length
    modifies out
    ensures out[..] == old(out[..])[..at] + src + old(out[..])[at + |src|..]
  {
    var i := 0;
    while i < |src|
      invariant 0 <= i <= |src|
      invariant out[..] == old(out[..])[..at] + src[..i] + old(out[..])[at + i..]
    {
      out[at + i] := src[i];
      assert src[..i + 1] == src[..i] + [src[i]];
      i := i + 1;
    }
  }

  /** The packet bc_transport_build_unreliable writes. The length byte is
    * 2 + |payload| truncated to 8 bits. */
  function UnreliableBytes(payload: seq<byte>): seq<byte>
  {
    [DirServer, 1, TypeKeepalive, (2 + |payload|) % 0x100] + payload
  }

  /** bc_transport_build_unreliable. */
  method BuildUnreliable(out: array<byte>, outSize: int, payload: seq<byte>) returns (n: int)
    requires outSize <= out.Length
    modifies out
    ensures n == -1 <==> 4 + |payload| > outSize
    ensures n == -1 ==> out[..] == old(out[..])
    ensures n != -1 ==> n == 4 + |payload| && out[..] == UnreliableBytes(payload) + old(out[..])[n..]
  {
    n := 4 + |payload|;
    if n > outSize {
      n := -1;
    } else {
      out[0] := DirServer;
      out[1] := 1;
      out[2] := TypeKeepalive;
      out[3] := (2 + |payload|) % 0x100;
      ghost var head := out[..];
      CopyIn(out, 4, payload);
      assert out[..] == head[..4] + payload + head[n..];
    }
  }

  /** The unreliable builder with the length check the outbox applies: -1
    * when the message length does not fit its byte. */
  method BuildUnreliableChecked(out: array<byte>, outSize: int, payload: seq<byte>) returns (n: int)
    requires outSize <= out.Length
    modifies out
    ensures n == -1 <==> 4 + |payload| > outSize || 2 + |payload| > 0xFF
    ensures n == -1 ==> out[..] == old(out[..])
    ensures n != -1 ==> n == 4 + |payload| && out[..] == UnreliableBytes(payload) + old(out[..])[n..]
  {
    if 2 + |payload| > 0xFF {
      n := -1;
    } else {
      n := BuildUnreliable(out, outSize, payload);
    }
  }

  /** What fits in the unreliable length byte is read back as one message
    * of type 0x00 carrying the payload. */
  lemma UnreliableRoundTrip(payload: seq<byte>)
    requires 2 + |payload| <= 0xFF
    ensures ParseSpec(UnreliableBytes(payload)) == Some(Packet(DirServer, [Msg(TypeKeepalive, 0, 0, payload)]))
  {
    var m := Msg(TypeKeepalive, 0, 0, payload);
    assert EncodeAll([m]) == Encode(m);
    assert [m][..Min(|[m]|, MaxMsgs)] == [m];
    assert UnreliableBytes(payload) == [DirServer, |[m]|] + EncodeAll([m]);
    PacketRoundTrip(DirServer, [m]);
  }

  /** Without the check, a 254-byte payload gets the length byte 0, and the
    * packet no longer parses. */
  lemma UnreliableOverflow()
    ensures UnreliableBytes(seq(254, _ => 0))[3] == 0
    ensures ParseSpec(UnreliableBytes(seq(254, _ => 0))).None?
  {
    var data := UnreliableBytes(seq(254, _ => 0));
    assert data[3] == 0;
    assert ParseOne(data[2..]).None?;
  }

  /** The packet bc_transport_build_reliable writes: the low byte of seq as
    * the high sequence byte and 0 as the low one. */
  function ReliableBytes(payload: seq<byte>, s: u16): seq<byte>
    requires 5 + |payload| <= 0xFF
  {
    [DirServer, 1, TypeReliable, 5 + |payload|, 0x80, s % 0x100, 0] + payload
  }

  /** bc_transport_build_reliable. */
  method BuildReliable(out: array<byte>, outSize: int, payload: seq<byte>, s: u16) returns (n: int)
    requires outSize <= out.Length
    modifies out
    ensures n == -1 <==> 7 + |payload| > outSize || 5 + |payload| > 0xFF
    ensures n == -1 ==> out[..] == old(out[..])
    ensures n != -1 ==> n == 7 + |payload| && out[..] == ReliableBytes(payload, s) + old(out[..])[n..]
  {
    n := 7 + |payload|;
    if n > outSize || 5 + |payload| > 0xFF {
      n := -1;
    } else {
      out[0] := DirServer;
      out[1] := 1;
      out[2] := TypeReliable;
      out[3] := 5 + |payload|;
      out[4] := 0x80;
      out[5] := s % 0x100;
      out[6] := 0;
      ghost var head := out[..];
      CopyIn(out, 7, payload);
      assert out[..] == head[..7] + payload + head[n..];
    }
  }

  /** The reliable message reads back with sequence number (seq & 0xFF) << 8,
    * flags 0x80 and the payload. */
  lemma ReliableRoundTrip(payload: seq<byte>, s: u16)
    requires 5 + |payload| <= 0xFF
    ensures ParseSpec(ReliableBytes(payload, s))
         == Some(Packet(DirServer, [Msg(TypeReliable, 0x80, (s % 0x100) * 0x100, payload)]))
  {
    var m := Msg(TypeReliable, 0x80, (s % 0x100) * 0x100, payload);
    assert EncodeAll([m]) == Encode(m);
    assert [m][..Min(|[m]|, MaxMsgs)] == [m];
    assert ReliableBytes(payload, s) == [DirServer, |[m]|] + EncodeAll([m]);
    PacketRoundTrip(DirServer, [m]);
  }

  /** The packet bc_transport_build_ack writes: the counter is the high byte
    * of the received sequence number. */
  function AckBytes(s: u16, flags: u8): seq<byte>
  {
    [DirServer, 1, TypeAck, s / 0x100, 0, flags]
  }

  /** bc_transport_build_ack. */
  method BuildAck(out: array<byte>, outSize: int, s: u16, flags: u8) returns (n: int)
    requires outSize <= out.Length
    modifies out
    ensures n == -1 <==> outSize < 6
    ensures n == -1 ==> out[..] == old(out[..])
    ensures n != -1 ==> n == 6 && out[..] == AckBytes(s, flags) + old(out[..])[6..]
  {
    if outSize < 6 {
      n := -1;
    } else {
      out[0] := DirServer;
      out[1] := 1;
      out[2] := TypeAck;
      out[3] := s / 0x100;
      out[4] := 0;
      out[5] := flags;
      n := 6;
    }
  }

  /** The ACK reads back as one ACK message with the counter and flags. */
  lemma AckRoundTrip(s: u16, flags: u8)
    ensures ParseSpec(AckBytes(s, flags)) == Some(Packet(DirServer, [Msg(TypeAck, flags, s / 0x100, [])]))
  {
    var m := Msg(TypeAck, flags, s / 0x100, []);
    assert EncodeAll([m]) == Encode(m);
    assert [m][..Min(|[m]|, MaxMsgs)] == [m];
    assert AckBytes(s, flags) == [DirServer, |[m]|] + EncodeAll([m]);
    PacketRoundTrip(DirServer, [m]);
  }

  /** Acknowledging a reliable message built with counter seq echoes
    * seq & 0xFF in the ACK's counter byte. */
  lemma ReliableThenAck(payload: seq<byte>, s: u16, flags: u8)
    requires 5 + |payload| <= 0xFF
    ensures var received := ParseSpec(ReliableBytes(payload, s)).value.msgs[0].seqNum;
      AckBytes(received, flags)[3] == s % 0x100
  {
    ReliableRoundTrip(payload, s);
  }

  /** The packet bc_transport_build_shutdown_notify writes: a ConnectAck of
    * total length 10 with flags 0xC0, the slot, and the IP as stored. */
  function ShutdownNotifyBytes(slot: u8, ip: u32): seq<byte>
  {
    [DirServer, 1, TypeConnectAck, 0x0A, 0xC0, 0, 0, slot] + LeU32(ip)
  }

  /** bc_transport_build_shutdown_notify. */
  method BuildShutdownNotify(out: array<byte>, outSize: int, slot: u8, ip: u32) returns (n: int)
    requires outSize <= out.Length
    modifies out
    ensures n == -1 <==> outSize < 12
    ensures n == -1 ==> out[..] == old(out[..])
    ensures n != -1 ==> n == 12 && out[..] == ShutdownNotifyBytes(slot, ip) + old(out[..])[12..]
  {
    if outSize < 12 {
      n := -1;
    } else {
      out[0] := DirServer;
      out[1] := 1;
      out[2] := TypeConnectAck;
      out[3] := 0x0A;
      out[4] := 0xC0;
      out[5] := 0;
      out[6] := 0;
      out[7] := slot;
      out[8] := ip % 0x100;
      out[9] := ip / 0x100 % 0x100;
      out[10] := ip / 0x1_0000 % 0x100;
      out[11] := ip / 0x100_0000 % 0x100;
      LeU32Bytes(ip);
      n := 12;
    }
  }

  /** The shutdown notice reads back as one generic message of type 0x05
    * whose eight payload bytes are the flags, two pads, the slot and the IP. */
  lemma ShutdownNotifyParses(slot: u8, ip: u32)
    ensures ParseSpec(ShutdownNotifyBytes(slot, ip))
         == Some(Packet(DirServer, [Msg(TypeConnectAck, 0, 0, [0xC0, 0, 0, slot] + LeU32(ip))]))
  {
    var m := Msg(TypeConnectAck, 0, 0, [0xC0, 0, 0, slot] + LeU32(ip));
    assert EncodeAll([m]) == Encode(m);
    assert [m][..Min(|[m]|, MaxMsgs)] == [m];
    assert ShutdownNotifyBytes(slot, ip) == [DirServer, |[m]|] + EncodeAll([m]);
    PacketRoundTrip(DirServer, [m]);
  }
}
