/** The client side of the transport (client_transport.c): the connect,
  * keepalive, reliable, unreliable and ACK packet builders, the parse of a
  * checksum request, the file-filter match and the leaf-name rule behind a
  * scanned directory's hash. Each builder is proved against the bytes it
  * writes, and those bytes against what the server's transport parser reads
  * back from them. */
module ClientTransport {
  import opened Bytes
  import opened BufferModel
  import opened BufferLayout
  import opened Reader
  import Arrays
  import Transport
  import Handshake
  import StringHash

  const DirClient: byte := 0x02
  const DirInit: byte := 0xFF
  const TypeKeepalive: byte := 0x00
  const TypeAck: byte := 0x01
  const TypeConnect: byte := 0x03
  const TypeReliable: byte := 0x32
  const OpChecksumReq: byte := 0x20

  /** The direction byte of a client packet: BC_DIR_CLIENT + slot as a u8. */
  function ClientDir(slot: u8): byte
  {
    (DirClient + slot) % 0x100
  }

  // ---------------------------------------------------------------------
  // Connect.

  /** [0xFF][1][0x03][totalLen 8][flags 0x01][3 pad][low two IP bytes]. */
  function ConnectBytes(ip: u32): seq<byte>
  {
    [DirInit, 1, TypeConnect, 8, 0x01, 0, 0, 0, ip % 0x100, ip / 0x100 % 0x100]
  }

  /** bc_client_build_connect. */
  method ConnectBuild(out: array<byte>, outSize: int, ip: u32) returns (n: int)
    requires outSize <= out.Length
    modifies out
    ensures n == -1 <==> outSize < 10
    ensures n == -1 ==> out[..] == old(out[..])
    ensures n != -1 ==> n == 10 && out[..] == ConnectBytes(ip) + old(out[..])[10..]
  {
    if outSize < 10 {
      return -1;
    }
    out[0] := DirInit;
    out[1] := 1;
    out[2] := TypeConnect;
    out[3] := 8;
    out[4] := 0x01;
    out[5] := 0;
    out[6] := 0;
    out[7] := 0;
    out[8] := ip % 0x100;
    out[9] := ip / 0x100 % 0x100;
    n := 10;
  }

  /** The server's transport parser reads a connect packet as one generic
    * message of type 0x03 whose six payload bytes are the flags, the pads
    * and the two IP bytes. */
  lemma ConnectParses(ip: u32)
    ensures Transport.ParseSpec(ConnectBytes(ip)) ==
      Some(Transport.Packet(DirInit, [Transport.Msg(TypeConnect, 0, 0, [0x01, 0, 0, 0, ip % 0x100, ip / 0x100 % 0x100])]))
  {
    var m := Transport.Msg(TypeConnect, 0, 0, [0x01, 0, 0, 0, ip % 0x100, ip / 0x100 % 0x100]);
    assert Transport.EncodeAll([m]) == Transport.Encode(m);
    assert [m][..Transport.Min(|[m]|, Transport.MaxMsgs)] == [m];
    assert ConnectBytes(ip) == [DirInit, |[m]|] + Transport.EncodeAll([m]);
    Transport.PacketRoundTrip(DirInit, [m]);
  }

  // ---------------------------------------------------------------------
  // Keepalive with the player name.

  /** An ASCII name as UTF-16LE: each byte followed by a zero high byte. */
  function Utf16Le(name: seq<byte>): (e: seq<byte>)
    ensures |e| == 2 * |name|
  {
    if name == [] then [] else [name[0], 0] + Utf16Le(name[1..])
  }

  lemma {:induction false} Utf16LeSnoc(name: seq<byte>, c: byte)
    ensures Utf16Le(name + [c]) == Utf16Le(name) + [c, 0]
    decreases |name|
  {
    if name == [] {
      assert Utf16Le([c]) == [c, 0] + Utf16Le([]);
    } else {
      assert (name + [c])[1..] == name[1..] + [c];
      Utf16LeSnoc(name[1..], c);
    }
  }

  /** The name read back from UTF-16LE code units up to the 0x0000
    * terminator; None when the units run out first or one is not ASCII-range
    * (non-zero high byte). */
  function Utf16LeName(e: seq<byte>): Option<seq<byte>>
  {
    if |e| < 2 then None
    else if e[0] == 0 && e[1] == 0 then Some([])
    else if e[1] != 0 then None
    else
      match Utf16LeName(e[2..])
      case None => None
      case Some(rest) => Some([e[0]] + rest)
  }

  predicate NulFree(s: seq<byte>)
  {
    forall i :: 0 <= i < |s| ==> s[i] != 0
  }

  /** A NUL-free name written as UTF-16LE with its terminator reads back,
    * whatever follows the terminator. */
  lemma {:induction false} Utf16LeNameRoundTrip(name: seq<byte>, tail: seq<byte>)
    requires NulFree(name)
    ensures Utf16LeName(Utf16Le(name) + [0, 0] + tail) == Some(name)
    decreases |name|
  {
    var e := Utf16Le(name) + [0, 0] + tail;
    if name == [] {
      assert e[0] == 0 && e[1] == 0;
    } else {
      assert name[0] != 0;
      assert e == [name[0], 0] + (Utf16Le(name[1..]) + [0, 0] + tail);
      assert e[2..] == Utf16Le(name[1..]) + [0, 0] + tail;
      Utf16LeNameRoundTrip(name[1..], tail);
      assert [name[0]] + name[1..] == name;
    }
  }

  /** The message length byte of a keepalive: 12 + 2n. */
  function KeepaliveLen(name: seq<byte>): byte
    requires 12 + 2 * |name| <= 0xFF
  {
    12 + 2 * |name|
  }

  /** The twelve bytes before the name: the client direction, one message
    * of type 0x00 and its length, then [flags 0x80][2 pad][slot][IP LE]. */
  function KeepaliveHead(slot: u8, ip: u32, name: seq<byte>): (h: seq<byte>)
    requires 12 + 2 * |name| <= 0xFF
    ensures |h| == 12
  {
    [ClientDir(slot), 1, TypeKeepalive, KeepaliveLen(name), 0x80, 0, 0, slot] + LeU32(ip)
  }

  /** The keepalive packet: the head, the UTF-16LE name and its 00 00
    * terminator. */
  function KeepaliveBytes(slot: u8, ip: u32, name: seq<byte>): (p: seq<byte>)
    requires 12 + 2 * |name| <= 0xFF
    ensures |p| == 14 + 2 * |name|
  {
    KeepaliveHead(slot, ip, name) + Utf16Le(name) + [0, 0]
  }

  /** The loop of bc_client_build_keepalive_name: each name byte followed by
    * a zero byte, written from offset at. */
  method PutUtf16Le(out: array<byte>, at: nat, name: seq<byte>)
    requires at + 2 * |name| <= out.Length
    modifies out
    ensures out[..] == old(out[..])[..at] + Utf16Le(name) + old(out[..])[at + 2 * |name|..]
  {
    ghost var before := old(out[..]);
    var pos := at;
    for i := 0 to |name|
      invariant pos == at + 2 * i
      invariant out[..] == before[..at] + Utf16Le(name[..i]) + before[pos..]
    {
      out[pos] := name[i];
      out[pos + 1] := 0;
      Utf16LeSnoc(name[..i], name[i]);
      assert name[..i + 1] == name[..i] + [name[i]];
      pos := pos + 2;
    }
    assert name[..|name|] == name;
  }

  /** The writes of bc_client_build_keepalive_name once the sizes are
    * checked. */
  method PutKeepalive(out: array<byte>, slot: u8, ip: u32, name: seq<byte>)
    requires 14 + 2 * |name| <= out.Length && 12 + 2 * |name| <= 255
    modifies out
    ensures out[..] == KeepaliveBytes(slot, ip, name) + old(out[..])[14 + 2 * |name|..]
  {
    var head := KeepaliveHead(slot, ip, name);
    var k := 12 + 2 * |name|;
    ghost var before := old(out[..]);
    ghost var u := Utf16Le(name);
    Arrays.CopyAt(out, 0, head);
    ghost var s1 := out[..];
    PutUtf16Le(out, 12, name);
    assert out[..] == head + u + before[k..] by {
      assert s1 == head + before[12..];
      assert s1[..12] == head;
      assert s1[k..] == before[k..];
    }
    ghost var s2 := out[..];
    Arrays.CopyAt(out, k, [0, 0]);
    assert out[..] == head + u + [0, 0] + before[k + 2..] by {
      assert s2[..k] == head + u;
      assert s2[k + 2..] == before[k + 2..];
    }
  }

  /** bc_client_build_keepalive_name: name is the string before its NUL. */
  method KeepaliveNameBuild(out: array<byte>, outSize: int, slot: u8, ip: u32, name: seq<byte>) returns (n: int)
    requires outSize <= out.Length
    modifies out
    ensures n == -1 <==> 14 + 2 * |name| > outSize || 12 + 2 * |name| > 255
    ensures n == -1 ==> out[..] == old(out[..])
    ensures n != -1 ==> n == 14 + 2 * |name| && 12 + 2 * |name| <= 0xFF
                        && out[..] == KeepaliveBytes(slot, ip, name) + old(out[..])[n..]
  {
    var msgLen := 12 + 2 * |name|;
    var pktLen := 2 + msgLen;
    if pktLen > outSize || msgLen > 255 {
      return -1;
    }
    PutKeepalive(out, slot, ip, name);
    n := pktLen;
  }

  /** What the builder writes is read by the server's transport parser as
    * one keepalive message carrying everything after the length byte. */
  lemma KeepaliveParses(slot: u8, ip: u32, name: seq<byte>)
    requires 12 + 2 * |name| <= 0xFF
    ensures Transport.ParseSpec(KeepaliveBytes(slot, ip, name)) ==
      Some(Transport.Packet(ClientDir(slot), [Transport.Msg(TypeKeepalive, 0, 0, KeepaliveBytes(slot, ip, name)[4..])]))
  {
    var bytes := KeepaliveBytes(slot, ip, name);
    var m := Transport.Msg(TypeKeepalive, 0, 0, bytes[4..]);
    assert Transport.Encode(m) == bytes[2..] by {
      assert bytes[2..] == [TypeKeepalive, KeepaliveLen(name)] + bytes[4..];
    }
    assert Transport.EncodeAll([m]) == Transport.Encode(m);
    assert [m][..Transport.Min(|[m]|, Transport.MaxMsgs)] == [m];
    assert bytes == [ClientDir(slot), |[m]|] + bytes[2..];
    Transport.PacketRoundTrip(ClientDir(slot), [m]);
  }

  /** The keepalive message payload holds the flags 0x80, the slot and the
    * IP, then the name in UTF-16LE, which reads back as the name when it
    * holds no NUL. */
  lemma KeepalivePayloadFields(slot: u8, ip: u32, name: seq<byte>)
    requires 12 + 2 * |name| <= 0xFF && NulFree(name)
    ensures var p := KeepaliveBytes(slot, ip, name)[4..];
      p[..4] == [0x80, 0, 0, slot] && p[4..8] == LeU32(ip) && Utf16LeName(p[8..]) == Some(name)
  {
    var bytes := KeepaliveBytes(slot, ip, name);
    assert bytes[4..][8..] == Utf16Le(name) + [0, 0] + [];
    Utf16LeNameRoundTrip(name, []);
  }

  // ---------------------------------------------------------------------
  // Reliable, unreliable and ACK.

  /** [dir][1][0x32][5 + n][flags 0x80][seq & 0xFF][0][payload]. */
  function ReliableBytes(slot: u8, payload: seq<byte>, s: u16): seq<byte>
    requires 5 + |payload| <= 0xFF
  {
    [ClientDir(slot), 1, TypeReliable, 5 + |payload|, 0x80, s % 0x100, 0] + payload
  }

  /** bc_client_build_reliable. */
  method ReliableBuild(out: array<byte>, outSize: int, slot: u8, payload: seq<byte>, s: u16) returns (n: int)
    requires outSize <= out.Length
    modifies out
    ensures n == -1 <==> 7 + |payload| > outSize || 5 + |payload| > 0xFF
    ensures n == -1 ==> out[..] == old(out[..])
    ensures n != -1 ==> n == 7 + |payload| && out[..] == ReliableBytes(slot, payload, s) + old(out[..])[n..]
  {
    var total := 5 + |payload|;
    n := 2 + total;
    if n > outSize || total > 0xFF {
      return -1;
    }
    out[0] := ClientDir(slot);
    out[1] := 1;
    out[2] := TypeReliable;
    out[3] := total;
    out[4] := 0x80;
    out[5] := s % 0x100;
    out[6] := 0;
    ghost var head := out[..];
    Arrays.CopyAt(out, 7, payload);
    assert out[..] == head[..7] + payload + head[n..];
  }

  /** The server reads a client reliable message with sequence number
    * (seq & 0xFF) << 8, flags 0x80 and the payload. */
  lemma ReliableParses(slot: u8, payload: seq<byte>, s: u16)
    requires 5 + |payload| <= 0xFF
    ensures Transport.ParseSpec(ReliableBytes(slot, payload, s)) ==
      Some(Transport.Packet(ClientDir(slot), [Transport.Msg(TypeReliable, 0x80, (s % 0x100) * 0x100, payload)]))
  {
    var m := Transport.Msg(TypeReliable, 0x80, (s % 0x100) * 0x100, payload);
    assert Transport.EncodeAll([m]) == Transport.Encode(m);
    assert [m][..Transport.Min(|[m]|, Transport.MaxMsgs)] == [m];
    assert ReliableBytes(slot, payload, s) == [ClientDir(slot), |[m]|] + Transport.EncodeAll([m]);
    Transport.PacketRoundTrip(ClientDir(slot), [m]);
  }

  /** [dir][1][0x32][3 + n][flags 0x00][payload]: no sequence bytes. */
  function UnreliableBytes(slot: u8, payload: seq<byte>): seq<byte>
    requires 3 + |payload| <= 0xFF
  {
    [ClientDir(slot), 1, TypeReliable, 3 + |payload|, 0] + payload
  }

  /** bc_client_build_unreliable. */
  method UnreliableBuild(out: array<byte>, outSize: int, slot: u8, payload: seq<byte>) returns (n: int)
    requires outSize <= out.Length
    modifies out
    ensures n == -1 <==> 5 + |payload| > outSize || 3 + |payload| > 0xFF
    ensures n == -1 ==> out[..] == old(out[..])
    ensures n != -1 ==> n == 5 + |payload| && out[..] == UnreliableBytes(slot, payload) + old(out[..])[n..]
  {
    var total := 3 + |payload|;
    n := 2 + total;
    if n > outSize || total > 0xFF {
      return -1;
    }
    out[0] := ClientDir(slot);
    out[1] := 1;
    out[2] := TypeReliable;
    out[3] := total;
    out[4] := 0;
    ghost var head := out[..];
    Arrays.CopyAt(out, 5, payload);
    assert out[..] == head[..5] + payload + head[n..];
  }

  /** The first two bytes as a big-endian sequence number. */
  function SeqOf(p: seq<byte>): u16
    requires |p| >= 2
  {
    (p[0] as int) * 0x100 + p[1] as int
  }

  /** bc_transport_parse reads every 0x32 message with two sequence bytes,
    * so it takes the first two payload bytes of a client unreliable message
    * as the sequence number and rejects one with fewer than two. */
  lemma UnreliableAsParsed(slot: u8, payload: seq<byte>)
    requires 3 + |payload| <= 0xFF
    ensures |payload| < 2 ==> Transport.ParseSpec(UnreliableBytes(slot, payload)).None?
    ensures |payload| >= 2 ==>
      (Transport.ParseSpec(UnreliableBytes(slot, payload)) ==
       Some(Transport.Packet(ClientDir(slot), [Transport.Msg(TypeReliable, 0, SeqOf(payload), payload[2..])])))
  {
    var data := UnreliableBytes(slot, payload);
    if |payload| < 2 {
      assert data[2..][1] == 3 + |payload| < 5;
      assert Transport.ParseOne(data[2..]).None?;
    } else {
      var m := Transport.Msg(TypeReliable, 0, SeqOf(payload), payload[2..]);
      assert Transport.Encode(m) == [TypeReliable, 3 + |payload|, 0, payload[0], payload[1]] + payload[2..];
      assert Transport.EncodeAll([m]) == Transport.Encode(m);
      assert [m][..Transport.Min(|[m]|, Transport.MaxMsgs)] == [m];
      assert data == [ClientDir(slot), |[m]|] + Transport.EncodeAll([m]);
      Transport.PacketRoundTrip(ClientDir(slot), [m]);
    }
  }

  /** [dir][1][0x01][seq >> 8][0][flags]. */
  function AckBytes(slot: u8, s: u16, flags: u8): seq<byte>
  {
    [ClientDir(slot), 1, TypeAck, s / 0x100, 0, flags]
  }

  /** bc_client_build_ack. */
  method AckBuild(out: array<byte>, outSize: int, slot: u8, s: u16, flags: u8) returns (n: int)
    requires outSize <= out.Length
    modifies out
    ensures n == -1 <==> outSize < 6
    ensures n == -1 ==> out[..] == old(out[..])
    ensures n != -1 ==> n == 6 && out[..] == AckBytes(slot, s, flags) + old(out[..])[6..]
  {
    if outSize < 6 {
      return -1;
    }
    out[0] := ClientDir(slot);
    out[1] := 1;
    out[2] := TypeAck;
    out[3] := s / 0x100;
    out[4] := 0;
    out[5] := flags;
    n := 6;
  }

  /** A server reliable message built with counter c reaches the client with
    * sequence number (c & 0xFF) << 8; the client's ACK of it carries c & 0xFF
    * as its counter, and the server reads that counter back. */
  lemma ServerReliableThenClientAck(payload: seq<byte>, c: u16, slot: u8, flags: u8)
    requires 5 + |payload| <= 0xFF
    ensures var received := Transport.ParseSpec(Transport.ReliableBytes(payload, c)).value.msgs[0].seqNum;
      Transport.ParseSpec(AckBytes(slot, received, flags)) ==
        Some(Transport.Packet(ClientDir(slot), [Transport.Msg(TypeAck, flags, c % 0x100, [])]))
  {
    Transport.ReliableRoundTrip(payload, c);
    var received: u16 := (c % 0x100) * 0x100;
    assert received / 0x100 == c % 0x100;
    var m := Transport.Msg(TypeAck, flags, c % 0x100, []);
    assert Transport.EncodeAll([m]) == Transport.Encode(m);
    assert [m][..Transport.Min(|[m]|, Transport.MaxMsgs)] == [m];
    assert AckBytes(slot, received, flags) == [ClientDir(slot), |[m]|] + Transport.EncodeAll([m]);
    Transport.PacketRoundTrip(ClientDir(slot), [m]);
  }

  // ---------------------------------------------------------------------
  // Checksum request.

  /** bc_checksum_request_t: the directory fits 63 characters and the filter
    * 31 (their arrays hold 64 and 32 with the NUL). */
  datatype Request = Request(round: u8, directory: seq<byte>, filter: seq<byte>, recursive: bool)

  const MaxDirectory := 64
  const MaxFilter := 32

  /** [0x20][round][dirLen u16][dir][filterLen u16][filter][bit byte]: the
    * recursive flag is bit 0 of the byte that opens the bit group. */
  function ChecksumRequest(p: seq<byte>): (r: Option<Request>)
    ensures r.Some? ==> |r.value.directory| < MaxDirectory && |r.value.filter| < MaxFilter
  {
    if |p| < 4 || p[0] != OpChecksumReq then None
    else
      var dl := U16At(p, 2);
      if dl >= MaxDirectory || 4 + dl + 2 > |p| then None
      else
        var fl := U16At(p, 4 + dl);
        if fl >= MaxFilter || 6 + dl + fl + 1 > |p| then None
        else Some(Request(p[1], p[4..4 + dl], p[6 + dl..6 + dl + fl], Bit(p[6 + dl + fl], 0)))
  }

  /** bc_client_parse_checksum_request. */
  method ParseChecksumRequest(payload: array<byte>, len: nat) returns (ok: bool, req: Request)
    requires len <= payload.Length
    ensures ok <==> ChecksumRequest(payload[..len]).Some?
    ensures ok ==> req == ChecksumRequest(payload[..len]).value
  {
    req := Request(0, [], [], false);
    if len < 2 {
      return false, req;
    }
    ghost var p := payload[..len];
    var b := Reader.Open(payload, len);
    var good, opcode := GetU8(b, p);
    if !good || opcode != OpChecksumReq {
      return false, req;
    }
    var round: u8;
    good, round := GetU8(b, p);
    if !good {
      return false, req;
    }
    var dirLen: u16;
    good, dirLen := GetU16(b, p);
    if !good || dirLen >= MaxDirectory {
      return false, req;
    }
    var dir: seq<byte>;
    good, dir := GetBytes(b, p, dirLen);
    if !good {
      return false, req;
    }
    var filterLen: u16;
    good, filterLen := GetU16(b, p);
    if !good || filterLen >= MaxFilter {
      return false, req;
    }
    var filter: seq<byte>;
    good, filter := GetBytes(b, p, filterLen);
    if !good {
      return false, req;
    }
    var recursive: bool;
    good, recursive := GetBit(b, p);
    if !good {
      return false, req;
    }
    req := Request(round, dir, filter, recursive);
    ok := true;
  }

  /** The client parse inverts the server's request builder for every
    * directory and filter that fit the request record. */
  lemma RequestRoundTrip(index: u8, r: Handshake.Round)
    requires |r.directory| < MaxDirectory && |r.filter| < MaxFilter
    ensures ChecksumRequest(Image(Handshake.RequestOps(index, r))) ==
      Some(Request(index, r.directory, r.filter, r.recursive))
  {
    Handshake.RequestImage(index, r);
    var d, f := r.directory, r.filter;
    var bit: byte := if r.recursive then 1 else 0;
    var p := [OpChecksumReq, index] + LeU16(|d|) + d + LeU16(|f|) + f + [bit];
    assert U16At(p, 2) == |d| by {
      assert p == [OpChecksumReq, index] + LeU16(|d|) + (d + LeU16(|f|) + f + [bit]);
      U16RoundTrip(|d|, [OpChecksumReq, index], d + LeU16(|f|) + f + [bit]);
    }
    assert U16At(p, 4 + |d|) == |f| by {
      assert p == ([OpChecksumReq, index] + LeU16(|d|) + d) + LeU16(|f|) + (f + [bit]);
      U16RoundTrip(|f|, [OpChecksumReq, index] + LeU16(|d|) + d, f + [bit]);
    }
    assert p[4..4 + |d|] == d;
    assert p[6 + |d|..6 + |d| + |f|] == f;
    assert Bit(p[6 + |d| + |f|], 0) == r.recursive;
  }

  /** A directory too long for the request record is rejected even when the
    * rest of the request is well formed. */
  lemma RequestLongDirectoryRejected(index: u8, r: Handshake.Round)
    requires MaxDirectory <= |r.directory| < 0x1_0000 && |r.filter| < 0x1_0000
    ensures ChecksumRequest(Image(Handshake.RequestOps(index, r))).None?
  {
    Handshake.RequestImage(index, r);
    var d, f := r.directory, r.filter;
    var bit: byte := if r.recursive then 1 else 0;
    var p := [OpChecksumReq, index] + LeU16(|d|) + d + LeU16(|f|) + f + [bit];
    assert p == [OpChecksumReq, index] + LeU16(|d|) + (d + LeU16(|f|) + f + [bit]);
    U16RoundTrip(|d|, [OpChecksumReq, index], d + LeU16(|f|) + f + [bit]);
  }

  /** Every request of the server's round table, and the final round, is
    * read back by the client. */
  lemma RoundTableRequestsParse(round: nat)
    requires round < Handshake.Rounds
    ensures ChecksumRequest(Image(Handshake.RequestOps(round, Handshake.RoundTable(round)))) ==
      Some(Request(round, Handshake.RoundTable(round).directory, Handshake.RoundTable(round).filter,
                   Handshake.RoundTable(round).recursive))
    ensures ChecksumRequest(Image(Handshake.RequestOps(0xFF, Handshake.FinalRound))) ==
      Some(Request(0xFF, Handshake.FinalRound.directory, Handshake.FinalRound.filter, true))
  {
    RequestRoundTrip(round, Handshake.RoundTable(round));
    RequestRoundTrip(0xFF, Handshake.FinalRound);
  }
}
