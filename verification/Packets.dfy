/**
 Packet handles and their wire form (`PacketHandle`).

 A datagram carries a 4-byte immediate (session, command, compaction flag, 24-bit
 sequence number), which the endpoint leaves out when it is zero, an 8-byte header
 (window, 48-bit timestamp) and the payload. The receiving side sees 40 bytes of
 global routing header in front of it.
 */
module Packets {
  import opened Arithmetic
  import opened SequenceNumbers
  import opened Fragmentation

  const PKT_CMD_DATA: nat := 0
  const PKT_CMD_ACK: nat := 1
  const HEADER_SIZE: nat := 8
  const GRH_SIZE: nat := 40

  datatype Option<+T> = None | Some(value: T)

  /** A ring entry; `packet` and `dataBuf` are pointers, 0 the null pointer. */
  datatype Handle = Handle(
    packet: nat, session: nat, cmd: nat, wnd: nat, sn: nat, ts: nat,
    compacted: bool, inflight: bool, dataBuf: nat, dataLen: nat)

  /** What `deserialize` leaves in a handle, with the payload it gives access to. */
  datatype Received = Received(session: nat, cmd: nat, compacted: bool, sn: nat, wnd: nat, ts: nat, payload: seq<Byte>)

  /** What the network carries between two endpoints. */
  datatype Datagram = Datagram(hasImm: bool, imm: nat, bytes: seq<Byte>)

  /** `PacketHandle::setRawPacket` */
  function RawHandle(packet: nat): Handle {
    Handle(packet, 0, 0, 0, 0, 0, false, false, 0, 0)
  }

  // Little-endian numbers

  function ToBytes(x: nat, n: nat): (bytes: seq<Byte>)
    ensures |bytes| == n
  {
    if n == 0 then [] else [x % 256] + ToBytes(x / 256, n - 1)
  }

  function FromBytes(bytes: seq<Byte>): nat {
    if bytes == [] then 0 else bytes[0] + 256 * FromBytes(bytes[1..])
  }

  function Pow256(n: nat): nat {
    if n == 0 then 1 else 256 * Pow256(n - 1)
  }

  /** Reading back what was written gives the number modulo the width. */
  lemma {:induction false} BytesRoundTrip(x: nat, n: nat)
    ensures FromBytes(ToBytes(x, n)) < Pow256(n)
    ensures x < Pow256(n) ==> FromBytes(ToBytes(x, n)) == x
  {
    if n > 0 {
      BytesRoundTrip(x / 256, n - 1);
      assert ToBytes(x, n)[1..] == ToBytes(x / 256, n - 1);
    }
  }

  lemma {:induction false} NumberRoundTrip(bytes: seq<Byte>)
    ensures ToBytes(FromBytes(bytes), |bytes|) == bytes
  {
    if bytes != [] {
      NumberRoundTrip(bytes[1..]);
      var rest := FromBytes(bytes[1..]);
      DivModUnique(bytes[0] + 256 * rest, 256, rest, bytes[0]);
    }
  }

  // Encoding

  function ImmBytes(h: Handle): (bytes: seq<Byte>)
    ensures |bytes| == 4
  {
    [h.session % 64 + 64 * (h.cmd % 2) + (if h.compacted then 128 else 0),
     h.sn % 256, h.sn / 256 % 256, h.sn / 65536 % 256]
  }

  function HeaderBytes(wnd: nat, ts: nat): (bytes: seq<Byte>)
    ensures |bytes| == HEADER_SIZE
  {
    ToBytes(U16(wnd), 2) + ToBytes(U16(ts), 2) + ToBytes(U32(ts / TWO_16), 4)
  }

  /** The header after `encode`, which leaves it alone for a compacted packet. */
  function Header(h: Handle, stale: seq<Byte>): (bytes: seq<Byte>)
    requires |stale| == HEADER_SIZE
    ensures |bytes| == HEADER_SIZE
  {
    if h.compacted then stale else HeaderBytes(h.wnd, h.ts)
  }

  /** Sending: the immediate is attached only when it is not zero. */
  function Emit(h: Handle, stale: seq<Byte>, payload: seq<Byte>): Datagram
    requires |stale| == HEADER_SIZE
  {
    var imm := FromBytes(ImmBytes(h));
    Datagram(imm != 0, imm, Header(h, stale) + payload)
  }

  // Decoding

  /** `PacketHandle::deserialize`, for a buffer of which `bytes` were filled. */
  function Deserialize(imm: nat, bytes: seq<Byte>, withGrh: bool): Option<Received> {
    var skip := if withGrh then GRH_SIZE else 0;
    if |bytes| < skip + HEADER_SIZE then None
    else
      var b := ToBytes(imm, 4);
      var compacted := b[0] / 128 % 2 == 1;
      var hdr := bytes[skip..skip + HEADER_SIZE];
      Some(Received(
             b[0] % 64, b[0] / 64 % 2, compacted, (b[1] as int) + 256 * (b[2] as int) + 65536 * (b[3] as int),
             if compacted then 0 else FromBytes(hdr[0..2]),
             if compacted then 0 else TWO_16 * FromBytes(hdr[4..8]) + FromBytes(hdr[2..4]),
             bytes[skip + HEADER_SIZE..]))
  }

  /** Arrival: an absent immediate reads as zero, and the routing header comes first. */
  function Arrive(d: Datagram, grh: seq<Byte>): Option<Received>
    requires |grh| == GRH_SIZE
  {
    Deserialize(if d.hasImm then d.imm else 0, grh + d.bytes, true)
  }

  lemma SnBytes(sn: nat)
    ensures sn % 256 + 256 * (sn / 256 % 256) + 65536 * (sn / 65536 % 256) == sn % SN_SPACE
  {
    var a, b, c, q := sn % 256, sn / 256 % 256, sn / 65536 % 256, sn / SN_SPACE;
    assert sn / 256 / 256 == sn / 65536;
    assert sn / 65536 / 256 == q;
    assert sn == a + 256 * (b + 256 * (c + 256 * q));
  }

  lemma TimestampBytes(ts: nat)
    ensures TWO_16 * U32(ts / TWO_16) + U16(ts) == ts % TWO_48
  {
    var lo, mid, hi := ts % TWO_16, ts / TWO_16 % TWO_32, ts / TWO_16 / TWO_32;
    assert ts == TWO_48 * hi + (TWO_16 * mid + lo);
    DivModUnique(ts, TWO_48, hi, TWO_16 * mid + lo);
  }

  lemma HeaderRoundTrip(wnd: nat, ts: nat)
    ensures var hdr := HeaderBytes(wnd, ts);
            && FromBytes(hdr[0..2]) == U16(wnd)
            && TWO_16 * FromBytes(hdr[4..8]) + FromBytes(hdr[2..4]) == ts % TWO_48
  {
    var hdr := HeaderBytes(wnd, ts);
    var a, b, c := ToBytes(U16(wnd), 2), ToBytes(U16(ts), 2), ToBytes(U32(ts / TWO_16), 4);
    assert hdr[0..2] == a && hdr[2..4] == b && hdr[4..8] == c;
    assert Pow256(2) == TWO_16;
    assert Pow256(4) == 256 * (256 * Pow256(2)) == TWO_32;
    BytesRoundTrip(U16(wnd), 2);
    BytesRoundTrip(U16(ts), 2);
    BytesRoundTrip(U32(ts / TWO_16), 4);
    TimestampBytes(ts);
  }

  /**
   What arrives of an emitted packet: session modulo 2^6, command modulo 2, sequence
   number modulo 2^24, the payload and, unless it is compacted, the window modulo 2^16
   and the timestamp modulo 2^48. A compacted packet loses the last two.
   */
  lemma WireRoundTrip(h: Handle, stale: seq<Byte>, payload: seq<Byte>, grh: seq<Byte>)
    requires |stale| == HEADER_SIZE && |grh| == GRH_SIZE
    ensures Arrive(Emit(h, stale, payload), grh) ==
            Some(Received(
                   h.session % 64, h.cmd % 2, h.compacted, h.sn % SN_SPACE,
                   if h.compacted then 0 else U16(h.wnd),
                   if h.compacted then 0 else h.ts % TWO_48,
                   payload))
  {
    var d := Emit(h, stale, payload);
    ImmRoundTrip(h);
    SlicesOf(grh, Header(h, stale), payload);
    if !h.compacted {
      HeaderRoundTrip(h.wnd, h.ts);
    }
  }

  lemma ImmRoundTrip(h: Handle)
    ensures var b := ToBytes(FromBytes(ImmBytes(h)), 4);
            && b[0] % 64 == h.session % 64
            && b[0] / 64 % 2 == h.cmd % 2
            && (b[0] / 128 % 2 == 1 <==> h.compacted)
            && (b[1] as int) + 256 * (b[2] as int) + 65536 * (b[3] as int) == h.sn % SN_SPACE
  {
    NumberRoundTrip(ImmBytes(h));
    SnBytes(h.sn);
  }

  lemma {:induction false} FromBytesAppend(a: seq<Byte>, b: seq<Byte>)
    ensures FromBytes(a + b) == FromBytes(a) + Pow256(|a|) * FromBytes(b)
  {
    if a == [] {
      assert a + b == b;
    } else {
      assert (a + b)[1..] == a[1..] + b;
      FromBytesAppend(a[1..], b);
      assert 256 * (Pow256(|a| - 1) * FromBytes(b)) == Pow256(|a|) * FromBytes(b);
    }
  }

  /**
   The layout: the immediate is one little-endian word of session (6 bits), command, compaction
   flag and sequence number (24 bits), the header one of window (16 bits) and timestamp (48 bits).
   */
  lemma WireLayout(h: Handle)
    ensures FromBytes(ImmBytes(h)) ==
            h.session % 64 + 64 * (h.cmd % 2) + (if h.compacted then 128 else 0) + 256 * (h.sn % SN_SPACE)
    ensures FromBytes(HeaderBytes(h.wnd, h.ts)) == h.wnd % TWO_16 + TWO_16 * (h.ts % TWO_48)
  {
    ImmLayout(h);
    HeaderLayout(h.wnd, h.ts);
  }

  lemma ImmLayout(h: Handle)
    ensures FromBytes(ImmBytes(h)) ==
            h.session % 64 + 64 * (h.cmd % 2) + (if h.compacted then 128 else 0) + 256 * (h.sn % SN_SPACE)
  {
    var b := ImmBytes(h);
    assert b[1..] == [b[1], b[2], b[3]] && b[1..][1..] == [b[2], b[3]] && b[1..][1..][1..] == [b[3]];
    assert FromBytes(b[1..][1..][1..]) == b[3] as int;
    assert FromBytes(b[1..][1..]) == (b[2] as int) + 256 * (b[3] as int);
    assert FromBytes(b[1..]) == (b[1] as int) + 256 * (b[2] as int) + 65536 * (b[3] as int);
    SnBytes(h.sn);
  }

  lemma HeaderLayout(wnd: nat, ts: nat)
    ensures FromBytes(HeaderBytes(wnd, ts)) == wnd % TWO_16 + TWO_16 * (ts % TWO_48)
  {
    var a, b, c := ToBytes(U16(wnd), 2), ToBytes(U16(ts), 2), ToBytes(U32(ts / TWO_16), 4);
    assert HeaderBytes(wnd, ts) == a + (b + c);
    FromBytesAppend(a, b + c);
    FromBytesAppend(b, c);
    assert Pow256(2) == TWO_16;
    assert Pow256(4) == 256 * (256 * Pow256(2)) == TWO_32;
    BytesRoundTrip(U16(wnd), 2);
    BytesRoundTrip(U16(ts), 2);
    BytesRoundTrip(U32(ts / TWO_16), 4);
    TimestampBytes(ts);
  }

  lemma SlicesOf(grh: seq<Byte>, hdr: seq<Byte>, payload: seq<Byte>)
    requires |hdr| == HEADER_SIZE && |grh| == GRH_SIZE
    ensures (grh + (hdr + payload))[GRH_SIZE..GRH_SIZE + HEADER_SIZE] == hdr
    ensures (grh + (hdr + payload))[GRH_SIZE + HEADER_SIZE..] == payload
  {}

  /** A fragment, its header and the routing header fill at most one receive buffer. */
  lemma FragmentFits(mtu: nat, b: Buffer, k: nat)
    requires mtu > HEADER_SIZE + GRH_SIZE && k < |Cut(b, mtu - HEADER_SIZE - GRH_SIZE)|
    ensures GRH_SIZE + HEADER_SIZE + Cut(b, mtu - HEADER_SIZE - GRH_SIZE)[k].length <= mtu
  {
    CutAt(b, mtu - HEADER_SIZE - GRH_SIZE, k);
  }

  /** The low 48 bits of the time since the echoed timestamp. */
  function RoundTripTime(now: nat, echoed: nat): nat
    requires now < TWO_64 && echoed < TWO_48
  {
    U64Sub(now, echoed) % TWO_48
  }

  /** The round-trip time computed from an echoed timestamp is exact if and only if it is under 2^48. */
  lemma RoundTripTimeIff(now: nat, sent: nat)
    requires sent <= now < TWO_64
    ensures RoundTripTime(now, sent % TWO_48) == now - sent <==> now - sent < TWO_48
  {
    var q := sent / TWO_48;
    var x := now - sent % TWO_48;
    assert sent == TWO_48 * q + sent % TWO_48;
    assert x == TWO_48 * q + (now - sent);
    if now - sent < TWO_48 {
      DivModUnique(x, TWO_48, q, now - sent);
    }
  }

  // The in-place forms, on the packet buffer

  /** `PacketHandle::serialize`: refuses a null buffer; otherwise writes the header and says where the bytes are. */
  method Serialize(h: Handle, withGrh: bool, packet: array<Byte>) 
    returns (code: int, imm: nat, slices: seq<Buffer>)
    requires packet.Length >= HEADER_SIZE
    modifies packet
    ensures code == -1 <==> h.packet == 0 || withGrh
    ensures code == -1 ==> packet[..] == old(packet[..])
    ensures code != -1 ==> code == 0 && imm == FromBytes(ImmBytes(h))
    ensures code == 0 ==> packet[..HEADER_SIZE] == Header(h, old(packet[..HEADER_SIZE]))
    ensures packet[HEADER_SIZE..] == old(packet[HEADER_SIZE..])
    ensures code == 0 ==> |slices| == 2 && slices[0].addr == h.packet && HEADER_SIZE <= slices[0].length
    ensures code == 0 ==> slices[0].length + slices[1].length == HEADER_SIZE + h.dataLen
    ensures code == 0 ==> slices[1] == if h.dataBuf == 0 then Buffer(0, 0) else Buffer(h.dataBuf, h.dataLen)
  {
    slices := [];
    if h.packet == 0 || withGrh {
      return -1, 0, [];
    }
    imm := FromBytes(ImmBytes(h));
    code := 0;
    if !h.compacted {
      var bytes := HeaderBytes(h.wnd, h.ts);
      for i := 0 to HEADER_SIZE
        invariant packet[..i] == bytes[..i]
        invariant packet[HEADER_SIZE..] == old(packet[HEADER_SIZE..])
      {
        packet[i] := bytes[i];
      }
    }
    if h.dataBuf == 0 {
      slices := [Buffer(h.packet, HEADER_SIZE + h.dataLen), Buffer(0, 0)];
    } else {
      slices := [Buffer(h.packet, HEADER_SIZE), Buffer(h.dataBuf, h.dataLen)];
    }
  }
}
