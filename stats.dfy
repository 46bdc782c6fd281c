/**
 * The statistics `mpegd_parse_packet` keeps per stream id in
 * `streams[256]` and, for private stream 1, per substream id in
 * `substreams[256]`: a 32-bit packet count and a 64-bit byte count
 * (`mpeg_stream_info_t`).
 */
module Statistics {
  import opened Bits
  import opened Headers

  /** 2^64: the range of `uint64_t`. */
  const DWORD: nat := 0x1_0000_0000_0000_0000

  /** `mpeg_stream_info_t`. */
  datatype StreamInfo = StreamInfo(packets: nat, size: nat)

  /** Every entry holds values of the C field widths. */
  predicate IsInfoTable(t: seq<StreamInfo>)
  {
    |t| == 256 && forall i :: 0 <= i < |t| ==> t[i].packets < WORD && t[i].size < DWORD
  }

  /** The number of packets a table has counted. */
  function Total(t: seq<StreamInfo>): nat
  {
    if |t| == 0 then 0 else t[0].packets + Total(t[1..])
  }

  /** Every entry zero, as `resetStats` leaves a table. */
  predicate AllZero(t: seq<StreamInfo>)
  {
    forall i :: 0 <= i < |t| ==> t[i] == StreamInfo(0, 0)
  }

  /** A zeroed table has counted nothing. */
  lemma {:induction false} ZeroTotal(t: seq<StreamInfo>)
    requires AllZero(t)
    ensures Total(t) == 0
  {
    if |t| > 0 {
      assert AllZero(t[1..]) by {
        forall i | 0 <= i < |t| - 1
          ensures t[1..][i] == StreamInfo(0, 0)
        {
          assert t[1..][i] == t[i + 1];
        }
      }
      ZeroTotal(t[1..]);
    }
  }

  /** Replacing one entry changes the total by the difference of the two counts. */
  lemma {:induction false} TotalUpdate(t: seq<StreamInfo>, i: nat, v: StreamInfo)
    requires i < |t|
    ensures Total(t[i := v]) == Total(t) - t[i].packets + v.packets
  {
    if i == 0 {
      assert t[i := v][1..] == t[1..];
    } else {
      assert t[i := v][1..] == t[1..][i - 1 := v];
      TotalUpdate(t[1..], i - 1, v);
    }
  }

  /**
   * One more packet of n payload bytes: the packet count grows by one
   * on 32 bits and the byte count by n on 64 bits.
   */
  function Counted(s: StreamInfo, n: nat): StreamInfo
  {
    StreamInfo((s.packets + 1) % WORD, (s.size + n) % DWORD)
  }

  /**
   * Counting a packet in one entry adds one to the table's total, modulo
   * the 32-bit width of the counters; the table stays well formed.
   */
  lemma CountedTotal(t: seq<StreamInfo>, i: nat, n: nat)
    requires IsInfoTable(t) && i < 256
    ensures IsInfoTable(t[i := Counted(t[i], n)])
    ensures Total(t[i := Counted(t[i], n)]) % WORD == (Total(t) + 1) % WORD
  {
    var c := Counted(t[i], n);
    TotalUpdate(t, i, c);
    if t[i].packets + 1 < WORD {
      assert c.packets == t[i].packets + 1;
    } else {
      assert c.packets == 0 && t[i].packets == WORD - 1;
      assert Total(t[i := c]) + WORD == Total(t) + 1;
    }
  }

  // ---------------------------------------------------------------------
  // The demuxer's counters

  /** `shdr_cnt`, `pack_cnt`, `packet_cnt`, `end_cnt`, `skip_cnt` and the two tables. */
  datatype Stats = Stats(
    shdrCnt: nat, packCnt: nat, packetCnt: nat, endCnt: nat, skipCnt: nat,
    streams: seq<StreamInfo>, substreams: seq<StreamInfo>)

  /**
   * The counters hold 32-bit values, the per-stream packet counts add up
   * to `packet_cnt` and the per-substream ones to the count of private
   * stream 1, all modulo 2^32.
   */
  predicate StatsOk(s: Stats)
  {
    && s.shdrCnt < WORD && s.packCnt < WORD && s.packetCnt < WORD && s.endCnt < WORD && s.skipCnt < WORD
    && IsInfoTable(s.streams) && IsInfoTable(s.substreams)
    && Total(s.streams) % WORD == s.packetCnt
    && Total(s.substreams) % WORD == s.streams[0xbd].packets
  }

  /** `resetStats`: every counter and every table entry zero. */
  predicate IsReset(s: Stats)
  {
    && s.shdrCnt == 0 && s.packCnt == 0 && s.packetCnt == 0 && s.endCnt == 0 && s.skipCnt == 0
    && |s.streams| == 256 && |s.substreams| == 256 && AllZero(s.streams) && AllZero(s.substreams)
  }

  /** Reset counters satisfy the counting invariant, with nothing counted. */
  lemma ResetOk(s: Stats)
    requires IsReset(s)
    ensures StatsOk(s) && Total(s.streams) == 0 && Total(s.substreams) == 0
  {
    ZeroTotal(s.streams);
    ZeroTotal(s.substreams);
  }

  /**
   * The counting of an accepted packet: one more packet overall, one
   * more packet and its payload for its stream and, in private stream 1,
   * for its substream.
   */
  function Count(s: Stats, p: Packet): Stats
    requires |s.streams| == 256 && |s.substreams| == 256 && p.sid < 256 && p.ssid < 256
  {
    var streams := s.streams[p.sid := Counted(s.streams[p.sid], Payload(p))];
    var substreams :=
      if p.sid == 0xbd then s.substreams[p.ssid := Counted(s.substreams[p.ssid], Payload(p))]
      else s.substreams;
    s.(packetCnt := (s.packetCnt + 1) % WORD, streams := streams, substreams := substreams)
  }

  /**
   * Counting a packet adds one packet and its payload to its stream's
   * entry (and its substream's, in private stream 1), keeps the totals
   * consistent and touches no other counter or entry.
   */
  lemma CountOk(s: Stats, p: Packet)
    requires StatsOk(s) && p.sid < 256 && p.ssid < 256
    ensures StatsOk(Count(s, p))
    ensures Count(s, p).(packetCnt := s.packetCnt, streams := s.streams, substreams := s.substreams) == s
    ensures Count(s, p).packetCnt == (s.packetCnt + 1) % WORD
    ensures Count(s, p).streams[p.sid].packets == (s.streams[p.sid].packets + 1) % WORD
    ensures Count(s, p).streams[p.sid].size == (s.streams[p.sid].size + Payload(p)) % DWORD
    ensures forall i :: 0 <= i < 256 && i != p.sid ==> Count(s, p).streams[i] == s.streams[i]
    ensures p.sid == 0xbd ==> Count(s, p).substreams[p.ssid].packets == (s.substreams[p.ssid].packets + 1) % WORD
    ensures p.sid == 0xbd ==> Count(s, p).substreams[p.ssid].size == (s.substreams[p.ssid].size + Payload(p)) % DWORD
    ensures p.sid == 0xbd ==> forall i :: 0 <= i < 256 && i != p.ssid ==> Count(s, p).substreams[i] == s.substreams[i]
    ensures p.sid != 0xbd ==> Count(s, p).substreams == s.substreams
  {
    var c := Count(s, p);
    CountedTotal(s.streams, p.sid, Payload(p));
    ModShiftAdd(Total(s.streams), 1, 1, WORD);
    assert c.packetCnt == Total(c.streams) % WORD;
    if p.sid == 0xbd {
      CountedTotal(s.substreams, p.ssid, Payload(p));
      ModShiftAdd(Total(s.substreams), 1, 1, WORD);
      assert Total(c.substreams) % WORD == c.streams[0xbd].packets;
    } else {
      assert c.streams[0xbd] == s.streams[0xbd];
    }
  }

  // ---------------------------------------------------------------------
  // The payload length added to `size`

  /**
   * `packet.size - packet.offset` as written: an unsigned 32-bit
   * subtraction that wraps when the header reaches past the packet.
   */
  function PayloadAsWritten(p: Packet): nat
  {
    (p.size - p.offset) % WORD
  }

  /**
   * The payload: the bytes of the packet after its header, none when the
   * header claims more bytes than the packet has.
   */
  function Payload(p: Packet): nat
  {
    if p.offset <= p.size then p.size - p.offset else 0
  }

  /**
   * The two agree on every packet whose header fits in it; on any other
   * packet the wrapped value claims more bytes than the whole packet,
   * while the corrected payload never does.
   */
  lemma PayloadAgrees(p: Packet)
    requires p.size < WORD && p.offset < WORD
    ensures Payload(p) <= p.size
    ensures p.offset <= p.size ==> PayloadAsWritten(p) == Payload(p)
    ensures p.offset > p.size ==> PayloadAsWritten(p) > p.size
  {
    if p.offset > p.size {
      DivModUnique(p.size - p.offset, WORD, -1, WORD + p.size - p.offset);
    }
  }

  /** A 7-byte packet of stream 0xe0 with length field 0 and one header byte 0x0f. */
  const ShortPacket: seq<Byte> := [0x00, 0x00, 0x01, 0xe0, 0x00, 0x00, 0x0f]

  /** The start code `mpegd_get_bits` reads from a stream that begins with 00 00 01. */
  lemma StartCodeField(u: seq<Byte>)
    requires |u| >= 3 && u[0] == 0 && u[1] == 0 && u[2] == 1
    ensures Peek(u, 0, 24) == PACKET_START
  {
    assert Min(BUFFER, |u|) >= 3;
    BitsSplit(u, 0, 16, 8);
    BitsSplit(u, 0, 8, 8);
    ByteField(u, 0);
    ByteField(u, 1);
    ByteField(u, 2);
    Pow2Small();
  }

  /** The header fields `mpegd_get_bits` reads from a packet laid out like it. */
  lemma ShortPacketLayout(u: seq<Byte>)
    requires |u| >= 7 && u[3] == 0xe0 && u[4] == 0 && u[5] == 0 && u[6] == 0x0f
    ensures Peek(u, 24, 8) == 0xe0 && Peek(u, 32, 16) == 0
    ensures Peek(u, 48, 8) == 0x0f && Peek(u, 48, 2) == 0
  {
    assert Min(BUFFER, |u|) >= 7;
    ByteField(u, 3);
    BitsSplit(u, 32, 8, 8);
    ByteField(u, 4);
    ByteField(u, 5);
    ByteField(u, 6);
    BitsInByte(u, 48, 2);
    assert Pow2(2) == 4;
    assert Pow2(6) == 64;
  }

  /** The bytes of a stream that begins with that packet. */
  lemma ShortPacketBytes(u: seq<Byte>)
    requires |u| >= 7 && u[..7] == ShortPacket
    ensures u[0] == 0 && u[1] == 0 && u[2] == 1 && u[3] == 0xe0
    ensures u[4] == 0 && u[5] == 0 && u[6] == 0x0f
  {
    assert forall k :: 0 <= k < 7 ==> u[k] == u[..7][k];
  }

  /** The fields of that packet from a stream that begins with it, whatever follows. */
  lemma ShortPacketFields(u: seq<Byte>)
    requires |u| >= 7 && u[..7] == ShortPacket
    ensures Peek(u, 0, 24) == PACKET_START
    ensures Peek(u, 24, 8) == 0xe0 && Peek(u, 32, 16) == 0
    ensures Peek(u, 48, 8) == 0x0f && Peek(u, 48, 2) == 0
  {
    ShortPacketBytes(u);
    StartCodeField(u);
    ShortPacketLayout(u);
  }

  /**
   * A packet that begins like it is 6 bytes long by its length field and
   * 7 by its header, whatever follows.
   */
  lemma ShortPacketDecodes(u: seq<Byte>)
    requires |u| >= 7 && u[..7] == ShortPacket
    ensures DecodePacket(u) == Packet(1, 0xe0, 0, 6, 7, false, 0, false, 0)
  {
    ShortPacketFields(u);
    assert StuffingEnd(u, 48) == 48;
    var p := Packet(0, 0xe0, 0, 6, 6, false, 0, false, 0);
    assert Mpeg1Header(u, 48, p) == p.(ptype := 1, offset := 7);
  }

  lemma ShortPacketHeader()
    ensures DecodePacket(ShortPacket) == Packet(1, 0xe0, 0, 6, 7, false, 0, false, 0)
  {
    assert ShortPacket[..7] == ShortPacket;
    ShortPacketDecodes(ShortPacket);
  }

  /**
   * As written, that packet adds 2^32 - 1 bytes to the byte count of
   * stream 0xe0; the corrected payload adds nothing.
   */
  lemma ShortPacketWraps()
    ensures PayloadAsWritten(DecodePacket(ShortPacket)) == WORD - 1
    ensures Payload(DecodePacket(ShortPacket)) == 0
  {
    ShortPacketHeader();
  }
}
