/**
 * The header layouts the parser reads with `get_bits`, as pure functions
 * of the unread stream `u` at the start of the header: the pack header
 * (ISO/IEC 11172-1 section 2.4.3.2, ISO/IEC 13818-1 section 2.5.3.3),
 * the system header (section 2.5.3.5) and the packet / PES header
 * (section 2.4.3.6).  Every field is `Peek(u, i, n)`, the value
 * `get_bits(i, n)` returns, so a field the stream is too short for reads
 * as 0, exactly as in the parser.
 */
module Headers {
  import opened Bits

  /** The 32-bit start codes `get_bits(0, 32)` is compared with. */
  const END_CODE: nat := 0x01b9
  const PACK_START: nat := 0x01ba
  const SYSTEM_HEADER: nat := 0x01bb
  /** The 24-bit start-code prefix 0x000001. */
  const PACKET_START: nat := 0x0001

  /** 2^33: the range of a 33-bit clock value. */
  const CLOCK: nat := 0x2_0000_0000

  /** `mpeg_pack_t`. */
  datatype Pack = Pack(size: nat, ptype: nat, scr: nat, muxRate: nat, stuff: nat)

  /** `mpeg_shdr_t`. */
  datatype SystemHeader = SystemHeader(size: nat, fixed: nat, csps: nat)

  /** `mpeg_packet_t`. */
  datatype Packet = Packet(
    ptype: nat, sid: nat, ssid: nat, size: nat, offset: nat,
    hasPts: bool, pts: nat, hasDts: bool, dts: nat)

  /**
   * A 33-bit time stamp stored as 3, 15 and 15 bits, the 3-bit part at
   * bit i and the others after one marker bit each:
   * `((get_bits(i,3) << 15 | get_bits(i+4,15)) << 15) | get_bits(i+20,15)`.
   */
  function Stamp(u: seq<Byte>, i: nat): nat
  {
    (Peek(u, i, 3) * 0x8000 + Peek(u, i + 4, 15)) * 0x8000 + Peek(u, i + 20, 15)
  }

  lemma StampBound(u: seq<Byte>, i: nat)
    ensures Stamp(u, i) < CLOCK
  {
    PeekBound(u, i, 3);
    PeekBound(u, i + 4, 15);
    PeekBound(u, i + 20, 15);
    assert Pow2(3) == 8;
    Pow2Add(7, 8);
    assert Pow2(7) == 128 && Pow2(8) == 256;
    var a, b, c := Peek(u, i, 3), Peek(u, i + 4, 15), Peek(u, i + 20, 15);
    assert a * 0x8000 + b <= 7 * 0x8000 + 0x7fff;
    assert (a * 0x8000 + b) * 0x8000 <= (7 * 0x8000 + 0x7fff) * 0x8000;
  }

  // ---------------------------------------------------------------------
  // Pack header (`mpegd_parse_pack`, first half)

  /**
   * The pack header after the start code: MPEG-1 when the 4 bits at 32
   * are 0010, MPEG-2 when the 2 bits at 32 are 01, otherwise an unknown
   * pack of 4 bytes whose `stuff` keeps its previous value.
   */
  function DecodePack(u: seq<Byte>, prevStuff: nat): Pack
  {
    if Peek(u, 32, 4) == 0x02 then
      Pack(12, 1, Stamp(u, 36), Peek(u, 73, 22), 0)
    else if Peek(u, 32, 2) == 0x01 then
      var stuff := Peek(u, 109, 3);
      Pack(14 + stuff, 2, Stamp(u, 34), Peek(u, 80, 22), stuff)
    else
      Pack(4, 0, 0, 0, prevStuff)
  }

  /** The pack types, sizes and ranges the parser relies on. */
  lemma PackShape(u: seq<Byte>, prevStuff: nat)
    ensures var p := DecodePack(u, prevStuff);
      && (p.ptype == 1 <==> Peek(u, 32, 4) == 0x02)
      && (p.ptype == 2 <==> Peek(u, 32, 4) != 0x02 && Peek(u, 32, 2) == 0x01)
      && (p.ptype == 1 ==> p.size == 12 && p.stuff == 0)
      && (p.ptype == 2 ==> p.stuff < 8 && p.size == 14 + p.stuff)
      && (p.ptype == 0 ==> p.size == 4 && p.scr == 0 && p.stuff == prevStuff)
      && 4 <= p.size <= 21
      && p.scr < CLOCK && p.muxRate < 0x40_0000
  {
    PackPowers();
    if Peek(u, 32, 4) == 0x02 {
      StampBound(u, 36);
      PeekBound(u, 73, 22);
    } else if Peek(u, 32, 2) == 0x01 {
      StampBound(u, 34);
      PeekBound(u, 109, 3);
      PeekBound(u, 80, 22);
    }
  }

  /** A pack header takes 4 to 21 bytes. */
  lemma PackSize(u: seq<Byte>, prevStuff: nat)
    ensures 4 <= DecodePack(u, prevStuff).size <= 21
  {
    PackShape(u, prevStuff);
  }

  /** The widths of the stuffing length and the mux rate. */
  lemma PackPowers()
    ensures Pow2(3) == 8 && Pow2(22) == 0x40_0000
  {
    Pow2Add(11, 11);
    Pow2Add(3, 8);
    Pow2Add(8, 3);
    assert Pow2(8) == 256;
    assert Pow2(11) == 2048;
  }

  // ---------------------------------------------------------------------
  // System header (`mpegd_parse_system_header`)

  function DecodeSystemHeader(u: seq<Byte>): SystemHeader
  {
    SystemHeader(Peek(u, 32, 16) + 6, Peek(u, 78, 1), Peek(u, 79, 1))
  }

  /** The header length counts the 6 bytes of start code and length field. */
  lemma SystemHeaderShape(u: seq<Byte>)
    ensures var h := DecodeSystemHeader(u);
      6 <= h.size <= 0xffff + 6 && h.fixed < 2 && h.csps < 2
  {
    PeekBound(u, 32, 16);
    PeekBound(u, 78, 1);
    PeekBound(u, 79, 1);
    Pow2Add(8, 8);
    assert Pow2(8) == 256;
  }

  // ---------------------------------------------------------------------
  // Packet header (`mpegd_parse_packet`, `mpegd_parse_packet1/2`)

  /** The last bit offset the stuffing scan may reach: 48 + 16 * 8 + 8. */
  const STUFF_LIMIT: nat := 184

  /**
   * The stuffing scan: skip 0xff bytes from bit offset i, stopping after
   * the step that passes bit 48 + 16 * 8.
   */
  function StuffingEnd(u: seq<Byte>, i: nat): nat
    decreases if i <= 176 then 177 - i else 0
  {
    if Peek(u, i, 8) == 0xff && i <= 48 + 16 * 8 then StuffingEnd(u, i + 8) else i
  }

  /** The scan ends on a byte boundary within the first 23 bytes. */
  lemma {:induction false} StuffingBounded(u: seq<Byte>, i: nat)
    requires 48 <= i <= 176 + 8 && i % 8 == 0
    ensures i <= StuffingEnd(u, i) <= STUFF_LIMIT && StuffingEnd(u, i) % 8 == 0
    ensures StuffingEnd(u, i) < STUFF_LIMIT ==> Peek(u, StuffingEnd(u, i), 8) != 0xff
    decreases if i <= 176 then 177 - i else 0
  {
    if Peek(u, i, 8) == 0xff && i <= 48 + 16 * 8 {
      StuffingBounded(u, i + 8);
    }
  }

  /**
   * The MPEG-1 packet header from bit offset i: an optional 2-byte STD
   * buffer field (tag 01), then PTS (nibble 0x2, 5 bytes), PTS and DTS
   * (nibble 0x3, 10 bytes) or the single byte 0x0f.
   */
  function Mpeg1Header(u: seq<Byte>, i: nat, p: Packet): Packet
  {
    Mpeg1Fields(u, if Peek(u, i, 2) == 0x01 then i + 16 else i, p)
  }

  /** The MPEG-1 header from bit i, past the STD buffer field. */
  function Mpeg1Fields(u: seq<Byte>, i: nat, p: Packet): Packet
  {
    var v := Peek(u, i, 8);
    if v / 16 == 0x2 then
      p.(ptype := 1, hasPts := true, pts := Stamp(u, i + 4), offset := (i + 40) / 8)
    else if v / 16 == 0x3 then
      p.(ptype := 1, hasPts := true, pts := Stamp(u, i + 4),
         hasDts := true, dts := Stamp(u, i + 44), offset := (i + 80) / 8)
    else if v == 0x0f then
      p.(ptype := 1, offset := (i + 8) / 8)
    else
      p.(ptype := 1, offset := i / 8)
  }

  /**
   * The MPEG-2 PES header from bit offset i: the PTS/DTS flags, the
   * header-data length, and the stamps, each taken only when its marker
   * nibble matches (2 for PTS alone, 3 for PTS with DTS, 1 for DTS).
   */
  function Mpeg2Header(u: seq<Byte>, i: nat, p: Packet): Packet
  {
    Mpeg2Fields(u, i, Peek(u, i + 8, 2), p.(ptype := 2, offset := (i + 8 * (Peek(u, i + 16, 8) + 3)) / 8))
  }

  /** The stamps of an MPEG-2 PES header, by its PTS/DTS flags. */
  function Mpeg2Fields(u: seq<Byte>, i: nat, flag: nat, p: Packet): Packet
  {
    if flag == 0x02 then WithPts(u, i, 0x02, p)
    else if flag == 0x03 then WithDts(u, i, WithPts(u, i, 0x03, p))
    else p
  }

  /** The MPEG-2 header, from its flags and header-data length once they are read. */
  lemma Mpeg2FromFields(u: seq<Byte>, i: nat, p0: Packet, flag: nat, cnt: nat, p: Packet)
    requires flag == Peek(u, i + 8, 2) && cnt == Peek(u, i + 16, 8)
    requires p == Mpeg2Fields(u, i, flag, p0.(ptype := 2, offset := (i + 8 * (cnt + 3)) / 8))
    ensures p == Mpeg2Header(u, i, p0)
  {
  }

  /** The PTS from bit i + 28, taken when the marker nibble at i + 24 is m. */
  function WithPts(u: seq<Byte>, i: nat, m: nat, p: Packet): Packet
  {
    if Peek(u, i + 24, 4) == m then p.(hasPts := true, pts := Stamp(u, i + 28)) else p
  }

  /** The DTS from bit i + 68, taken when the marker nibble at i + 64 is 1. */
  function WithDts(u: seq<Byte>, i: nat, p: Packet): Packet
  {
    if Peek(u, i + 64, 4) == 0x01 then p.(hasDts := true, dts := Stamp(u, i + 68)) else p
  }

  /** Stream ids 0xc0-0xef (audio, video) and 0xbd (private 1) carry a PES header. */
  predicate HasPesHeader(sid: nat)
  {
    (0xc0 <= sid < 0xf0) || sid == 0xbd
  }

  /** The packet header at the start of `u` (a packet start code 0x000001xx). */
  function DecodePacket(u: seq<Byte>): Packet
  {
    PacketAt(u, Peek(u, 24, 8), Peek(u, 32, 16))
  }

  /** The packet header of stream `sid` with length field `len`. */
  function PacketAt(u: seq<Byte>, sid: nat, len: nat): Packet
  {
    Labelled(u, sid, PesHeader(u, sid, Packet(0, sid, 0, len + 6, 6, false, 0, false, 0)))
  }

  /** In private stream 1, the substream id: the first byte after the header. */
  function Labelled(u: seq<Byte>, sid: nat, p: Packet): Packet
  {
    if sid == 0xbd then p.(ssid := Peek(u, 8 * p.offset, 8)) else p
  }

  /** The header fields after the length, by stream id: a PES header, or none. */
  function PesHeader(u: seq<Byte>, sid: nat, p: Packet): Packet
  {
    if HasPesHeader(sid) then PesFields(u, p)
    else if sid == 0xbe then p.(ptype := 1)
    else p
  }

  /** A PES header past the stuffing: MPEG-2 when it starts with bits 10, MPEG-1 otherwise. */
  function PesFields(u: seq<Byte>, p: Packet): Packet
  {
    var i := StuffingEnd(u, 48);
    if Peek(u, i, 2) == 0x02 then Mpeg2Header(u, i, p) else Mpeg1Header(u, i, p)
  }

  /** The packet header, from its stream id, length and PES fields once they are read. */
  lemma PacketFromFields(u: seq<Byte>, sid: nat, len: nat, q: Packet, p: Packet)
    requires sid == Peek(u, 24, 8) && len == Peek(u, 32, 16)
    requires q == PesHeader(u, sid, Packet(0, sid, 0, len + 6, 6, false, 0, false, 0))
    requires p == Labelled(u, sid, q)
    ensures p == DecodePacket(u)
  {
    assert p == PacketAt(u, sid, len);
  }

  /** The MPEG-1 header, from the STD buffer tag at bit i and the fields after it. */
  lemma Mpeg1FromFields(u: seq<Byte>, i: nat, std: nat, j: nat, p0: Packet, p: Packet)
    requires std == Peek(u, i, 2) && j == (if std == 0x01 then i + 16 else i)
    requires p == Mpeg1Fields(u, j, p0)
    ensures p == Mpeg1Header(u, i, p0)
  {
  }

  /** A PES header, from the end of the stuffing and the first two bits there. */
  lemma PesFromFields(u: seq<Byte>, i: nat, tag: nat, p0: Packet, p: Packet)
    requires i == StuffingEnd(u, 48) && tag == Peek(u, i, 2)
    requires p == if tag == 0x02 then Mpeg2Header(u, i, p0) else Mpeg1Header(u, i, p0)
    ensures p == PesFields(u, p0)
  {
  }

  /** The MPEG-1 layouts: how far each tag moves the payload offset. */
  lemma Mpeg1Layout(u: seq<Byte>, i: nat, p: Packet)
    requires i % 8 == 0
    ensures var j := if Peek(u, i, 2) == 0x01 then i + 16 else i;
      var v := Peek(u, j, 8);
      var q := Mpeg1Header(u, i, p);
      && q.ptype == 1 && q.sid == p.sid && q.size == p.size
      && (v / 16 == 0x2 ==> q.hasPts && q.pts == Stamp(u, j + 4) && q.offset == j / 8 + 5 && q.hasDts == p.hasDts)
      && (v / 16 == 0x3 ==> q.hasPts && q.hasDts && q.offset == j / 8 + 10)
      && (v == 0x0f ==> q.offset == j / 8 + 1 && q.hasPts == p.hasPts && q.hasDts == p.hasDts)
      && (v / 16 != 0x2 && v / 16 != 0x3 && v != 0x0f ==> q.offset == j / 8 && q.hasPts == p.hasPts)
  {
  }

  /** The MPEG-2 payload offset, and which markers let a stamp through. */
  lemma Mpeg2Layout(u: seq<Byte>, i: nat, p: Packet)
    requires i % 8 == 0
    ensures var q := Mpeg2Header(u, i, p);
      var flag := Peek(u, i + 8, 2);
      && q.ptype == 2 && q.sid == p.sid && q.size == p.size
      && q.offset == i / 8 + Peek(u, i + 16, 8) + 3
      && (q.hasPts && !p.hasPts ==>
            (flag == 0x02 && Peek(u, i + 24, 4) == 0x02) || (flag == 0x03 && Peek(u, i + 24, 4) == 0x03))
      && (q.hasDts && !p.hasDts ==> flag == 0x03 && Peek(u, i + 64, 4) == 0x01)
      && (q.hasPts && !p.hasPts ==> q.pts == Stamp(u, i + 28))
      && (q.hasDts && !p.hasDts ==> q.dts == Stamp(u, i + 68))
  {
  }

  /** Stamps a packet carries are 33-bit; a stamp it lacks is 0. */
  predicate StampsWellFormed(p: Packet)
  {
    && (p.hasPts ==> p.pts < CLOCK) && (p.hasDts ==> p.dts < CLOCK)
    && (!p.hasPts ==> p.pts == 0) && (!p.hasDts ==> p.dts == 0)
  }

  lemma Mpeg1Stamps(u: seq<Byte>, i: nat, p: Packet)
    requires StampsWellFormed(p)
    ensures StampsWellFormed(Mpeg1Header(u, i, p))
  {
    Mpeg1FieldStamps(u, if Peek(u, i, 2) == 0x01 then i + 16 else i, p);
  }

  lemma Mpeg1FieldStamps(u: seq<Byte>, j: nat, p: Packet)
    requires StampsWellFormed(p)
    ensures StampsWellFormed(Mpeg1Fields(u, j, p))
  {
    StampBound(u, j + 4);
    StampBound(u, j + 44);
  }

  lemma Mpeg1Bounds(u: seq<Byte>, i: nat, p: Packet)
    requires StampsWellFormed(p)
    ensures var q := Mpeg1Header(u, i, p);
      StampsWellFormed(q) && q.offset <= i / 8 + 12 && q.sid == p.sid && q.size == p.size && q.ssid == p.ssid
  {
    var j := if Peek(u, i, 2) == 0x01 then i + 16 else i;
    assert (i + 96) / 8 == i / 8 + 12;
    assert (j + 80) / 8 <= (i + 96) / 8;
    Mpeg1Stamps(u, i, p);
  }

  lemma Mpeg2Stamps(u: seq<Byte>, i: nat, p: Packet)
    requires StampsWellFormed(p)
    ensures StampsWellFormed(Mpeg2Header(u, i, p))
  {
    var q := p.(ptype := 2, offset := (i + 8 * (Peek(u, i + 16, 8) + 3)) / 8);
    OptionalStamps(u, i, 0x02, q);
    OptionalStamps(u, i, 0x03, q);
    OptionalStamps(u, i, 0x03, WithPts(u, i, 0x03, q));
  }

  lemma OptionalStamps(u: seq<Byte>, i: nat, m: nat, p: Packet)
    requires StampsWellFormed(p)
    ensures StampsWellFormed(WithPts(u, i, m, p)) && StampsWellFormed(WithDts(u, i, p))
  {
    StampBound(u, i + 28);
    StampBound(u, i + 68);
  }

  lemma Mpeg2Bounds(u: seq<Byte>, i: nat, p: Packet)
    requires StampsWellFormed(p)
    ensures var q := Mpeg2Header(u, i, p);
      StampsWellFormed(q) && q.offset <= i / 8 + 255 + 3 && q.sid == p.sid && q.size == p.size && q.ssid == p.ssid
  {
    var cnt := Peek(u, i + 16, 8);
    PeekBound(u, i + 16, 8);
    Pow2Small();
    assert (i + 8 * (cnt + 3)) / 8 <= i / 8 + 255 + 3;
    Mpeg2Stamps(u, i, p);
  }

  /** Sizes, offsets and stamps of any decoded packet header. */
  lemma PacketShape(u: seq<Byte>)
    ensures var p := DecodePacket(u);
      && p.sid == Peek(u, 24, 8) && p.sid < 256 && p.ssid < 256
      && p.size == Peek(u, 32, 16) + 6 && 6 <= p.size <= 0xffff + 6
      && (HasPesHeader(p.sid) || p.offset == 6)
      && p.offset <= STUFF_LIMIT / 8 + 255 + 3
      && (p.sid != 0xbd ==> p.ssid == 0)
      && StampsWellFormed(p)
  {
    PeekBound(u, 24, 8);
    PeekBound(u, 32, 16);
    Pow2Small();
    Pow2Word();
    var sid := Peek(u, 24, 8);
    var p0 := Packet(0, sid, 0, Peek(u, 32, 16) + 6, 6, false, 0, false, 0);
    PesShape(u, sid, p0);
    var q := PesHeader(u, sid, p0);
    assert DecodePacket(u) == Labelled(u, sid, q);
    if sid == 0xbd {
      PeekBound(u, 8 * q.offset, 8);
    }
  }

  /** The fields after the length keep the stream id, size and substream id, and bound the offset. */
  lemma PesShape(u: seq<Byte>, sid: nat, p0: Packet)
    requires StampsWellFormed(p0) && p0.offset == 6
    ensures var q := PesHeader(u, sid, p0);
      && StampsWellFormed(q) && q.sid == p0.sid && q.size == p0.size && q.ssid == p0.ssid
      && q.offset <= STUFF_LIMIT / 8 + 255 + 3
      && (HasPesHeader(sid) || q.offset == 6)
  {
    if HasPesHeader(sid) {
      var i := StuffingEnd(u, 48);
      StuffingBounded(u, 48);
      if Peek(u, i, 2) == 0x02 {
        Mpeg2Bounds(u, i, p0);
      } else {
        Mpeg1Bounds(u, i, p0);
      }
    }
  }
}
