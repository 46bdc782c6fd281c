/**
 * The header reads of `mpegd_parse_pack`, `mpegd_parse_system_header`,
 * `mpegd_parse_packet`, `mpegd_parse_packet1` and `mpegd_parse_packet2`:
 * each field is a `get_bits` call at the cursor, which does not move.
 * Each method delivers exactly the header the decoding functions of
 * `Headers` describe.
 */
module Decoding {
  import opened Bits
  import opened Headers
  import Lookahead

  /** `((get_bits(i,3) << 15 | get_bits(i+4,15)) << 15) | get_bits(i+20,15)`. */
  method ReadStamp(c: Lookahead.Cursor, i: nat) returns (v: nat)
    requires c.Valid()
    modifies c, c.buf
    ensures c.Valid() && c.Unread() == old(c.Unread()) && c.ofs == old(c.ofs)
    ensures v == Stamp(c.Unread(), i) && v < CLOCK
  {
    var a := c.GetBits(i, 3);
    var b := c.GetBits(i + 4, 15);
    var d := c.GetBits(i + 20, 15);
    v := (a * 0x8000 + b) * 0x8000 + d;
    StampBound(c.Unread(), i);
  }

  /** The first half of `mpegd_parse_pack`: the pack header after the start code. */
  method ReadPack(c: Lookahead.Cursor, prevStuff: nat) returns (p: Pack)
    requires c.Valid()
    modifies c, c.buf
    ensures c.Valid() && c.Unread() == old(c.Unread()) && c.ofs == old(c.ofs)
    ensures p == DecodePack(c.Unread(), prevStuff)
  {
    var t4 := c.GetBits(32, 4);
    if t4 == 0x02 {
      var scr := ReadStamp(c, 36);
      var mux := c.GetBits(73, 22);
      p := Pack(12, 1, scr, mux, 0);
    } else {
      var t2 := c.GetBits(32, 2);
      if t2 == 0x01 {
        var scr := ReadStamp(c, 34);
        var mux := c.GetBits(80, 22);
        var stuff := c.GetBits(109, 3);
        p := Pack(14 + stuff, 2, scr, mux, stuff);
      } else {
        p := Pack(4, 0, 0, 0, prevStuff);
      }
    }
  }

  /** The fields of `mpegd_parse_system_header`. */
  method ReadSystemHeader(c: Lookahead.Cursor) returns (h: SystemHeader)
    requires c.Valid()
    modifies c, c.buf
    ensures c.Valid() && c.Unread() == old(c.Unread()) && c.ofs == old(c.ofs)
    ensures h == DecodeSystemHeader(c.Unread())
  {
    var len := c.GetBits(32, 16);
    var fixed := c.GetBits(78, 1);
    var csps := c.GetBits(79, 1);
    h := SystemHeader(len + 6, fixed, csps);
  }

  /** `mpegd_parse_packet1(mpeg, i)`: the MPEG-1 packet header from bit i. */
  method ReadMpeg1(c: Lookahead.Cursor, i: nat, p0: Packet) returns (p: Packet)
    requires c.Valid()
    modifies c, c.buf
    ensures c.Valid() && c.Unread() == old(c.Unread()) && c.ofs == old(c.ofs)
    ensures p == Mpeg1Header(c.Unread(), i, p0)
  {
    ghost var u := c.Unread();
    var j := i;
    var std := c.GetBits(j, 2);
    if std == 0x01 {
      j := j + 16;
    }
    var v := c.GetBits(j, 8);
    p := Mpeg1Read(c, j, v, p0);
    Mpeg1FromFields(u, i, std, j, p0, p);
  }

  /** The rest of `mpegd_parse_packet1`, once the byte v at bit j is known. */
  method Mpeg1Read(c: Lookahead.Cursor, j: nat, v: nat, p0: Packet) returns (p: Packet)
    requires c.Valid() && v == Peek(c.Unread(), j, 8)
    modifies c, c.buf
    ensures c.Valid() && c.Unread() == old(c.Unread()) && c.ofs == old(c.ofs)
    ensures p == Mpeg1Fields(c.Unread(), j, p0)
  {
    if v / 16 == 0x2 {
      p := Mpeg1Pts(c, j, v, p0);
    } else if v / 16 == 0x3 {
      p := Mpeg1PtsDts(c, j, v, p0);
    } else if v == 0x0f {
      p := p0.(ptype := 1, offset := (j + 8) / 8);
    } else {
      p := p0.(ptype := 1, offset := j / 8);
    }
  }

  /** Nibble 0x2: a PTS in the 5 bytes from bit j. */
  method Mpeg1Pts(c: Lookahead.Cursor, j: nat, v: nat, p0: Packet) returns (p: Packet)
    requires c.Valid() && v == Peek(c.Unread(), j, 8) && v / 16 == 0x2
    modifies c, c.buf
    ensures c.Valid() && c.Unread() == old(c.Unread()) && c.ofs == old(c.ofs)
    ensures p == Mpeg1Fields(c.Unread(), j, p0)
  {
    var pts := ReadStamp(c, j + 4);
    p := p0.(ptype := 1, hasPts := true, pts := pts, offset := (j + 40) / 8);
  }

  /** Nibble 0x3: a PTS and a DTS in the 10 bytes from bit j. */
  method Mpeg1PtsDts(c: Lookahead.Cursor, j: nat, v: nat, p0: Packet) returns (p: Packet)
    requires c.Valid() && v == Peek(c.Unread(), j, 8) && v / 16 == 0x3
    modifies c, c.buf
    ensures c.Valid() && c.Unread() == old(c.Unread()) && c.ofs == old(c.ofs)
    ensures p == Mpeg1Fields(c.Unread(), j, p0)
  {
    var pts := ReadStamp(c, j + 4);
    var dts := ReadStamp(c, j + 44);
    p := p0.(ptype := 1, hasPts := true, pts := pts, hasDts := true, dts := dts, offset := (j + 80) / 8);
  }

  /** `mpegd_parse_packet2(mpeg, i)`: the MPEG-2 PES header from bit i. */
  method ReadMpeg2(c: Lookahead.Cursor, i: nat, p0: Packet) returns (p: Packet)
    requires c.Valid()
    modifies c, c.buf
    ensures c.Valid() && c.Unread() == old(c.Unread()) && c.ofs == old(c.ofs)
    ensures p == Mpeg2Header(c.Unread(), i, p0)
  {
    ghost var u := c.Unread();
    var flag := c.GetBits(i + 8, 2);
    var cnt := c.GetBits(i + 16, 8);
    p := Mpeg2Stamps(c, i, flag, p0.(ptype := 2, offset := (i + 8 * (cnt + 3)) / 8));
    Mpeg2FromFields(u, i, p0, flag, cnt, p);
  }

  /** The stamps of an MPEG-2 PES header, by the PTS/DTS flags at bit i + 8. */
  method Mpeg2Stamps(c: Lookahead.Cursor, i: nat, flag: nat, p0: Packet) returns (p: Packet)
    requires c.Valid()
    modifies c, c.buf
    ensures c.Valid() && c.Unread() == old(c.Unread()) && c.ofs == old(c.ofs)
    ensures p == Mpeg2Fields(c.Unread(), i, flag, p0)
  {
    p := p0;
    if flag == 0x02 {
      p := OptionalPts(c, i, 0x02, p);
    } else if flag == 0x03 {
      p := OptionalPts(c, i, 0x03, p);
      p := OptionalDts(c, i, p);
    }
  }

  /** The PTS from bit i + 28, taken when the marker nibble at i + 24 is m. */
  method OptionalPts(c: Lookahead.Cursor, i: nat, m: nat, p0: Packet) returns (p: Packet)
    requires c.Valid()
    modifies c, c.buf
    ensures c.Valid() && c.Unread() == old(c.Unread()) && c.ofs == old(c.ofs)
    ensures p == WithPts(c.Unread(), i, m, p0)
  {
    var marker := c.GetBits(i + 24, 4);
    p := p0;
    if marker == m {
      var pts := ReadStamp(c, i + 28);
      p := p.(hasPts := true, pts := pts);
    }
  }

  /** The DTS from bit i + 68, taken when the marker nibble at i + 64 is 1. */
  method OptionalDts(c: Lookahead.Cursor, i: nat, p0: Packet) returns (p: Packet)
    requires c.Valid()
    modifies c, c.buf
    ensures c.Valid() && c.Unread() == old(c.Unread()) && c.ofs == old(c.ofs)
    ensures p == WithDts(c.Unread(), i, p0)
  {
    var marker := c.GetBits(i + 64, 4);
    p := p0;
    if marker == 0x01 {
      var dts := ReadStamp(c, i + 68);
      p := p.(hasDts := true, dts := dts);
    }
  }

  /**
   * The header reads of `mpegd_parse_packet`: stream id and length, the
   * header fields by stream id, and the substream id of private stream 1.
   */
  method ReadPacket(c: Lookahead.Cursor) returns (p: Packet)
    requires c.Valid()
    modifies c, c.buf
    ensures c.Valid() && c.Unread() == old(c.Unread()) && c.ofs == old(c.ofs)
    ensures p == DecodePacket(c.Unread())
  {
    ghost var u := c.Unread();
    var sid := c.GetBits(24, 8);
    var len := c.GetBits(32, 16);
    var q := ReadPesHeader(c, sid, Packet(0, sid, 0, len + 6, 6, false, 0, false, 0));
    p := q;
    if sid == 0xbd {
      var ssid := c.GetBits(8 * q.offset, 8);
      p := q.(ssid := ssid);
    }
    PacketFromFields(u, sid, len, q, p);
  }

  /** Stream ids with a PES header read one; 0xbe is MPEG-1 padding; the rest have none. */
  method ReadPesHeader(c: Lookahead.Cursor, sid: nat, p0: Packet) returns (p: Packet)
    requires c.Valid()
    modifies c, c.buf
    ensures c.Valid() && c.Unread() == old(c.Unread()) && c.ofs == old(c.ofs)
    ensures p == PesHeader(c.Unread(), sid, p0)
  {
    if HasPesHeader(sid) {
      p := ReadPes(c, p0);
    } else if sid == 0xbe {
      p := p0.(ptype := 1);
    } else {
      p := p0;
    }
  }

  /** The stuffing scan, then the MPEG-2 or the MPEG-1 header. */
  method ReadPes(c: Lookahead.Cursor, p0: Packet) returns (p: Packet)
    requires c.Valid()
    modifies c, c.buf
    ensures c.Valid() && c.Unread() == old(c.Unread()) && c.ofs == old(c.ofs)
    ensures p == PesFields(c.Unread(), p0)
  {
    ghost var u := c.Unread();
    var i := Stuffing(c);
    var tag := c.GetBits(i, 2);
    if tag == 0x02 {
      p := ReadMpeg2(c, i, p0);
    } else {
      p := ReadMpeg1(c, i, p0);
    }
    PesFromFields(u, i, tag, p0, p);
  }

  /** The stuffing loop of `mpegd_parse_packet`: 0xff bytes from bit 48 are passed over. */
  method Stuffing(c: Lookahead.Cursor) returns (i: nat)
    requires c.Valid()
    modifies c, c.buf
    ensures c.Valid() && c.Unread() == old(c.Unread()) && c.ofs == old(c.ofs)
    ensures i == StuffingEnd(c.Unread(), 48)
  {
    ghost var u := c.Unread();
    i := 48;
    var b := c.GetBits(i, 8);
    while b == 0xff
      invariant c.Valid() && c.Unread() == u && c.ofs == old(c.ofs)
      invariant 48 <= i <= 48 + 16 * 8 + 8 && StuffingEnd(u, i) == StuffingEnd(u, 48)
      invariant b == Peek(u, i, 8)
      decreases 48 + 16 * 8 + 8 - i
    {
      if i > 48 + 16 * 8 {
        break;
      }
      i := i + 8;
      b := c.GetBits(i, 8);
    }
  }
}
