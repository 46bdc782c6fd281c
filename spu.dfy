/**
 * The DVD subtitle re-packetizer `mpeg_demux_copy_spu`.  Subtitle units
 * (SPUs) start with a 16-bit big-endian length that counts itself and
 * may be split over several private-stream-1 packets.  In front of each
 * unit the demuxer writes the PTS of the packet the unit starts in, as
 * 8 big-endian bytes.  The two hidden statics of the C function are the
 * explicit state `SpuState`: `spucnt`, the bytes of the current unit
 * still to copy, and `half`, set when only the high length byte has been
 * seen.
 */
module Subtitles {
  import opened Bits

  // ---------------------------------------------------------------------
  // The PTS prefix

  /** The low n bytes of v, most significant first. */
  function BigEndian(v: nat, n: nat): (b: seq<Byte>)
    ensures |b| == n
  {
    if n == 0 then [] else [(v / Pow2(8 * (n - 1))) % 256] + BigEndian(v, n - 1)
  }

  /** The number a big-endian byte string spells. */
  function ValueOf(b: seq<Byte>): nat
  {
    if |b| == 0 then 0 else b[0] * Pow2(8 * (|b| - 1)) + ValueOf(b[1..])
  }

  lemma Pow2Byte(n: nat)
    ensures Pow2(8 * (n + 1)) == Pow2(8 * n) * 256
  {
    Pow2Add(8 * n, 8);
    assert Pow2(8) == 256;
  }

  /** Writing the low n bytes and reading them back gives v modulo 2^(8n). */
  lemma {:induction false} BigEndianRoundTrip(v: nat, n: nat)
    ensures ValueOf(BigEndian(v, n)) == v % Pow2(8 * n)
  {
    if n > 0 {
      var b := BigEndian(v, n);
      var p := Pow2(8 * (n - 1));
      assert b[1..] == BigEndian(v, n - 1);
      BigEndianRoundTrip(v, n - 1);
      assert ValueOf(b) == ((v / p) % 256) * p + v % p;
      DigitSplit(v, p, 256);
      Pow2Byte(n - 1);
    }
  }

  /**
   * The loop `buf[7 - i] = pts & 0xff; pts >>= 8` that lays out the
   * 64-bit PTS in front of a subtitle unit.
   */
  method StampBytes(pts: nat) returns (b: seq<Byte>)
    ensures b == BigEndian(pts, 8)
  {
    var a := new Byte[8];
    var v := pts;
    for i := 0 to 8
      invariant v == pts / Pow2(8 * i)
      invariant a[8 - i..] == BigEndian(pts, i)
    {
      a[7 - i] := v % 256;
      assert a[7 - i..] == [v % 256] + a[8 - i..];
      Pow2Byte(i);
      DivDiv(pts, Pow2(8 * i), 256);
      v := v / 256;
    }
    b := a[..];
  }

  // ---------------------------------------------------------------------
  // The state machine

  datatype SpuState = SpuState(spucnt: nat, half: bool)

  /** A 16-bit length from its high and low byte. */
  function Len(hi: nat, lo: nat): nat
  {
    hi * 256 + lo
  }

  /** What one call writes, the state it leaves, and its return value. */
  datatype Repacked = Repacked(out: seq<Byte>, state: SpuState, status: nat)

  function Prefix(b: seq<Byte>, r: Repacked): Repacked
  {
    r.(out := b + r.out)
  }

  /**
   * The `while (cnt > 0)` loop over the payload `data`: at the start of a
   * unit, the PTS and the length; a length below 2 fails; a lone last
   * byte is the high length byte and sets `half`; otherwise
   * min(cnt, spucnt) bytes of the unit are copied.
   */
  function Body(spucnt: nat, pts: nat, data: seq<Byte>): (r: Repacked)
    decreases |data|
  {
    if |data| == 0 then Repacked([], SpuState(spucnt, false), 0)
    else if spucnt == 0 then
      var stamp := BigEndian(pts, 8);
      if |data| == 1 then Repacked(stamp + data, SpuState(data[0], true), 0)
      else
        var len := Len(data[0], data[1]);
        if len < 2 then Repacked(stamp + data[..2], SpuState(len, false), 1)
        else Prefix(stamp + data[..2], Body(len - 2, pts, data[2..]))
    else
      var n := Min(|data|, spucnt);
      Prefix(data[..n], Body(spucnt - n, pts, data[n..]))
  }

  /**
   * One call of `mpeg_demux_copy_spu` on the payload `data` of a packet
   * whose PTS is `pts`.  With `half` set, the first byte completes the
   * length; a completed length below 2 is refused like on the full path,
   * and an empty payload leaves the pending length alone.
   */
  function Repack(st: SpuState, pts: nat, data: seq<Byte>): Repacked
  {
    if st.half && |data| > 0 then
      var len := Len(st.spucnt, data[0]);
      if len < 2 then Repacked(data[..1], SpuState(len, false), 1)
      else Prefix(data[..1], Body(len - 2, pts, data[1..]))
    else if st.half then Repacked([], st, 0)
    else Body(st.spucnt, pts, data)
  }

  /**
   * The half path as written: the low length byte is shifted in under
   * the pending high byte, then 2 is taken off the unit length and 1 off
   * the payload count, all on 32-bit unsigned values and with no check
   * of either.  Returns the new unit length and payload count.
   */
  function ResumeAsWritten(spucnt: nat, b: Byte, cnt: nat): (r: (nat, nat))
    ensures r.0 < WORD && r.1 < WORD
  {
    var len := ((spucnt * 256) % WORD + b) % WORD;
    ((len + WORD - 2) % WORD, (cnt + WORD - 1) % WORD)
  }

  // ---------------------------------------------------------------------
  // Properties

  /**
   * The reachable states: a pending high length byte, or the rest of a
   * unit whose length field is 16 bits.
   */
  predicate Bounded(st: SpuState)
  {
    if st.half then st.spucnt < 256 else st.spucnt < 0x1_0000
  }

  lemma {:induction false} BodyBounded(spucnt: nat, pts: nat, data: seq<Byte>)
    requires spucnt < 0x1_0000
    ensures Bounded(Body(spucnt, pts, data).state)
    decreases |data|
  {
    if |data| > 0 {
      if spucnt == 0 {
        if |data| > 1 && Len(data[0], data[1]) >= 2 {
          BodyBounded(Len(data[0], data[1]) - 2, pts, data[2..]);
        }
      } else {
        var n := Min(|data|, spucnt);
        BodyBounded(spucnt - n, pts, data[n..]);
      }
    }
  }

  /** Every call keeps the state reachable: `spucnt` never wraps around. */
  lemma RepackBounded(st: SpuState, pts: nat, data: seq<Byte>)
    requires Bounded(st)
    ensures Bounded(Repack(st, pts, data).state)
  {
    if st.half && |data| > 0 {
      var len := Len(st.spucnt, data[0]);
      assert len < 0x1_0000;
      if len >= 2 {
        BodyBounded(len - 2, pts, data[1..]);
      }
    } else if !st.half {
      BodyBounded(st.spucnt, pts, data);
    }
  }

  /**
   * As written, a length completed on the half path that is below 2
   * wraps `spucnt` to 2^32 - 1, and an empty payload wraps `cnt`.
   */
  lemma HalfPathWrapsAsWritten()
    ensures ResumeAsWritten(0, 1, 2) == (WORD - 1, 1)
    ensures ResumeAsWritten(0, 0, 2).0 == WORD - 2
    ensures ResumeAsWritten(0, 9, 0).1 == WORD - 1
    ensures !Bounded(SpuState(ResumeAsWritten(0, 1, 2).0, false))
  {
  }

  /** The same inputs, corrected: the short length fails, the empty payload waits. */
  lemma HalfPathChecked(pts: nat, x: Byte)
    ensures Repack(SpuState(0, true), pts, [1, x]) == Repacked([1], SpuState(1, false), 1)
    ensures Repack(SpuState(0, true), pts, []) == Repacked([], SpuState(0, true), 0)
  {
    assert [1, x][..1] == [1];
  }

  lemma {:induction false} BodyCopies(s: nat, pts: nat, d1: seq<Byte>, d2: seq<Byte>)
    requires 0 < |d1| < s
    ensures Body(s, pts, d1 + d2) == Prefix(d1, Body(s - |d1|, pts, d2))
  {
    var d := d1 + d2;
    if |d2| == 0 {
      assert d == d1;
      assert d1[|d1|..] == [];
      assert d1[..|d1|] == d1;
    } else {
      var m := Min(|d2|, s - |d1|);
      var n := |d1| + m;
      assert Min(|d|, s) == n;
      assert d[..n] == d1 + d2[..m];
      assert d[n..] == d2[m..];
    }
  }

  /**
   * Splitting a payload after `d1` does not change the output: `d1`, then
   * `d2` resumed from the state `d1` left, writes exactly what `d1 + d2`
   * writes in one go, unless `d1` already failed.
   */
  predicate Chain(s: nat, pts: nat, d1: seq<Byte>, d2: seq<Byte>)
  {
    var r1 := Body(s, pts, d1);
    r1.status == 0 ==> Body(s, pts, d1 + d2) == Prefix(r1.out, Repack(r1.state, pts, d2))
  }

  lemma PrefixPrefix(a: seq<Byte>, b: seq<Byte>, r: Repacked)
    ensures Prefix(a, Prefix(b, r)) == Prefix(a + b, r)
  {
    assert a + (b + r.out) == (a + b) + r.out;
  }

  /** The payload ends after the high length byte. */
  lemma ChainHigh(pts: nat, d1: seq<Byte>, d2: seq<Byte>)
    requires |d1| == 1
    ensures Chain(0, pts, d1, d2)
  {
    var d := d1 + d2;
    var stamp := BigEndian(pts, 8);
    if |d2| > 0 {
      assert d[..2] == d1 + d2[..1];
      assert d[2..] == d2[1..];
      var len := Len(d1[0], d2[0]);
      if len >= 2 {
        PrefixPrefix(stamp + d1, d2[..1], Body(len - 2, pts, d2[1..]));
        assert stamp + d[..2] == (stamp + d1) + d2[..1];
      } else {
        assert stamp + d[..2] == (stamp + d1) + d2[..1];
      }
    } else {
      assert d == d1;
    }
  }

  /** A split payload behind b: the split of the part after b carries over. */
  lemma PrefixChain(b: seq<Byte>, s: nat, pts: nat, e: seq<Byte>, d2: seq<Byte>)
    requires Chain(s, pts, e, d2) && Body(s, pts, e).status == 0
    ensures Prefix(b, Body(s, pts, e + d2))
         == Prefix(Prefix(b, Body(s, pts, e)).out, Repack(Body(s, pts, e).state, pts, d2))
  {
    var r := Body(s, pts, e);
    PrefixPrefix(b, r.out, Repack(r.state, pts, d2));
  }

  /** The payload holds a whole length field of a new unit. */
  lemma ChainStart(pts: nat, d1: seq<Byte>, d2: seq<Byte>)
    requires |d1| >= 2 && Len(d1[0], d1[1]) >= 2
    requires Chain(Len(d1[0], d1[1]) - 2, pts, d1[2..], d2)
    ensures Chain(0, pts, d1, d2)
  {
    var b, rest, r := StartParts(pts, d1, d2);
    ChainGlue(b, Body(0, pts, d1 + d2), Body(0, pts, d1), rest, r, Repack(r.state, pts, d2));
  }

  /**
   * The pieces of a payload split after a whole length field: the PTS and
   * the field b, then the unit's rest over the whole and over the first part.
   */
  lemma StartParts(pts: nat, d1: seq<Byte>, d2: seq<Byte>) returns (b: seq<Byte>, rest: Repacked, r: Repacked)
    requires |d1| >= 2 && Len(d1[0], d1[1]) >= 2
    requires Chain(Len(d1[0], d1[1]) - 2, pts, d1[2..], d2)
    ensures Body(0, pts, d1 + d2) == Prefix(b, rest) && Body(0, pts, d1) == Prefix(b, r)
    ensures r.status == 0 ==> rest == Prefix(r.out, Repack(r.state, pts, d2))
  {
    var len := Len(d1[0], d1[1]);
    b, rest, r := BigEndian(pts, 8) + d1[..2], Body(len - 2, pts, d1[2..] + d2), Body(len - 2, pts, d1[2..]);
    BodyStartSplit(pts, d1, d2);
    BodyStart(pts, d1);
  }

  /**
   * Both the whole payload and its first part start with b; the rest of
   * the whole is the rest of the part followed by tail.
   */
  lemma ChainGlue(b: seq<Byte>, whole: Repacked, part: Repacked, rest: Repacked, r: Repacked, tail: Repacked)
    requires whole == Prefix(b, rest) && part == Prefix(b, r)
    requires r.status == 0 ==> rest == Prefix(r.out, tail)
    ensures part.state == r.state && part.status == r.status
    ensures part.status == 0 ==> whole == Prefix(part.out, tail)
  {
    if r.status == 0 {
      PrefixPrefix(b, r.out, tail);
    }
  }

  /** `BodyStart` on a payload that goes on past d1. */
  lemma BodyStartSplit(pts: nat, d1: seq<Byte>, d2: seq<Byte>)
    requires |d1| >= 2 && Len(d1[0], d1[1]) >= 2
    ensures Body(0, pts, d1 + d2)
         == Prefix(BigEndian(pts, 8) + d1[..2], Body(Len(d1[0], d1[1]) - 2, pts, d1[2..] + d2))
  {
    SplitAt(2, d1, d2);
    assert (d1 + d2)[0] == d1[0] && (d1 + d2)[1] == d1[1];
    BodyStart(pts, d1 + d2);
  }

  /** At the start of a unit, the PTS and the length field go out, then the unit. */
  lemma BodyStart(pts: nat, d: seq<Byte>)
    requires |d| >= 2 && Len(d[0], d[1]) >= 2
    ensures Body(0, pts, d) == Prefix(BigEndian(pts, 8) + d[..2], Body(Len(d[0], d[1]) - 2, pts, d[2..]))
  {
  }

  /** The payload holds the rest of the current unit. */
  lemma ChainRest(s: nat, pts: nat, d1: seq<Byte>, d2: seq<Byte>)
    requires 0 < s <= |d1|
    requires Chain(0, pts, d1[s..], d2)
    ensures Chain(s, pts, d1, d2)
  {
    var d := d1 + d2;
    assert d[..s] == d1[..s];
    assert d[s..] == d1[s..] + d2;
    if Body(0, pts, d1[s..]).status == 0 {
      PrefixChain(d1[..s], 0, pts, d1[s..], d2);
    }
  }

  /** The payload ends inside the current unit. */
  lemma ChainInside(s: nat, pts: nat, d1: seq<Byte>, d2: seq<Byte>)
    requires 0 < |d1| < s
    ensures Chain(s, pts, d1, d2)
  {
    BodyCopies(s, pts, d1, d2);
    BodyCopies(s, pts, d1, []);
    assert d1 + [] == d1;
  }

  /** Splitting a payload anywhere does not change the output. */
  lemma {:induction false} BodyChain(s: nat, pts: nat, d1: seq<Byte>, d2: seq<Byte>)
    ensures Chain(s, pts, d1, d2)
    decreases |d1|
  {
    if |d1| == 0 {
      assert d1 + d2 == d2;
    } else if s == 0 {
      if |d1| == 1 {
        ChainHigh(pts, d1, d2);
      } else if Len(d1[0], d1[1]) >= 2 {
        BodyChain(Len(d1[0], d1[1]) - 2, pts, d1[2..], d2);
        ChainStart(pts, d1, d2);
      }
    } else if |d1| >= s {
      BodyChain(0, pts, d1[s..], d2);
      ChainRest(s, pts, d1, d2);
    } else {
      ChainInside(s, pts, d1, d2);
    }
  }

  /** The same for whole calls: a packet boundary may fall anywhere in a unit. */
  lemma RepackChain(st: SpuState, pts: nat, d1: seq<Byte>, d2: seq<Byte>)
    requires Repack(st, pts, d1).status == 0
    ensures Repack(st, pts, d1 + d2)
         == Prefix(Repack(st, pts, d1).out, Repack(Repack(st, pts, d1).state, pts, d2))
  {
    if st.half && |d1| > 0 {
      assert Len(st.spucnt, d1[0]) >= 2;
      RepackChainLow(st, pts, d1, d2);
    } else if st.half {
      assert d1 + d2 == d2;
    } else {
      BodyChain(st.spucnt, pts, d1, d2);
    }
  }

  /** The first payload completes a pending length. */
  lemma RepackChainLow(st: SpuState, pts: nat, d1: seq<Byte>, d2: seq<Byte>)
    requires st.half && |d1| > 0 && Len(st.spucnt, d1[0]) >= 2
    requires Body(Len(st.spucnt, d1[0]) - 2, pts, d1[1..]).status == 0
    ensures Repack(st, pts, d1 + d2)
         == Prefix(Repack(st, pts, d1).out, Repack(Repack(st, pts, d1).state, pts, d2))
  {
    var b, rest, r := HalfParts(st, pts, d1, d2);
    ChainGlue(b, Repack(st, pts, d1 + d2), Repack(st, pts, d1), rest, r, Repack(r.state, pts, d2));
  }

  /**
   * The pieces of a payload split after a completed length: the low
   * byte b, then the unit's rest over the whole and over the first part.
   */
  lemma HalfParts(st: SpuState, pts: nat, d1: seq<Byte>, d2: seq<Byte>) returns (b: seq<Byte>, rest: Repacked, r: Repacked)
    requires st.half && |d1| > 0 && Len(st.spucnt, d1[0]) >= 2
    ensures Repack(st, pts, d1 + d2) == Prefix(b, rest) && Repack(st, pts, d1) == Prefix(b, r)
    ensures r.status == 0 ==> rest == Prefix(r.out, Repack(r.state, pts, d2))
  {
    var len := Len(st.spucnt, d1[0]);
    b, rest, r := d1[..1], Body(len - 2, pts, d1[1..] + d2), Body(len - 2, pts, d1[1..]);
    RepackLowSplit(st, pts, d1, d2);
    RepackLow(st, pts, d1);
    BodyChain(len - 2, pts, d1[1..], d2);
  }

  /** `RepackLow` on a payload that goes on past d1. */
  lemma RepackLowSplit(st: SpuState, pts: nat, d1: seq<Byte>, d2: seq<Byte>)
    requires st.half && |d1| > 0 && Len(st.spucnt, d1[0]) >= 2
    ensures Repack(st, pts, d1 + d2) == Prefix(d1[..1], Body(Len(st.spucnt, d1[0]) - 2, pts, d1[1..] + d2))
  {
    SplitAt(1, d1, d2);
    assert (d1 + d2)[0] == d1[0];
    RepackLow(st, pts, d1 + d2);
  }

  /** With a pending high byte, the first byte completes the length and the unit goes on. */
  lemma RepackLow(st: SpuState, pts: nat, d: seq<Byte>)
    requires st.half && |d| > 0 && Len(st.spucnt, d[0]) >= 2
    ensures Repack(st, pts, d) == Prefix(d[..1], Body(Len(st.spucnt, d[0]) - 2, pts, d[1..]))
  {
  }

  /** A concatenation cut inside its first part. */
  lemma SplitAt(k: nat, d1: seq<Byte>, d2: seq<Byte>)
    requires k <= |d1|
    ensures (d1 + d2)[..k] == d1[..k] && (d1 + d2)[k..] == d1[k..] + d2
  {
    assert (d1 + d2)[..k] == d1[..k];
    assert (d1 + d2)[k..] == d1[k..] + d2;
  }

  /** A four-byte unit in one packet: the PTS, then the unit unchanged. */
  lemma WholeUnit(pts: nat, a: Byte, b: Byte)
    ensures Repack(SpuState(0, false), pts, [0, 4, a, b])
         == Repacked(BigEndian(pts, 8) + [0, 4, a, b], SpuState(0, false), 0)
  {
    var d: seq<Byte> := [0, 4, a, b];
    var stamp := BigEndian(pts, 8);
    assert d[..2] == [0, 4] && d[2..] == [a, b];
    assert [a, b][..2] == [a, b] && [a, b][2..] == [];
    assert Body(2, pts, [a, b]) == Repacked([a, b], SpuState(0, false), 0);
    assert Body(0, pts, d) == Prefix(stamp + [0, 4], Body(2, pts, [a, b]));
    assert (stamp + [0, 4]) + [a, b] == stamp + d;
  }

  /** The same unit with the length split over two packets. */
  lemma SplitLength(pts: nat, pts2: nat, a: Byte, b: Byte)
    ensures Repack(SpuState(0, false), pts, [0]) == Repacked(BigEndian(pts, 8) + [0], SpuState(0, true), 0)
    ensures Repack(SpuState(0, true), pts2, [4, a, b]) == Repacked([4, a, b], SpuState(0, false), 0)
  {
    var d: seq<Byte> := [4, a, b];
    assert d[..1] == [4] && d[1..] == [a, b];
    assert [a, b][..2] == [a, b] && [a, b][2..] == [];
    assert Body(2, pts2, [a, b]) == Repacked([a, b], SpuState(0, false), 0);
    assert Repack(SpuState(0, true), pts2, d) == Prefix([4], Body(2, pts2, [a, b]));
  }

  // ---------------------------------------------------------------------
  // The imperative re-packetizer

  /** One step of `Body` at the start of a unit whose length is complete and valid. */
  lemma UnitStartStep(w: seq<Byte>, pts: nat, rest: seq<Byte>)
    requires |rest| >= 2 && Len(rest[0], rest[1]) >= 2
    ensures Prefix(w, Body(0, pts, rest))
         == Prefix(w + (BigEndian(pts, 8) + rest[..2]), Body(Len(rest[0], rest[1]) - 2, pts, rest[2..]))
  {
    PrefixPrefix(w, BigEndian(pts, 8) + rest[..2], Body(Len(rest[0], rest[1]) - 2, pts, rest[2..]));
  }

  /** One step of `Body` inside a unit: the bytes of the unit that are there are copied. */
  lemma UnitCopyStep(w: seq<Byte>, s: nat, pts: nat, rest: seq<Byte>)
    requires s > 0 && |rest| > 0
    ensures Prefix(w, Body(s, pts, rest))
         == Prefix(w + rest[..Min(|rest|, s)], Body(s - Min(|rest|, s), pts, rest[Min(|rest|, s)..]))
  {
    var n := Min(|rest|, s);
    PrefixPrefix(w, rest[..n], Body(s - n, pts, rest[n..]));
  }

  /** The last step of `Body` when only the high length byte is left. */
  lemma HighByteStep(w: seq<Byte>, pts: nat, rest: seq<Byte>)
    requires |rest| == 1
    ensures Prefix(w, Body(0, pts, rest)) == Repacked(w + (BigEndian(pts, 8) + rest), SpuState(rest[0], true), 0)
  {
  }

  /** The last step of `Body` when a unit's length is below 2. */
  lemma ShortLengthStep(w: seq<Byte>, pts: nat, rest: seq<Byte>)
    requires |rest| >= 2 && Len(rest[0], rest[1]) < 2
    ensures Prefix(w, Body(0, pts, rest))
         == Repacked(w + (BigEndian(pts, 8) + rest[..2]), SpuState(Len(rest[0], rest[1]), false), 1)
  {
  }

  /** The statics of `mpeg_demux_copy_spu`. */
  class SpuPacker {
    var spucnt: nat
    var half: bool

    /** Both statics start at 0. */
    constructor ()
      ensures spucnt == 0 && !half
    {
      spucnt := 0;
      half := false;
    }

    function State(): SpuState
      reads this
    {
      SpuState(spucnt, half)
    }

    /**
     * `mpeg_demux_copy_spu(mpeg, fp, cnt)` where `data` is the payload
     * of the current packet: `written` is what goes to `fp`.
     */
    method Copy(pts: nat, data: seq<Byte>) returns (written: seq<Byte>, status: nat)
      modifies this
      ensures Repack(old(State()), pts, data) == Repacked(written, State(), status)
    {
      if !half {
        written, status := CopyUnits(pts, data);
        return;
      }
      if |data| == 0 {
        return [], 0;
      }
      var len := Len(spucnt, data[0]);
      half := false;
      spucnt := len;
      if len < 2 {
        return data[..1], 1;
      }
      spucnt := len - 2;
      var rest;
      rest, status := CopyUnits(pts, data[1..]);
      written := data[..1] + rest;
    }

    /**
     * The `while (cnt > 0)` loop: `rest` holds the `cnt` payload bytes
     * not yet read.
     */
    method CopyUnits(pts: nat, data: seq<Byte>) returns (written: seq<Byte>, status: nat)
      requires !half
      modifies this
      ensures Body(old(spucnt), pts, data) == Repacked(written, State(), status)
    {
      ghost var goal := Body(spucnt, pts, data);
      written := [];
      var rest := data;
      while |rest| > 0
        invariant !half
        invariant goal == Prefix(written, Body(spucnt, pts, rest))
      {
        if spucnt == 0 {
          var stamp := StampBytes(pts);
          if |rest| == 1 {
            HighByteStep(written, pts, rest);
            written := written + (stamp + rest);
            spucnt, half := rest[0], true;
            return written, 0;
          }
          var len := Len(rest[0], rest[1]);
          if len < 2 {
            ShortLengthStep(written, pts, rest);
            written := written + (stamp + rest[..2]);
            spucnt := len;
            return written, 1;
          }
          UnitStartStep(written, pts, rest);
          written := written + (stamp + rest[..2]);
          spucnt := len - 2;
          rest := rest[2..];
        } else {
          var n := Min(|rest|, spucnt);
          UnitCopyStep(written, spucnt, pts, rest);
          written := written + rest[..n];
          spucnt := spucnt - n;
          rest := rest[n..];
        }
      }
      assert written + [] == written;
      return written, 0;
    }
  }
}
