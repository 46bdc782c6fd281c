/**
 * The arithmetic of the four packet handlers the parser calls back into:
 * where the demuxer sends a packet and how much of it it skips, how the
 * remuxer renumbers a packet, when the scanner reports a packet and how
 * its lowest-PTS tables move, and how the lister folds runs of skipped
 * bytes into one line.
 */
module Handlers {
  import opened Wrappers
  import opened Bits
  import opened Headers

  /** `PAR_MODE_SCAN`, `PAR_MODE_LIST`, `PAR_MODE_REMUX`, `PAR_MODE_DEMUX`. */
  datatype Mode = Scan | List | Remux | Demux

  // ---------------------------------------------------------------------
  // Demux: output slot and payload

  /** The `fp[]` slot of a packet: its stream id, or 256 + substream id in private stream 1. */
  function OutputIndex(sid: nat, ssid: nat): nat
  {
    if sid == 0xbd then 256 + ssid else sid
  }

  /** The stream a slot belongs to. */
  function SlotStream(fpi: nat): (nat, nat)
  {
    if fpi >= 256 then (0xbd, fpi - 256) else (fpi, 0)
  }

  /**
   * Slots are below 512, slot 0xbd itself is never used, and the slot
   * gives back the stream and substream it was made from.
   */
  lemma OutputIndexRoundTrip(sid: nat, ssid: nat)
    requires sid < 256 && ssid < 256
    ensures OutputIndex(sid, ssid) < 512 && OutputIndex(sid, ssid) != 0xbd
    ensures SlotStream(OutputIndex(sid, ssid)) == (sid, if sid == 0xbd then ssid else 0)
  {
  }

  lemma SlotRoundTrip(fpi: nat)
    requires fpi < 512 && fpi != 0xbd
    ensures SlotStream(fpi).0 < 256 && SlotStream(fpi).1 < 256
    ensures OutputIndex(SlotStream(fpi).0, SlotStream(fpi).1) == fpi
  {
  }

  /** The number `mpeg_demux_open` puts into the file name: `(sid << 8) + ssid` in private stream 1. */
  function NameNumber(sid: nat, ssid: nat): nat
  {
    if sid == 0xbd then sid * 256 + ssid else sid
  }

  /** Different slots get different file numbers. */
  lemma NameNumberDistinct(sid1: nat, ssid1: nat, sid2: nat, ssid2: nat)
    requires sid1 < 256 && ssid1 < 256 && sid2 < 256 && ssid2 < 256
    requires OutputIndex(sid1, ssid1) != OutputIndex(sid2, ssid2)
    ensures NameNumber(sid1, ssid1) != NameNumber(sid2, ssid2)
  {
  }

  /**
   * The bytes of a packet the demuxer does not write: the header, the
   * substream id byte of private stream 1, and the 3 bytes of AC-3
   * framing when asked to drop them.
   */
  function PayloadSkip(p: Packet, dvdac3: bool): nat
  {
    p.offset + (if p.sid == 0xbd then 1 + (if dvdac3 then 3 else 0) else 0)
  }

  /** How many payload bytes the demuxer writes, or None when the skip exceeds the packet. */
  function DemuxPayload(p: Packet, dvdac3: bool): (r: Option<nat>)
  {
    var skip := PayloadSkip(p, dvdac3);
    if skip > p.size then None else Some(p.size - skip)
  }

  /** Skipped and written bytes make up the packet exactly; a refusal means the packet is too small. */
  lemma DemuxPayloadSplit(p: Packet, dvdac3: bool)
    ensures DemuxPayload(p, dvdac3).None? <==> PayloadSkip(p, dvdac3) > p.size
    ensures DemuxPayload(p, dvdac3).Some? ==>
      PayloadSkip(p, dvdac3) + DemuxPayload(p, dvdac3).value == p.size
    ensures PayloadSkip(p, dvdac3) >= p.offset
    ensures p.sid == 0xbd ==> PayloadSkip(p, dvdac3) == p.offset + (if dvdac3 then 4 else 1)
  {
  }

  // ---------------------------------------------------------------------
  // Remux: stream renumbering

  /**
   * The remuxer's rewrite of a staged packet: with at least 4 bytes, the
   * stream id byte 3 becomes `streamMap[sid]`, and in private stream 1 the
   * substream byte at `offset`, when staged, becomes `substreamMap[ssid]`.
   */
  function Rewrite(b: seq<Byte>, sid: nat, ssid: nat, offset: nat,
                   streamMap: seq<Byte>, substreamMap: seq<Byte>): seq<Byte>
    requires sid < |streamMap| && ssid < |substreamMap|
  {
    if |b| < 4 then b
    else
      var b := b[3 := streamMap[sid]];
      if sid == 0xbd && |b| > offset then b[offset := substreamMap[ssid]] else b
  }

  /** The rewrite keeps the length and touches at most the two id bytes. */
  lemma RewriteShape(b: seq<Byte>, sid: nat, ssid: nat, offset: nat,
                     streamMap: seq<Byte>, substreamMap: seq<Byte>)
    requires sid < |streamMap| && ssid < |substreamMap|
    ensures var r := Rewrite(b, sid, ssid, offset, streamMap, substreamMap);
      && |r| == |b|
      && (forall k :: 0 <= k < |b| && k != 3 && (sid != 0xbd || k != offset) ==> r[k] == b[k])
      && (|b| >= 4 && (sid != 0xbd || offset != 3) ==> r[3] == streamMap[sid])
      && (|b| >= 4 && sid == 0xbd && offset < |b| ==> r[offset] == substreamMap[ssid])
      && (|b| < 4 ==> r == b)
  {
  }

  /** A map that sends every id to itself. */
  predicate IsIdentity(m: seq<Byte>)
  {
    |m| == 256 && forall i :: 0 <= i < 256 ==> m[i] == i
  }

  /**
   * With the maps the program starts with, a packet whose id bytes hold
   * its own stream and substream ids is written back unchanged.
   */
  lemma RewriteIdentity(b: seq<Byte>, sid: nat, ssid: nat, offset: nat,
                        streamMap: seq<Byte>, substreamMap: seq<Byte>)
    requires sid < 256 && ssid < 256 && IsIdentity(streamMap) && IsIdentity(substreamMap)
    requires |b| >= 4 ==> b[3] == sid
    requires |b| >= 4 && sid == 0xbd && offset < |b| ==> b[offset] == ssid
    ensures Rewrite(b, sid, ssid, offset, streamMap, substreamMap) == b
  {
    if |b| >= 4 {
      var c := b[3 := streamMap[sid]];
      assert c == b;
    }
  }

  // ---------------------------------------------------------------------
  // Scan: lowest time stamp per stream

  /** The all-ones `uint64_t` every table entry starts at. */
  const NO_PTS: nat := 0xffff_ffff_ffff_ffff

  /**
   * One packet of `mpeg_scan_packet`, for a stream that has now counted
   * `count` packets and whose table entry is `low`: the new entry and
   * whether the packet is reported.  Later packets are reported only in
   * first-PTS mode, with a PTS strictly below the entry.
   */
  function ScanStep(low: nat, count: nat, firstPts: bool, p: Packet): (nat, bool)
  {
    if count > 1 && (!firstPts || !p.hasPts || p.pts >= low) then (low, false)
    else (if p.pts < low then p.pts else low, true)
  }

  /**
   * The entry never grows; a packet is reported exactly when it is the
   * stream's first or lowers the entry in first-PTS mode, and a reported
   * packet leaves the entry at the smaller of the old entry and its PTS.
   */
  lemma ScanStepSpec(low: nat, count: nat, firstPts: bool, p: Packet)
    ensures var (low', reported) := ScanStep(low, count, firstPts, p);
      && low' <= low
      && (reported <==> count <= 1 || (firstPts && p.hasPts && p.pts < low))
      && (reported ==> low' == Min(low, p.pts))
      && (!reported ==> low' == low)
      && (reported && count > 1 ==> low' < low)
  {
  }

  /** Packets fed one by one to the scanner from a starting entry and count. */
  function ScanAll(low: nat, count: nat, firstPts: bool, ps: seq<Packet>): nat
    decreases |ps|
  {
    if |ps| == 0 then low
    else ScanAll(ScanStep(low, count + 1, firstPts, ps[0]).0, count + 1, firstPts, ps[1..])
  }

  /** The lowest PTS of the packets that carry one, capped at `low`. */
  function LowestPts(low: nat, ps: seq<Packet>): nat
    decreases |ps|
  {
    if |ps| == 0 then low
    else LowestPts(if ps[0].hasPts then Min(low, ps[0].pts) else low, ps[1..])
  }

  /**
   * In first-PTS mode, once a stream's first packet has been seen, its
   * entry ends at the lowest PTS of all later packets (or stays put).
   */
  lemma {:induction false} ScanAllLowest(low: nat, count: nat, ps: seq<Packet>)
    requires count >= 1
    ensures ScanAll(low, count, true, ps) == LowestPts(low, ps)
    decreases |ps|
  {
    if |ps| > 0 {
      var p := ps[0];
      ScanStepSpec(low, count + 1, true, p);
      assert ScanStep(low, count + 1, true, p).0 == (if p.hasPts then Min(low, p.pts) else low);
      ScanAllLowest(ScanStep(low, count + 1, true, p).0, count + 1, ps[1..]);
    }
  }

  // ---------------------------------------------------------------------
  // List: runs of skipped bytes

  /** `skip_ofs` and `skip_cnt`: the pending run of skipped bytes. */
  datatype SkipRun = SkipRun(ofs: nat, cnt: nat)

  /** `mpeg_list_skip` at stream offset `ofs`: a new run starts there, or the pending one grows. */
  function AddSkip(r: SkipRun, ofs: nat): SkipRun
  {
    SkipRun(if r.cnt == 0 then ofs else r.ofs, (r.cnt + 1) % WORD)
  }

  /** k skipped bytes at consecutive offsets from `ofs`. */
  function AddSkips(r: SkipRun, ofs: nat, k: nat): SkipRun
    decreases k
  {
    if k == 0 then r else AddSkips(AddSkip(r, ofs), ofs + 1, k - 1)
  }

  /**
   * Consecutive skipped bytes coalesce into one run: it starts at the
   * first of them unless a run was already pending, and counts them all.
   */
  lemma {:induction false} Coalesce(r: SkipRun, ofs: nat, k: nat)
    requires r.cnt + k < WORD
    ensures AddSkips(r, ofs, k) == SkipRun(if r.cnt == 0 && k > 0 then ofs else r.ofs, r.cnt + k)
    decreases k
  {
    if k > 0 {
      Coalesce(AddSkip(r, ofs), ofs + 1, k - 1);
    }
  }

  /** Skipping one more byte after k extends the run by one. */
  lemma {:induction false} AddSkipsLast(r: SkipRun, ofs: nat, k: nat)
    ensures AddSkips(r, ofs, k + 1) == AddSkip(AddSkips(r, ofs, k), ofs + k)
    decreases k
  {
    if k > 0 {
      AddSkipsLast(AddSkip(r, ofs), ofs + 1, k - 1);
    }
  }

  /** What the scanner and the lister print, without the text formatting. */
  datatype Entry =
    | SkipLine(at: nat, count: nat)
    | PackLine(at: nat, index: nat, pack: Pack)
    | SystemHeaderLine(at: nat, index: nat, shdr: SystemHeader)
    | PacketLine(at: nat, index: nat, packet: Packet)
    | Reported(at: nat, packet: Packet)
    | Incomplete(at: nat, sid: nat, ssid: nat)
    | EndLine(at: nat)

  /** `mpeg_list_print_skip`: a pending run is printed and closed. */
  function Flush(r: SkipRun): (seq<Entry>, SkipRun)
  {
    if r.cnt > 0 then ([SkipLine(r.ofs, r.cnt)], r.(cnt := 0)) else ([], r)
  }

  /** `n - 1` on a 32-bit counter, as the lister prints the index of the current item. */
  function Before(n: nat): nat
  {
    (n + WORD - 1) % WORD
  }
}
