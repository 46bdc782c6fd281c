/**
 * The parser `mpegd_parse` of `mpeg_demux_t` and the handlers the four
 * modes install in it.  The parser finds start codes in the input, reads
 * pack headers, system headers and packets, counts what it sees, and
 * hands every item to the handlers of the mode it runs in: the scanner
 * and the lister print what they see, the remuxer copies the selected
 * packets to one output stream, and the demuxer writes the payload of
 * each selected stream to its own output.
 */
module Engine {
  import opened Wrappers
  import opened Bits
  import opened Headers
  import opened Selection
  import opened Statistics
  import opened Handlers
  import Lookahead
  import Staging
  import Subtitles
  import Names
  import Decoding

  // ---------------------------------------------------------------------
  // Moving forward through the input

  /**
   * The cursor went from offset o0 with unread bytes u0 to offset o with
   * unread bytes u: it only moved forward, and what is left is u0 from
   * the distance moved on, or nothing once it moved past the end.
   */
  ghost predicate Forward(u0: seq<Byte>, o0: nat, u: seq<Byte>, o: nat)
  {
    o0 <= o && (if o == o0 then u == u0 else if o - o0 <= |u0| then u == u0[o - o0..] else u == [])
  }

  /**
   * What the skip handler did to the unread bytes u at offset o and to the
   * output: when it keeps skipped bytes it copies the next one, failing
   * only at the end of the input; otherwise nothing moves.
   */
  ghost predicate Skipped(keep: bool, u: seq<Byte>, o: nat, out0: seq<Byte>, u1: seq<Byte>, o1: nat, out1: seq<Byte>, fail: bool)
  {
    if keep then
      && o1 == o + Min(1, |u|) && u1 == (if u == [] then [] else u[1..])
      && out1 == out0 + u[..Min(1, |u|)] && (fail <==> u == [])
    else
      o1 == o && u1 == u && out1 == out0 && !fail
  }

  /** A failing skip handler has not moved, and the input is exhausted. */
  lemma SkipFailed(keep: bool, u: seq<Byte>, o: nat, out0: seq<Byte>, u1: seq<Byte>, o1: nat, out1: seq<Byte>)
    requires Skipped(keep, u, o, out0, u1, o1, out1, true)
    ensures Forward(u, o, u1, o1) && u == [] && u1 == []
    ensures out1 == if keep then out0 + u[..Min(1, |u|)] else out0
  {
  }

  /**
   * One byte skipped in two moves: the skip handler (which takes the byte
   * or nothing), then `mpegd_set_offset` to one byte past the start.
   */
  lemma SkipSteps(keep: bool, u: seq<Byte>, o: nat, out0: seq<Byte>, u1: seq<Byte>, o1: nat, out1: seq<Byte>,
                  target: nat, fail: bool, u2: seq<Byte>, o2: nat)
    requires Skipped(keep, u, o, out0, u1, o1, out1, false) && target == o + 1
    requires Forward(u1, o1, u2, o2)
    requires target <= o1 ==> o2 == o1 && (fail <==> target < o1)
    requires o1 < target < o1 + WORD ==> o2 == target && (fail <==> target - o1 > |u1|)
    requires fail && target > o1 ==> u2 == []
    ensures Forward(u, o, u2, o2) && o2 == o + 1
    ensures fail <==> u == []
    ensures !fail ==> u2 == u[1..]
    ensures fail ==> u2 == []
    ensures out1 == if keep then out0 + u[..Min(1, |u|)] else out0
  {
    if !keep {
      assert u[..0] == [] && out0 + [] == out0;
    }
  }

  /**
   * The search passed over k bytes of u0 and tried one more: either u0
   * ended, or one more byte is passed over.
   */
  lemma SeekNext(u0: seq<Byte>, k: nat, u: seq<Byte>, u1: seq<Byte>, fail: bool, out0: seq<Byte>)
    requires k <= |u0| && u == u0[k..] && (fail <==> u == [])
    requires !fail ==> u1 == u[1..]
    ensures fail ==> k == |u0| && u0[..k] == u0 && out0 + u0[..k] + u[..Min(1, |u|)] == out0 + u0
    ensures !fail ==> u1 == u0[k + 1..] && out0 + u0[..k] + u[..Min(1, |u|)] == out0 + u0[..k + 1]
  {
    if fail {
      assert u0[..k] == u0 && u[..0] == [];
    } else {
      assert u0[..k] + u[..1] == u0[..k + 1];
    }
  }

  /**
   * `mpegd_set_offset` in terms of the unread bytes: the cursor stays put
   * for a target behind it, and otherwise moves by the distance cast to
   * 32 bits.
   */
  lemma SetForward(u: seq<Byte>, o: nat, target: nat, fail: bool, u1: seq<Byte>, o1: nat)
    requires target <= o ==> fail == (target < o) && o1 == o && u1 == u
    requires target > o ==>
      var d := (target - o) % WORD;
      o1 == o + d && (fail <==> d > |u|) && u1 == (if fail then [] else u[d..])
    ensures Forward(u, o, u1, o1)
    ensures target <= o ==> o1 == o && (fail <==> target < o)
    ensures o < target < o + WORD ==> o1 == target && (fail <==> target - o > |u|)
    ensures fail && target > o ==> u1 == []
  {
    if o < target < o + WORD {
      assert (target - o) % WORD == target - o;
    }
  }

  /**
   * `Sought` on values: after k bytes of u0 passed over from offset o0,
   * the cursor is k bytes on, `skip_cnt` has grown by k on 32 bits, the
   * lister's run (when listing) holds the k bytes, and the output (when
   * the remuxer keeps skipped bytes) has them appended.
   */
  ghost predicate SoughtAt(u0: seq<Byte>, o0: nat, s0: Stats, r0: SkipRun, out0: seq<Byte>, k: nat,
                           list: bool, keep: bool, u: seq<Byte>, o: nat, s: Stats, r: SkipRun, out: seq<Byte>)
  {
    && k <= |u0| && o == o0 + k && u == u0[k..]
    && s == s0.(skipCnt := (s0.skipCnt + k) % WORD)
    && r == (if list then AddSkips(r0, o0, k) else r0)
    && out == (if keep then out0 + u0[..k] else out0)
  }

  /** `Exhausted` on values: all of u0 passed over, and one byte more in the lister's run. */
  ghost predicate ExhaustedAt(u0: seq<Byte>, o0: nat, s0: Stats, r0: SkipRun, out0: seq<Byte>,
                              list: bool, keep: bool, u: seq<Byte>, o: nat, s: Stats, r: SkipRun, out: seq<Byte>)
  {
    && u == [] && o >= o0 + |u0|
    && s == s0.(skipCnt := (s0.skipCnt + |u0|) % WORD)
    && r == (if list then AddSkips(r0, o0, |u0| + 1) else r0)
    && out == (if keep then out0 + u0 else out0)
  }

  /**
   * One byte skipped by `SkipOne` after k bytes passed over: k + 1 of them
   * are passed over, or the input is exhausted.
   */
  lemma SeekStepped(u0: seq<Byte>, o0: nat, s0: Stats, r0: SkipRun, out0: seq<Byte>, k: nat, list: bool, keep: bool,
                    u: seq<Byte>, o: nat, s: Stats, r: SkipRun, out: seq<Byte>,
                    fail: bool, u2: seq<Byte>, o2: nat, s2: Stats, r2: SkipRun, out2: seq<Byte>)
    requires SoughtAt(u0, o0, s0, r0, out0, k, list, keep, u, o, s, r, out)
    requires Forward(u, o, u2, o2) && (fail <==> u == [])
    requires !fail ==> o2 == o + 1 && u2 == u[1..] && s2 == s.(skipCnt := (s.skipCnt + 1) % WORD)
    requires fail ==> u2 == [] && s2 == s
    requires r2 == (if list then AddSkip(r, o) else r)
    requires out2 == (if keep then out + u[..Min(1, |u|)] else out)
    ensures fail <==> k == |u0|
    ensures !fail ==> SoughtAt(u0, o0, s0, r0, out0, k + 1, list, keep, u2, o2, s2, r2, out2)
    ensures fail ==> ExhaustedAt(u0, o0, s0, r0, out0, list, keep, u2, o2, s2, r2, out2)
  {
    AddSkipsLast(r0, o0, k);
    SeekNext(u0, k, u, u2, fail, out0);
    if !fail {
      ModShiftAdd(s0.skipCnt + k, 1, 1, WORD);
    }
  }

  /** Not moving is moving forward by nothing. */
  lemma ForwardStay(u: seq<Byte>, o: nat)
    ensures Forward(u, o, u, o)
  {
  }

  lemma ForwardTrans(u0: seq<Byte>, o0: nat, u1: seq<Byte>, o1: nat, u2: seq<Byte>, o2: nat)
    requires Forward(u0, o0, u1, o1) && Forward(u1, o1, u2, o2)
    ensures Forward(u0, o0, u2, o2)
  {
    if o1 - o0 <= |u0| && o2 - o1 <= |u1| {
      assert u0[o1 - o0..][o2 - o1..] == u0[o2 - o0..];
    }
  }

  /** Moving forward from a non-empty input leaves strictly less of it. */
  lemma ForwardShrinks(u0: seq<Byte>, o0: nat, u: seq<Byte>, o: nat)
    requires Forward(u0, o0, u, o) && o0 < o && |u0| > 0
    ensures |u| < |u0|
  {
  }

  /** A field `get_bits` reads as non-zero lies inside the unread bytes. */
  lemma PeekInside(u: seq<Byte>, i: nat, n: nat)
    requires Peek(u, i, n) != 0
    ensures i + n <= 8 * |u|
  {
  }

  // ---------------------------------------------------------------------
  // The start-code search

  /**
   * How many bytes `mpegd_seek_header` discards: the distance to the
   * first 0x000001 prefix, or the whole input when there is none.
   */
  function SyncOffset(u: seq<Byte>): (k: nat)
    ensures k <= |u|
    decreases |u|
  {
    if |u| == 0 || Peek(u, 0, 24) == PACKET_START then 0 else 1 + SyncOffset(u[1..])
  }

  /**
   * The search stops at the first prefix: every earlier position lacks
   * one, and the position reached has one unless the input ran out.
   */
  lemma {:induction false} SyncFirst(u: seq<Byte>, k: nat)
    requires k < SyncOffset(u)
    ensures Peek(u[k..], 0, 24) != PACKET_START
    decreases |u|
  {
    if k > 0 {
      SyncFirst(u[1..], k - 1);
      assert u[1..][k - 1..] == u[k..];
    }
  }

  /** At a start code the search stops at once. */
  lemma SyncAtStart(u: seq<Byte>)
    requires Peek(u, 0, 24) == PACKET_START
    ensures |u| > 0 && SyncOffset(u) == 0
  {
  }

  lemma {:induction false} SyncFound(u: seq<Byte>)
    ensures SyncOffset(u) < |u| ==> Peek(u[SyncOffset(u)..], 0, 24) == PACKET_START
    ensures SyncOffset(u) == |u| ==> Peek(u[SyncOffset(u)..], 0, 24) != PACKET_START
    decreases |u|
  {
    if |u| > 0 && Peek(u, 0, 24) != PACKET_START {
      SyncFound(u[1..]);
      assert u[1..][SyncOffset(u[1..])..] == u[SyncOffset(u)..];
    } else if |u| == 0 {
      assert Peek(u, 0, 24) == 0;
    } else {
      assert u[0..] == u;
    }
  }

  /**
   * A position the search reaches without finding the prefix there lies
   * before `SyncOffset`, or is the end of the input.
   */
  lemma SeekStep(u: seq<Byte>, k: nat)
    requires k <= SyncOffset(u) && Peek(u[k..], 0, 24) != PACKET_START
    ensures k < SyncOffset(u) || k == |u|
  {
    SyncFound(u);
  }

  /** A position before `SyncOffset` does not have the prefix, so a search that finds it stops there. */
  lemma SeekStop(u: seq<Byte>, k: nat)
    requires k <= SyncOffset(u) && Peek(u[k..], 0, 24) == PACKET_START
    ensures k == SyncOffset(u) < |u|
  {
    if k < SyncOffset(u) {
      SyncFirst(u, k);
    }
    SyncFound(u);
  }

  // ---------------------------------------------------------------------
  // Parameters

  /** The `par_*` settings and the options the handlers consult. */
  datatype Params = Params(
    packetMax: nat,
    streamMap: seq<Byte>, substreamMap: seq<Byte>,
    noPacket: bool, noEnd: bool, noPack: bool, noShdr: bool, emptyPack: bool,
    firstPts: bool, dvdsub: bool, dvdac3: bool, drop: bool, remuxSkipped: bool, split: bool,
    demuxName: Option<string>,
    openable: set<nat>)

  predicate ParamsOk(par: Params)
  {
    |par.streamMap| == 256 && |par.substreamMap| == 256
  }

  /** The bytes `mpeg_demux_open` writes first to a subtitle output: "SPU ". */
  const SPU_TAG: seq<Byte> := [0x53, 0x50, 0x55, 0x20]

  /** The end code the remuxer appends when end codes are not copied. */
  const END_BYTES: seq<Byte> := [0x00, 0x00, 0x01, 0xb9]

  /** The scanner's table before any packet: every entry all ones. */
  function Unset(): (t: seq<nat>)
    ensures |t| == 256 && forall i :: 0 <= i < |t| ==> t[i] == NO_PTS
  {
    seq(256, _ => NO_PTS)
  }

  /** Every table entry below or at the one it replaced. */
  ghost predicate Below(a: seq<nat>, b: seq<nat>)
  {
    |a| == |b| && forall i :: 0 <= i < |a| ==> a[i] <= b[i]
  }

  /** What `mpeg_demux_open` writes first: "SPU " for a subtitle stream when repacking them. */
  function Tag(par: Params, sid: nat): seq<Byte>
  {
    if sid == 0xbd && par.dvdsub then SPU_TAG else []
  }

  /** `mpeg_demux_open` fails: the slot's file, named after its stream's number, cannot be created. */
  predicate OpenFails(par: Params, sid: nat, ssid: nat)
  {
    par.demuxName.Some? && NameNumber(sid, ssid) !in par.openable
  }

  /**
   * The at most n bytes the cursor delivers after skipping `skip` of the
   * unread bytes u: fewer at the end of the input, none past it.
   */
  function After(u: seq<Byte>, skip: nat, n: nat): seq<Byte>
  {
    if skip <= |u| then u[skip..][..Min(n, |u| - skip)] else []
  }

  /**
   * Skipping `skip` of the unread bytes u from offset o, then reading at
   * most n: the bytes read are `After(u, skip, n)` and the cursor moved
   * forward past them.
   */
  lemma SkipThenRead(u: seq<Byte>, o: nat, skip: nat, n: nat, u1: seq<Byte>, o1: nat, u2: seq<Byte>, o2: nat)
    requires o1 == o + skip && u1 == (if skip <= |u| then u[skip..] else [])
    requires o2 == o1 + Min(n, |u1|) && u2 == u1[Min(n, |u1|)..]
    ensures After(u, skip, n) == u1[..Min(n, |u1|)]
    ensures o2 == o + skip + |After(u, skip, n)|
    ensures Forward(u, o, u2, o2)
  {
    if skip <= |u| {
      assert u[skip..][Min(n, |u1|)..] == u[skip + Min(n, |u1|)..];
    }
  }

  // ---------------------------------------------------------------------
  // The demuxer's outputs

  /**
   * The outputs after `bytes` are written to slot fpi: without a file
   * name template every slot is the one output stream, with one each
   * slot has its own file (empty when not created yet).
   */
  function Append(par: Params, out: seq<Byte>, files: map<nat, seq<Byte>>, fpi: nat, bytes: seq<Byte>)
    : (r: (seq<Byte>, map<nat, seq<Byte>>))
    ensures par.demuxName.None? ==> r.0 == out + bytes && r.1 == files
    ensures par.demuxName.Some? ==>
      && r.0 == out && r.1.Keys == files.Keys + {fpi}
      && r.1[fpi] == (if fpi in files then files[fpi] else []) + bytes
      && forall j :: j in files && j != fpi ==> r.1[j] == files[j]
  {
    if par.demuxName.None? then (out + bytes, files)
    else (out, files[fpi := (if fpi in files then files[fpi] else []) + bytes])
  }

  /** Two writes to the same slot are one write of both, in order. */
  lemma AppendTwice(par: Params, out: seq<Byte>, files: map<nat, seq<Byte>>, fpi: nat, a: seq<Byte>, b: seq<Byte>)
    ensures var (out1, files1) := Append(par, out, files, fpi, a);
      Append(par, out1, files1, fpi, b) == Append(par, out, files, fpi, a + b)
  {
    var (out1, files1) := Append(par, out, files, fpi, a);
    if par.demuxName.None? {
      assert out1 + b == out + (a + b);
    } else {
      var f := if fpi in files then files[fpi] else [];
      assert f + a + b == f + (a + b);
      assert files1[fpi := files1[fpi] + b] == files[fpi := f + (a + b)];
    }
  }

  /** `AppendTwice` with the intermediate and final outputs named. */
  lemma AppendThen(par: Params, out0: seq<Byte>, files0: map<nat, seq<Byte>>, fpi: nat, a: seq<Byte>, b: seq<Byte>,
                   out1: seq<Byte>, files1: map<nat, seq<Byte>>, out2: seq<Byte>, files2: map<nat, seq<Byte>>)
    requires (out1, files1) == Append(par, out0, files0, fpi, a)
    requires (out2, files2) == Append(par, out1, files1, fpi, b)
    ensures (out2, files2) == Append(par, out0, files0, fpi, a + b)
  {
    AppendTwice(par, out0, files0, fpi, a, b);
  }

  /** Writing nothing to an existing slot changes nothing. */
  lemma AppendNothing(par: Params, out: seq<Byte>, files: map<nat, seq<Byte>>, fpi: nat)
    requires par.demuxName.Some? ==> fpi in files
    ensures Append(par, out, files, fpi, []) == (out, files)
  {
    if par.demuxName.None? {
      assert out + [] == out;
    } else {
      assert files[fpi] + [] == files[fpi];
      assert files[fpi := files[fpi]] == files;
    }
  }

  /** What the demuxer does with a payload: the bytes it writes, whether it fails, the subtitle state after. */
  datatype Delivery = Delivery(bytes: seq<Byte>, fail: bool, state: Subtitles.SpuState)

  /**
   * The n payload bytes of packet p, of which `data` could be read:
   * subtitles in private stream 1 go through the re-packetizer from state
   * st; any other payload is written as read, and fails when incomplete,
   * in which case it is dropped when asked to.
   */
  function Delivered(par: Params, p: Packet, st: Subtitles.SpuState, data: seq<Byte>, n: nat): Delivery
  {
    if p.sid == 0xbd && par.dvdsub then
      var r := Subtitles.Repack(st, p.pts, data);
      Delivery(r.out, r.status != 0, r.state)
    else
      var fail := |data| < n;
      Delivery(if fail && par.drop then [] else data, fail, st)
  }

  /**
   * What the scanner prints for a selected packet at offset `at`: a note
   * when the packet runs past the end of the input, then the packet when
   * it is reported.
   */
  function ScanLines(at: nat, incomplete: bool, reported: bool, p: Packet): seq<Entry>
  {
    (if incomplete then [Incomplete(at, p.sid, p.ssid)] else []) + (if reported then [Reported(at, p)] else [])
  }

  /**
   * The scanner's tables `pts1`, `pts2` after a selected packet, and
   * whether the packet is reported: `ScanStep` on the substream's entry in
   * private stream 1, on the stream's entry otherwise, with the packet
   * count the parser has just raised.
   */
  function ScanTables(pts1: seq<nat>, pts2: seq<nat>, s: Stats, firstPts: bool, p: Packet): (seq<nat>, seq<nat>, bool)
    requires |pts1| == 256 && |pts2| == 256 && |s.streams| == 256 && |s.substreams| == 256
    requires p.sid < 256 && p.ssid < 256
  {
    if p.sid == 0xbd then
      var (low, reported) := ScanStep(pts2[p.ssid], s.substreams[p.ssid].packets, firstPts, p);
      (pts1, pts2[p.ssid := low], reported)
    else
      var (low, reported) := ScanStep(pts1[p.sid], s.streams[p.sid].packets, firstPts, p);
      (pts1[p.sid := low], pts2, reported)
  }

  /**
   * The tables only ever go down, in the one entry of the packet's
   * stream (substream in private stream 1), which drops to the packet's
   * PTS exactly when that is lower and the packet is reported.
   */
  lemma ScanTablesBelow(pts1: seq<nat>, pts2: seq<nat>, s: Stats, firstPts: bool, p: Packet)
    requires |pts1| == 256 && |pts2| == 256 && |s.streams| == 256 && |s.substreams| == 256
    requires p.sid < 256 && p.ssid < 256
    ensures var (t1, t2, reported) := ScanTables(pts1, pts2, s, firstPts, p);
      && Below(t1, pts1) && Below(t2, pts2)
      && (p.sid == 0xbd ==> t1 == pts1 && t2 == pts2[p.ssid := if reported then Min(pts2[p.ssid], p.pts) else pts2[p.ssid]])
      && (p.sid != 0xbd ==> t2 == pts2 && t1 == pts1[p.sid := if reported then Min(pts1[p.sid], p.pts) else pts1[p.sid]])
  {
    if p.sid == 0xbd {
      ScanStepSpec(pts2[p.ssid], s.substreams[p.ssid].packets, firstPts, p);
    } else {
      ScanStepSpec(pts1[p.sid], s.streams[p.sid].packets, firstPts, p);
    }
  }

  // ---------------------------------------------------------------------
  // The demultiplexer

  class Demuxer {
    const mode: Mode
    const par: Params
    /** `fp`, `ofs`, `buf`, `buf_i`, `buf_n`. */
    const cur: Lookahead.Cursor
    /** The counters and per-stream tables. */
    var stats: Stats
    /** `pack`, `shdr`, `packet`: the item being handled. */
    var pack: Pack
    var shdr: SystemHeader
    var packet: Packet
    /** `par_stream`, `par_substream`: the demuxer deselects a stream whose file cannot be opened. */
    var stream: seq<bv8>
    var substream: seq<bv8>
    /** What the scanner and the lister print. */
    var log: seq<Entry>
    /** The lister's `skip_ofs`, `skip_cnt`. */
    var run: SkipRun
    /** The scanner's `pts1`, `pts2`. */
    var pts1: seq<nat>
    var pts2: seq<nat>
    /** `mpeg->ext`: the output stream; with `split`, the remuxer's current file. */
    var out: seq<Byte>
    /** The files the remuxer closed at end codes, and its file counter `sequence`. */
    var segments: seq<seq<Byte>>
    var sequence: nat
    /** The demuxer's `fp[512]`: the open slots, and the named files' contents and names. */
    var slots: set<nat>
    var files: map<nat, seq<Byte>>
    var names: map<nat, string>
    /** The remuxer's and demuxer's staging buffers `pack`, `shdr`, `packet`. */
    const packBuf: Staging.Buffer
    const shdrBuf: Staging.Buffer
    const packetBuf: Staging.Buffer
    /** The statics of `mpeg_demux_copy_spu`. */
    const spu: Subtitles.SpuPacker

    ghost function Repr(): set<object>
      reads this
    {
      {this, cur, cur.buf, packBuf, shdrBuf, packetBuf, spu}
    }

    /** The cursor is consistent. */
    ghost predicate Tracking()
      reads cur, cur.buf
    {
      cur.Valid()
    }

    /** The tables have their sizes, the counters their invariants, the buffers are distinct. */
    ghost predicate Consistent()
      reads this`stats, this`stream, this`substream, this`pts1, this`pts2, this`packet
      reads this`files, this`slots, packBuf, shdrBuf, packetBuf
    {
      && ParamsOk(par) && |stats.streams| == 256 && |stats.substreams| == 256
      && IsTable(stream) && IsTable(substream)
      && |pts1| == 256 && |pts2| == 256
      && packet.sid < 256 && packet.ssid < 256 && packet.size <= 0xffff + 6
      && packBuf != shdrBuf && packBuf != packetBuf && shdrBuf != packetBuf
      && packBuf.Valid() && shdrBuf.Valid() && packetBuf.Valid()
      && (par.demuxName.Some? ==> files.Keys == slots)
    }

    ghost predicate Valid()
      reads this`stats, this`stream, this`substream, this`pts1, this`pts2, this`packet
      reads this`files, this`slots, cur, cur.buf, packBuf, shdrBuf, packetBuf
    {
      Tracking() && Consistent()
    }

    /**
     * `mpeg_demux_t(fp)` with the mode's handlers and tables installed:
     * nothing read, every counter zero, the scanner's tables all ones,
     * no pending skip run, empty staging buffers and no open output.
     */
    constructor (input: seq<Byte>, mode: Mode, par: Params, stream: seq<bv8>, substream: seq<bv8>)
      requires ParamsOk(par) && IsTable(stream) && IsTable(substream)
      ensures Valid()
      ensures fresh(cur) && fresh(cur.buf) && fresh(packBuf) && fresh(shdrBuf) && fresh(packetBuf) && fresh(spu)
      ensures this.mode == mode && this.par == par && this.stream == stream && this.substream == substream
      ensures cur.src == input && cur.Unread() == input && cur.ofs == 0
      ensures IsReset(stats) && StatsOk(stats)
      ensures pts1 == Unset() && pts2 == Unset()
      ensures log == [] && run == SkipRun(0, 0) && out == [] && segments == []
      ensures slots == {} && files == map[]
      ensures spu.State() == Subtitles.SpuState(0, false)
      ensures packBuf.cnt == 0 && shdrBuf.cnt == 0 && packetBuf.cnt == 0
    {
      var zero := ResetStats(Stats(0, 0, 0, 0, 0, seq(256, _ => StreamInfo(0, 0)), seq(256, _ => StreamInfo(0, 0))));
      this.mode := mode;
      this.par := par;
      stats := zero;
      pack := Pack(0, 0, 0, 0, 0);
      shdr := SystemHeader(0, 0, 0);
      packet := Packet(0, 0, 0, 0, 0, false, 0, false, 0);
      this.stream := stream;
      this.substream := substream;
      log := [];
      run := SkipRun(0, 0);
      pts1 := Unset();
      pts2 := Unset();
      out := [];
      segments := [];
      sequence := 0;
      slots := {};
      files := map[];
      names := map[];
      packBuf := new Staging.Buffer();
      shdrBuf := new Staging.Buffer();
      packetBuf := new Staging.Buffer();
      spu := new Subtitles.SpuPacker();
      ForwardStay(input, 0);
      cur := new Lookahead.Cursor(input);
    }

    /**
     * `resetStats` on counters holding anything: the five counters, then
     * both tables entry by entry.
     */
    static method ResetStats(s0: Stats) returns (s: Stats)
      requires |s0.streams| == 256 && |s0.substreams| == 256
      ensures IsReset(s) && StatsOk(s)
    {
      s := s0.(shdrCnt := 0, packCnt := 0, packetCnt := 0, endCnt := 0, skipCnt := 0);
      var i := 0;
      while i < 256
        invariant i <= 256 && |s.streams| == 256 && |s.substreams| == 256
        invariant s.shdrCnt == 0 && s.packCnt == 0 && s.packetCnt == 0
        invariant s.endCnt == 0 && s.skipCnt == 0
        invariant forall k :: 0 <= k < i ==> s.streams[k] == StreamInfo(0, 0)
        invariant forall k :: 0 <= k < i ==> s.substreams[k] == StreamInfo(0, 0)
      {
        s := s.(streams := s.streams[i := StreamInfo(0, 0)],
                substreams := s.substreams[i := StreamInfo(0, 0)]);
        i := i + 1;
      }
      ResetOk(s);
    }

    // -------------------------------------------------------------------
    // The cursor, as the parser and the handlers use it

    /** `mpegd_get_bits(mpeg, i, n)`. */
    method GetBits(i: nat, n: nat) returns (v: nat)
      requires Valid()
      modifies cur, cur.buf
      ensures Valid() && cur.Unread() == old(cur.Unread()) && cur.ofs == old(cur.ofs)
      ensures v == Peek(cur.Unread(), i, n)
    {
      v := cur.GetBits(i, n);
    }

    /** `mpegd_read(mpeg, buf, n)`. */
    method Read(n: nat) returns (data: seq<Byte>)
      requires Valid()
      modifies cur
      ensures Valid() && Forward(old(cur.Unread()), old(cur.ofs), cur.Unread(), cur.ofs)
      ensures data == old(cur.Unread())[..Min(n, |old(cur.Unread())|)]
      ensures cur.ofs == old(cur.ofs) + |data|
    {
      ghost var u, o := cur.Unread(), cur.ofs;
      data := cur.Read(n);
      assert Forward(u, o, cur.Unread(), cur.ofs);
      assert Tracking();
    }

    /** `mpegd_skip(mpeg, n)`. */
    method Skip(n: nat) returns (fail: bool)
      requires Valid()
      modifies cur
      ensures Valid() && Forward(old(cur.Unread()), old(cur.ofs), cur.Unread(), cur.ofs)
      ensures cur.ofs == old(cur.ofs) + n
      ensures fail <==> n > |old(cur.Unread())|
    {
      ghost var u, o := cur.Unread(), cur.ofs;
      fail := cur.Skip(n);
      assert Forward(u, o, cur.Unread(), cur.ofs);
      assert Tracking();
    }

    /**
     * `mpegd_set_offset(mpeg, target)`: a target less than 2^32 bytes
     * ahead is reached exactly; the cursor is never moved back.
     */
    method SetOffset(target: nat) returns (fail: bool)
      requires Valid()
      modifies cur
      ensures Valid() && Forward(old(cur.Unread()), old(cur.ofs), cur.Unread(), cur.ofs)
      ensures target <= old(cur.ofs) ==> cur.ofs == old(cur.ofs) && (fail <==> target < old(cur.ofs))
      ensures old(cur.ofs) < target < old(cur.ofs) + WORD ==>
        cur.ofs == target && (fail <==> target - old(cur.ofs) > |old(cur.Unread())|)
      ensures fail && target > old(cur.ofs) ==> cur.Unread() == []
    {
      ghost var u, o := cur.Unread(), cur.ofs;
      fail := cur.SetOffset(target);
      assert target <= o ==> cur.Unread() == u;
      SetForward(u, o, target, fail, cur.Unread(), cur.ofs);
      assert Tracking();
    }

    // -------------------------------------------------------------------
    // Copying and staging

    /**
     * `mpeg_copy(mpeg, ext, n)`: n input bytes to the output, at most 4096
     * at a time; fails when the input runs out first.
     */
    method CopyOut(n: nat) returns (fail: bool)
      requires Valid()
      modifies cur, this`out
      ensures Valid() && cur.ofs == old(cur.ofs) + Min(n, |old(cur.Unread())|)
      ensures cur.Unread() == old(cur.Unread())[Min(n, |old(cur.Unread())|)..]
      ensures out == old(out) + old(cur.Unread())[..Min(n, |old(cur.Unread())|)]
      ensures fail <==> n > |old(cur.Unread())|
    {
      ghost var u := cur.Unread();
      var data;
      data, fail := cur.Copy(n);
      assert |data| == Min(n, |u|);
      assert Tracking();
      out := out + data;
    }

    /**
     * `mpeg_buf_read(b, mpeg, n)`: up to n input bytes become the staged
     * bytes of b; fails on a short read.
     */
    method BufRead(b: Staging.Buffer, n: nat) returns (fail: bool)
      requires Valid() && (b == packBuf || b == shdrBuf || b == packetBuf)
      modifies b, cur
      ensures Valid() && Forward(old(cur.Unread()), old(cur.ofs), cur.Unread(), cur.ofs)
      ensures b.Staged() == old(cur.Unread())[..Min(n, |old(cur.Unread())|)]
      ensures cur.ofs == old(cur.ofs) + |b.Staged()|
      ensures fail <==> n > |old(cur.Unread())|
    {
      ghost var u, o := cur.Unread(), cur.ofs;
      var grown := b.SetCnt(n, true);
      assert cur.Unread() == u && cur.ofs == o;
      var data := Read(n);
      ghost var u1, o1 := cur.Unread(), cur.ofs;
      b.Load(data);
      assert cur.Unread() == u1 && cur.ofs == o1;
      fail := |data| != n;
    }

    /** `mpeg_buf_write_clear(b, ext)`: the staged bytes of b go to the output. */
    method WriteOut(b: Staging.Buffer)
      requires Valid() && (b == packBuf || b == shdrBuf || b == packetBuf)
      modifies b, this`out
      ensures Valid() && b.cnt == 0 && b.store == old(b.store) && b.max == old(b.max)
      ensures out == old(out) + old(b.Staged())
    {
      var written, short := b.WriteClear(b.cnt);
      out := out + written;
    }

    // -------------------------------------------------------------------
    // The demuxer's outputs

    /** `fwrite` to the slot's stream. */
    method Emit(fpi: nat, bytes: seq<Byte>)
      requires Valid() && fpi in slots
      modifies this`out, this`files
      ensures Valid() && (out, files) == Append(par, old(out), old(files), fpi, bytes)
    {
      if par.demuxName.None? {
        out := out + bytes;
      } else {
        files := files[fpi := files[fpi] + bytes];
      }
    }

    /** `par_stream[sid] &= ~PAR_STREAM_SELECT`, or the substream's bit in private stream 1. */
    method Deselect(sid: nat, ssid: nat)
      requires Valid() && sid < 256 && ssid < 256
      modifies this`stream, this`substream
      ensures Valid() && StreamExcluded(stream, substream, sid, ssid)
      ensures sid == 0xbd ==>
        stream == old(stream) && substream == old(substream)[ssid := old(substream)[ssid] & !SELECT]
      ensures sid != 0xbd ==>
        substream == old(substream) && stream == old(stream)[sid := old(stream)[sid] & !SELECT]
    {
      DeselectExcludes(stream, substream, sid, ssid, ssid);
      if sid == 0xbd {
        substream := substream[ssid := substream[ssid] & !SELECT];
      } else {
        stream := stream[sid := stream[sid] & !SELECT];
      }
    }

    /** `fopen(mpeg_get_name(par_demux_name, number), "wb")` succeeding: an empty file in slot fpi. */
    method Create(fpi: nat, number: nat)
      requires Valid() && par.demuxName.Some? && fpi !in slots
      modifies this`files, this`names, this`slots
      ensures Valid() && slots == old(slots) + {fpi} && files == old(files)[fpi := []]
      ensures names == old(names)[fpi := Names.Name(Names.Template(par.demuxName), number)]
    {
      var name := Names.GetName(par.demuxName, number, true);
      files := files[fpi := []];
      names := names[fpi := name.value];
      slots := slots + {fpi};
    }

    /**
     * `mpeg_demux_open(mpeg, sid, ssid)`: the output stream, or a new file
     * named after the stream's number, which fails when the file cannot be
     * created and then deselects the stream.  A subtitle output starts
     * with "SPU ".
     */
    method Open(sid: nat, ssid: nat) returns (fail: bool)
      requires Valid() && sid < 256 && ssid < 256 && OutputIndex(sid, ssid) !in slots
      modifies this`stream, this`substream, this`slots, this`files, this`names, this`out
      ensures Valid()
      ensures fail <==> OpenFails(par, sid, ssid)
      ensures fail ==> slots == old(slots) && files == old(files) && out == old(out)
      ensures fail && sid == 0xbd ==>
        stream == old(stream) && substream == old(substream)[ssid := old(substream)[ssid] & !SELECT]
      ensures fail && sid != 0xbd ==>
        substream == old(substream) && stream == old(stream)[sid := old(stream)[sid] & !SELECT]
      ensures !fail ==> stream == old(stream) && substream == old(substream)
      ensures !fail ==> slots == old(slots) + {OutputIndex(sid, ssid)}
      ensures !fail ==> (out, files) == Append(par, old(out), old(files), OutputIndex(sid, ssid), Tag(par, sid))
      ensures !fail && par.demuxName.Some? ==>
        names == old(names)[OutputIndex(sid, ssid) := Names.Name(Names.Template(par.demuxName), NameNumber(sid, ssid))]
    {
      var fpi := OutputIndex(sid, ssid);
      ghost var out0, files0 := out, files;
      fail := Reserve(sid, ssid);
      if !fail {
        Emit(fpi, Tag(par, sid));
        AppendTwice(par, out0, files0, fpi, [], Tag(par, sid));
        assert [] + Tag(par, sid) == Tag(par, sid);
      }
    }

    /**
     * The first half of `mpeg_demux_open`: slot fpi becomes the output
     * stream or a new empty file, or the stream is deselected when that
     * file cannot be created.
     */
    method Reserve(sid: nat, ssid: nat) returns (fail: bool)
      requires Valid() && sid < 256 && ssid < 256 && OutputIndex(sid, ssid) !in slots
      modifies this`stream, this`substream, this`slots, this`files, this`names
      ensures Valid()
      ensures fail <==> OpenFails(par, sid, ssid)
      ensures fail ==> slots == old(slots) && files == old(files)
      ensures fail && sid == 0xbd ==>
        stream == old(stream) && substream == old(substream)[ssid := old(substream)[ssid] & !SELECT]
      ensures fail && sid != 0xbd ==>
        substream == old(substream) && stream == old(stream)[sid := old(stream)[sid] & !SELECT]
      ensures !fail ==> stream == old(stream) && substream == old(substream)
      ensures !fail ==> slots == old(slots) + {OutputIndex(sid, ssid)}
      ensures !fail ==> (out, files) == Append(par, out, old(files), OutputIndex(sid, ssid), [])
      ensures !fail && par.demuxName.Some? ==>
        names == old(names)[OutputIndex(sid, ssid) := Names.Name(Names.Template(par.demuxName), NameNumber(sid, ssid))]
    {
      var fpi := OutputIndex(sid, ssid);
      if par.demuxName.None? {
        slots := slots + {fpi};
        assert out + [] == out;
      } else if NameNumber(sid, ssid) in par.openable {
        Create(fpi, NameNumber(sid, ssid));
        assert fpi !in old(files);
      } else {
        Deselect(sid, ssid);
        return true;
      }
      return false;
    }

    /** `mpeg_stream_excl` for the current packet. */
    ghost predicate Excluded()
      reads this`stream, this`substream, this`packet
      requires IsTable(stream) && IsTable(substream) && packet.sid < 256 && packet.ssid < 256
    {
      StreamExcluded(stream, substream, packet.sid, packet.ssid)
    }

    // -------------------------------------------------------------------
    // Scan mode

    /**
     * `mpeg_scan_packet`: for a selected stream, move to the end of the
     * packet, noting an incomplete one, then update the scanner's tables
     * and report the packet as `ScanTables` decides.
     */
    method ScanPacket()
      requires Valid()
      modifies cur, this`log, this`pts1, this`pts2
      ensures Valid() && Forward(old(cur.Unread()), old(cur.ofs), cur.Unread(), cur.ofs)
      ensures Below(pts1, old(pts1)) && Below(pts2, old(pts2))
      ensures Excluded() ==>
        cur.ofs == old(cur.ofs) && log == old(log) && pts1 == old(pts1) && pts2 == old(pts2)
      ensures !Excluded() ==>
        var (t1, t2, reported) := ScanTables(old(pts1), old(pts2), stats, par.firstPts, packet);
        && cur.ofs == old(cur.ofs) + packet.size && pts1 == t1 && pts2 == t2
        && log == old(log) + ScanLines(old(cur.ofs), packet.size > |old(cur.Unread())|, reported, packet)
    {
      if StreamExcluded(stream, substream, packet.sid, packet.ssid) {
        ForwardStay(cur.Unread(), cur.ofs);
      } else {
        ScanSelected();
      }
    }

    /** `mpeg_scan_packet` past the selection test. */
    method ScanSelected()
      requires Valid()
      modifies cur, this`log, this`pts1, this`pts2
      ensures Valid() && Forward(old(cur.Unread()), old(cur.ofs), cur.Unread(), cur.ofs)
      ensures var (t1, t2, reported) := ScanTables(old(pts1), old(pts2), stats, par.firstPts, packet);
        && Below(t1, old(pts1)) && Below(t2, old(pts2))
        && cur.ofs == old(cur.ofs) + packet.size && pts1 == t1 && pts2 == t2
        && log == old(log) + ScanLines(old(cur.ofs), packet.size > |old(cur.Unread())|, reported, packet)
    {
      var o := cur.ofs;
      var incomplete := SetOffset(o + packet.size);
      var (t1, t2, reported) := ScanTables(pts1, pts2, stats, par.firstPts, packet);
      ScanTablesBelow(pts1, pts2, stats, par.firstPts, packet);
      pts1, pts2 := t1, t2;
      log := log + ScanLines(o, incomplete, reported, packet);
    }

    /** `mpeg_scan_end`: the end code is printed unless end codes are hidden. */
    method ScanEnd()
      modifies this`log
      ensures log == old(log) + (if par.noEnd then [] else [EndLine(cur.ofs)])
    {
      if !par.noEnd {
        log := log + [EndLine(cur.ofs)];
      }
    }

    // -------------------------------------------------------------------
    // List mode

    /** `mpeg_list_skip`: the skipped byte joins the pending run. */
    method ListSkip()
      modifies this`run
      ensures run == AddSkip(old(run), cur.ofs)
    {
      run := AddSkip(run, cur.ofs);
    }

    /** Prints the pending run, then `e`: what every list handler does before its own line. */
    method ListLine(e: Entry)
      modifies this`log, this`run
      ensures log == old(log) + Flush(old(run)).0 + [e] && run == Flush(old(run)).1
      ensures run.cnt == 0 && run.ofs == old(run.ofs)
    {
      var (lines, r) := Flush(run);
      log := log + lines + [e];
      run := r;
    }

    /** `mpeg_list_pack`: the pack and its index, the count less one. */
    method ListPack()
      modifies this`log, this`run
      ensures par.noPack ==> log == old(log) && run == old(run)
      ensures !par.noPack ==>
        log == old(log) + Flush(old(run)).0 + [PackLine(cur.ofs, Before(stats.packCnt), pack)]
        && run == Flush(old(run)).1
    {
      if !par.noPack {
        ListLine(PackLine(cur.ofs, Before(stats.packCnt), pack));
      }
    }

    /** `mpeg_list_system_header`. */
    method ListSystemHeader()
      modifies this`log, this`run
      ensures par.noShdr ==> log == old(log) && run == old(run)
      ensures !par.noShdr ==>
        log == old(log) + Flush(old(run)).0 + [SystemHeaderLine(cur.ofs, Before(stats.shdrCnt), shdr)]
        && run == Flush(old(run)).1
    {
      if !par.noShdr {
        ListLine(SystemHeaderLine(cur.ofs, Before(stats.shdrCnt), shdr));
      }
    }

    /** `mpeg_list_packet`: a selected packet with its index within its stream. */
    method ListPacket()
      requires Valid()
      modifies this`log, this`run
      ensures par.noPacket || Excluded() ==> log == old(log) && run == old(run)
      ensures !par.noPacket && !Excluded() ==>
        log == old(log) + Flush(old(run)).0 + [PacketLine(cur.ofs, Before(stats.streams[packet.sid].packets), packet)]
        && run == Flush(old(run)).1
    {
      if !par.noPacket && !StreamExcluded(stream, substream, packet.sid, packet.ssid) {
        ListLine(PacketLine(cur.ofs, Before(stats.streams[packet.sid].packets), packet));
      }
    }

    /** `mpeg_list_end`. */
    method ListEnd()
      modifies this`log, this`run
      ensures par.noEnd ==> log == old(log) && run == old(run)
      ensures !par.noEnd ==> log == old(log) + Flush(old(run)).0 + [EndLine(cur.ofs)] && run == Flush(old(run)).1
    {
      if !par.noEnd {
        ListLine(EndLine(cur.ofs));
      }
    }
    // -------------------------------------------------------------------
    // Remux mode

    /** `mpeg_remux_skip`: the skipped byte is copied when skipped bytes are kept. */
    method RemuxSkip() returns (fail: bool)
      requires Valid()
      modifies cur, this`out
      ensures Valid()
      ensures !par.remuxSkipped ==>
        !fail && out == old(out) && cur.ofs == old(cur.ofs) && cur.Unread() == old(cur.Unread())
      ensures par.remuxSkipped ==>
        && cur.ofs == old(cur.ofs) + Min(1, |old(cur.Unread())|)
        && cur.Unread() == old(cur.Unread())[Min(1, |old(cur.Unread())|)..]
        && out == old(out) + old(cur.Unread())[..Min(1, |old(cur.Unread())|)]
        && (fail <==> old(cur.Unread()) == [])
    {
      fail := false;
      if par.remuxSkipped {
        fail := CopyOut(1);
      }
    }

    /**
     * `mpeg_remux_pack`: the pack header is staged, not written, so that
     * a pack whose packets are all dropped leaves nothing behind; with
     * `empty_pack` it is written at once.
     */
    method RemuxPack() returns (fail: bool)
      requires Valid()
      modifies cur, packBuf, this`out
      ensures Valid() && Forward(old(cur.Unread()), old(cur.ofs), cur.Unread(), cur.ofs)
      ensures cur.ofs == old(cur.ofs) + Min(pack.size, |old(cur.Unread())|)
      ensures fail <==> pack.size > |old(cur.Unread())|
      ensures fail || !par.emptyPack ==>
        out == old(out) && packBuf.Staged() == old(cur.Unread())[..Min(pack.size, |old(cur.Unread())|)]
      ensures !fail && par.emptyPack ==>
        out == old(out) + old(cur.Unread())[..pack.size] && packBuf.cnt == 0
    {
      fail := BufRead(packBuf, pack.size);
      if !fail && par.emptyPack {
        WriteOut(packBuf);
      }
    }

    /**
     * `mpeg_remux_system_header`: unless only the first system header is
     * kept and this is a later one, the staged pack header is written,
     * then the system header is read and written.
     */
    method RemuxSystemHeader() returns (fail: bool)
      requires Valid()
      modifies cur, packBuf, shdrBuf, this`out
      ensures Valid() && Forward(old(cur.Unread()), old(cur.ofs), cur.Unread(), cur.ofs)
      ensures par.noShdr && stats.shdrCnt > 1 ==>
        !fail && out == old(out) && cur.ofs == old(cur.ofs) && packBuf.cnt == old(packBuf.cnt)
      ensures !(par.noShdr && stats.shdrCnt > 1) ==>
        && packBuf.cnt == 0
        && cur.ofs == old(cur.ofs) + Min(shdr.size, |old(cur.Unread())|)
        && (fail <==> shdr.size > |old(cur.Unread())|)
        && out == old(out) + old(packBuf.Staged())
             + (if fail then [] else old(cur.Unread())[..shdr.size])
    {
      if par.noShdr && stats.shdrCnt > 1 {
        ForwardStay(cur.Unread(), cur.ofs);
        return false;
      }
      WriteOut(packBuf);
      fail := BufRead(shdrBuf, shdr.size);
      if fail {
        return;
      }
      WriteOut(shdrBuf);
    }

    /**
     * `mpeg_remux_packet`: a selected packet is staged; an incomplete one
     * is dropped when asked to.  Otherwise its id bytes are renumbered,
     * and the staged pack header is written before it.
     */
    method RemuxPacket() returns (fail: bool)
      requires Valid()
      modifies cur, packBuf, packetBuf, this`out
      ensures Valid() && Forward(old(cur.Unread()), old(cur.ofs), cur.Unread(), cur.ofs)
      ensures Excluded() ==> !fail && out == old(out) && cur.ofs == old(cur.ofs)
      ensures !Excluded() ==>
        && cur.ofs == old(cur.ofs) + Min(packet.size, |old(cur.Unread())|)
        && (fail <==> packet.size > |old(cur.Unread())|)
      ensures !Excluded() && fail && par.drop ==>
        out == old(out) && packetBuf.cnt == 0 && packBuf.cnt == old(packBuf.cnt)
      ensures !Excluded() && !(fail && par.drop) ==>
        && packBuf.cnt == 0 && packetBuf.cnt == 0
        && out == old(out) + old(packBuf.Staged())
             + Rewrite(old(cur.Unread())[..Min(packet.size, |old(cur.Unread())|)],
                       packet.sid, packet.ssid, packet.offset, par.streamMap, par.substreamMap)
    {
      if StreamExcluded(stream, substream, packet.sid, packet.ssid) {
        ForwardStay(cur.Unread(), cur.ofs);
        return false;
      }
      fail := BufRead(packetBuf, packet.size);
      if fail && par.drop {
        Discard(packetBuf);
        return;
      }
      WritePacket();
    }

    /** The staged packet renumbered, then the staged pack header and the packet written. */
    method WritePacket()
      requires Valid()
      modifies packBuf, packetBuf, this`out
      ensures Valid() && packBuf.cnt == 0 && packetBuf.cnt == 0
      ensures out == old(out) + old(packBuf.Staged())
        + Rewrite(old(packetBuf.Staged()), packet.sid, packet.ssid, packet.offset, par.streamMap, par.substreamMap)
    {
      Renumber();
      WriteOut(packBuf);
      WriteOut(packetBuf);
    }

    /** The id bytes of the staged packet rewritten in place. */
    method Renumber()
      requires Valid()
      modifies packetBuf
      ensures Valid() && packetBuf.cnt == old(packetBuf.cnt)
      ensures packetBuf.Staged() ==
        Rewrite(old(packetBuf.Staged()), packet.sid, packet.ssid, packet.offset, par.streamMap, par.substreamMap)
    {
      if packetBuf.cnt >= 4 {
        packetBuf.Poke(3, par.streamMap[packet.sid]);
        if packet.sid == 0xbd && packetBuf.cnt > packet.offset {
          packetBuf.Poke(packet.offset, par.substreamMap[packet.ssid]);
        }
      }
    }

    /**
     * `mpeg_remux_end`: the end code is copied unless end codes are
     * dropped; when splitting, the next output file begins after it.
     */
    method RemuxEnd() returns (fail: bool)
      requires Valid()
      modifies cur, this`out, this`segments, this`sequence
      ensures Valid()
      ensures par.noEnd ==>
        !fail && out == old(out) && segments == old(segments) && cur.ofs == old(cur.ofs)
        && cur.Unread() == old(cur.Unread())
      ensures !par.noEnd ==>
        && cur.ofs == old(cur.ofs) + Min(4, |old(cur.Unread())|)
        && cur.Unread() == old(cur.Unread())[Min(4, |old(cur.Unread())|)..]
      ensures !par.noEnd && (4 > |old(cur.Unread())| || !par.split) ==>
        out == old(out) + old(cur.Unread())[..Min(4, |old(cur.Unread())|)]
        && segments == old(segments) && (fail <==> 4 > |old(cur.Unread())|)
      ensures !par.noEnd && 4 <= |old(cur.Unread())| && par.split ==>
        && segments == old(segments) + [old(out) + old(cur.Unread())[..4]] && out == []
        && sequence == (old(sequence) + 1) % WORD
        && (fail <==> old(sequence) !in par.openable)
    {
      if par.noEnd {
        return false;
      }
      fail := CopyOut(4);
      if fail {
        return;
      }
      if par.split {
        fail := NextSegment();
      }
    }

    /**
     * `mpeg_remux_next_fp`: the current output file is closed and the next
     * one, numbered by `sequence`, is opened.
     */
    method NextSegment() returns (fail: bool)
      modifies this`out, this`segments, this`sequence
      ensures segments == old(segments) + [old(out)] && out == []
      ensures sequence == (old(sequence) + 1) % WORD
      ensures fail <==> old(sequence) !in par.openable
    {
      segments := segments + [out];
      out := [];
      fail := sequence !in par.openable;
      sequence := (sequence + 1) % WORD;
    }
    // -------------------------------------------------------------------
    // Demux mode

    /**
     * `mpeg_demux_packet`: a selected packet's payload goes to the output
     * of its slot, which is opened on the stream's first packet.  Fails,
     * without moving, when the header and the skipped bytes exceed the
     * packet or the output cannot be opened.
     */
    method DemuxPacket(ghost u: seq<Byte>, ghost st: Subtitles.SpuState, ghost p: Packet) returns (fail: bool)
      requires Valid() && u == cur.Unread() && st == spu.State() && p == packet
      modifies cur, packetBuf, spu, this`out, this`files, this`names, this`slots, this`stream, this`substream
      ensures Valid() && Forward(u, old(cur.ofs), cur.Unread(), cur.ofs) && packet == p
      ensures old(Excluded()) ==>
        !fail && cur.ofs == old(cur.ofs) && out == old(out) && files == old(files) && slots == old(slots)
      ensures !old(Excluded()) && DemuxPayload(p, par.dvdac3).None? ==>
        fail && cur.ofs == old(cur.ofs) && out == old(out) && files == old(files) && slots == old(slots)
      ensures !old(Excluded()) && DemuxPayload(p, par.dvdac3).Some? ==>
        var fpi := OutputIndex(p.sid, p.ssid);
        var skip := PayloadSkip(p, par.dvdac3);
        var data := After(u, skip, p.size - skip);
        var d := Delivered(par, p, st, data, p.size - skip);
        && (fpi !in old(slots) && OpenFails(par, p.sid, p.ssid) ==>
              fail && Excluded() && cur.ofs == old(cur.ofs) && out == old(out) && files == old(files))
        && (fpi in old(slots) || !OpenFails(par, p.sid, p.ssid) ==>
              && slots == old(slots) + {fpi} && fail == d.fail && spu.State() == d.state
              && cur.ofs == old(cur.ofs) + skip + |data|
              && (out, files) == Append(par, old(out), old(files), fpi,
                                        (if fpi in old(slots) then [] else Tag(par, p.sid)) + d.bytes))
    {
      if StreamExcluded(stream, substream, packet.sid, packet.ssid) {
        ForwardStay(u, cur.ofs);
        return false;
      }
      DemuxPayloadSplit(packet, par.dvdac3);
      if DemuxPayload(packet, par.dvdac3).None? {
        ForwardStay(u, cur.ofs);
        return true;
      }
      fail := DemuxSelected(u, st, p);
    }

    /** The part of `mpeg_demux_packet` after the checks: open the slot when needed, then write. */
    method DemuxSelected(ghost u: seq<Byte>, ghost st: Subtitles.SpuState, ghost p: Packet) returns (fail: bool)
      requires Valid() && PayloadSkip(p, par.dvdac3) <= p.size
      requires u == cur.Unread() && st == spu.State() && p == packet
      modifies cur, packetBuf, spu, this`out, this`files, this`names, this`slots, this`stream, this`substream
      ensures Valid() && Forward(u, old(cur.ofs), cur.Unread(), cur.ofs) && packet == p
      ensures var fpi := OutputIndex(p.sid, p.ssid);
        var skip := PayloadSkip(p, par.dvdac3);
        var data := After(u, skip, p.size - skip);
        var d := Delivered(par, p, st, data, p.size - skip);
        && (fpi !in old(slots) && OpenFails(par, p.sid, p.ssid) ==>
              fail && Excluded() && cur.ofs == old(cur.ofs) && out == old(out) && files == old(files)
              && slots == old(slots))
        && (fpi in old(slots) || !OpenFails(par, p.sid, p.ssid) ==>
              && slots == old(slots) + {fpi} && fail == d.fail && spu.State() == d.state
              && cur.ofs == old(cur.ofs) + skip + |data|
              && (out, files) == Append(par, old(out), old(files), fpi,
                                        (if fpi in old(slots) then [] else Tag(par, p.sid)) + d.bytes))
    {
      var fpi := OutputIndex(packet.sid, packet.ssid);
      ghost var out0, files0, o0 := out, files, cur.ofs;
      var tag;
      fail, tag := Attach();
      if fail {
        ForwardStay(u, o0);
        return;
      }
      var skip := PayloadSkip(packet, par.dvdac3);
      fail := DemuxWrite(fpi, skip, packet.size - skip, u, st, p, out0, files0, tag);
    }

    /**
     * Opens the current packet's output on its first use;
     * `tag` is what the opening wrote.
     */
    method Attach() returns (fail: bool, tag: seq<Byte>)
      requires Valid()
      modifies this`out, this`files, this`names, this`slots, this`stream, this`substream
      ensures Valid()
      ensures var fpi := OutputIndex(packet.sid, packet.ssid);
        && (fail <==> fpi !in old(slots) && OpenFails(par, packet.sid, packet.ssid))
        && (fail ==> Excluded() && out == old(out) && files == old(files) && slots == old(slots))
        && (!fail ==> slots == old(slots) + {fpi} && tag == (if fpi in old(slots) then [] else Tag(par, packet.sid))
                      && (out, files) == Append(par, old(out), old(files), fpi, tag))
    {
      var fpi := OutputIndex(packet.sid, packet.ssid);
      tag := [];
      if fpi in slots {
        AppendNothing(par, out, files, fpi);
        fail := false;
      } else {
        fail := Open(packet.sid, packet.ssid);
        tag := Tag(par, packet.sid);
      }
    }

    /**
     * The second half of `mpeg_demux_packet`: skip the header bytes, then
     * copy the n payload bytes to slot fpi, through the subtitle
     * re-packetizer for private stream 1 when asked to.
     */
    method DemuxWrite(fpi: nat, skip: nat, n: nat, ghost u: seq<Byte>, ghost st: Subtitles.SpuState, ghost p: Packet,
                      ghost out0: seq<Byte>, ghost files0: map<nat, seq<Byte>>, ghost tag: seq<Byte>)
      returns (fail: bool)
      requires Valid() && fpi in slots && u == cur.Unread() && st == spu.State() && p == packet
      requires (out, files) == Append(par, out0, files0, fpi, tag)
      modifies cur, packetBuf, spu, this`out, this`files
      ensures Valid() && Forward(u, old(cur.ofs), cur.Unread(), cur.ofs)
      ensures cur.ofs == old(cur.ofs) + skip + |After(u, skip, n)|
      ensures var d := Delivered(par, p, st, After(u, skip, n), n);
        fail == d.fail && spu.State() == d.state && (out, files) == Append(par, out0, files0, fpi, tag + d.bytes)
    {
      ghost var o, out1, files1 := cur.ofs, out, files;
      SkipHeader(skip);
      ghost var u1, o1 := cur.Unread(), cur.ofs;
      fail := DemuxPayloadBytes(fpi, n);
      SkipThenRead(u, o, skip, n, u1, o1, cur.Unread(), cur.ofs);
      AppendThen(par, out0, files0, fpi, tag, Delivered(par, p, st, After(u, skip, n), n).bytes, out1, files1, out, files);
    }

    /** Skips the header bytes in front of the payload. */
    method SkipHeader(skip: nat)
      requires Valid()
      modifies cur
      ensures Valid() && cur.ofs == old(cur.ofs) + skip
      ensures cur.Unread() == if skip <= |old(cur.Unread())| then old(cur.Unread())[skip..] else []
    {
      if skip > 0 {
        var short := Skip(skip);
      }
    }

    /** The n payload bytes to slot fpi: through the re-packetizer, or staged in `packet`. */
    method DemuxPayloadBytes(fpi: nat, n: nat) returns (fail: bool)
      requires Valid() && fpi in slots
      modifies cur, packetBuf, spu, this`out, this`files
      ensures Valid() && cur.ofs == old(cur.ofs) + Min(n, |old(cur.Unread())|)
      ensures cur.Unread() == old(cur.Unread())[Min(n, |old(cur.Unread())|)..]
      ensures var d := Delivered(par, packet, old(spu.State()), old(cur.Unread())[..Min(n, |old(cur.Unread())|)], n);
        fail == d.fail && spu.State() == d.state && (out, files) == Append(par, old(out), old(files), fpi, d.bytes)
    {
      if packet.sid == 0xbd && par.dvdsub {
        fail := DemuxSubtitle(fpi, n);
      } else {
        fail := DemuxPlain(fpi, n);
      }
    }

    /** `mpeg_demux_copy_spu(mpeg, fp[fpi], n)`, on the payload read in one piece. */
    method DemuxSubtitle(fpi: nat, n: nat) returns (fail: bool)
      requires Valid() && fpi in slots
      modifies cur, spu, this`out, this`files
      ensures Valid() && cur.ofs == old(cur.ofs) + Min(n, |old(cur.Unread())|)
      ensures cur.Unread() == old(cur.Unread())[Min(n, |old(cur.Unread())|)..]
      ensures var r := Subtitles.Repack(old(spu.State()), packet.pts, old(cur.Unread())[..Min(n, |old(cur.Unread())|)]);
        && (fail <==> r.status != 0) && spu.State() == r.state
        && (out, files) == Append(par, old(out), old(files), fpi, r.out)
    {
      var data := cur.Read(n);
      var written, status := spu.Copy(packet.pts, data);
      Emit(fpi, written);
      fail := status != 0;
    }

    /**
     * The rest of `mpeg_demux_packet`: n payload bytes staged in `packet`
     * and written to slot fpi; an incomplete payload is dropped when asked
     * to.
     */
    method DemuxPlain(fpi: nat, n: nat) returns (fail: bool)
      requires Valid() && fpi in slots
      modifies cur, packetBuf, this`out, this`files
      ensures Valid() && cur.ofs == old(cur.ofs) + Min(n, |old(cur.Unread())|)
      ensures cur.Unread() == old(cur.Unread())[Min(n, |old(cur.Unread())|)..]
      ensures fail <==> n > |old(cur.Unread())|
      ensures (out, files) == Append(par, old(out), old(files), fpi,
        if fail && par.drop then [] else old(cur.Unread())[..Min(n, |old(cur.Unread())|)])
    {
      fail := BufRead(packetBuf, n);
      Settle(fpi, fail && par.drop);
    }

    /** The staged packet is dropped when `drop` holds, and written to slot fpi otherwise. */
    method Settle(fpi: nat, drop: bool)
      requires Valid() && fpi in slots
      modifies packetBuf, this`out, this`files
      ensures Valid() && packetBuf.cnt == 0
      ensures (out, files) == Append(par, old(out), old(files), fpi, if drop then [] else old(packetBuf.Staged()))
    {
      if drop {
        AppendNothing(par, out, files, fpi);
        Discard(packetBuf);
      } else {
        Deliver(fpi);
      }
    }

    /** `clear`: the staged bytes of b are dropped. */
    method Discard(b: Staging.Buffer)
      requires Valid() && (b == packBuf || b == shdrBuf || b == packetBuf)
      modifies b
      ensures Valid() && b.cnt == 0 && b.store == old(b.store) && b.max == old(b.max)
    {
      b.Clear();
    }

    /** `mpeg_buf_write_clear(&packet, fp[fpi])`: the staged packet goes to slot fpi. */
    method Deliver(fpi: nat)
      requires Valid() && fpi in slots
      modifies packetBuf, this`out, this`files
      ensures Valid() && packetBuf.cnt == 0
      ensures (out, files) == Append(par, old(out), old(files), fpi, old(packetBuf.Staged()))
    {
      ghost var staged := packetBuf.Staged();
      assert |staged| == packetBuf.cnt;
      var written, short := packetBuf.WriteClear(packetBuf.cnt);
      assert written == staged;
      Emit(fpi, written);
    }

    // -------------------------------------------------------------------
    // The handler checkpoints

    /**
     * `mpeg->mpeg_skip`: installed by the lister, which adds the byte to
     * its pending run, and by the remuxer, which copies it when skipped
     * bytes are kept.
     */
    method OnSkip() returns (fail: bool)
      requires Valid()
      modifies cur, this`run, this`out
      ensures Valid()
      ensures Skipped(mode == Remux && par.remuxSkipped, old(cur.Unread()), old(cur.ofs), old(out),
                      cur.Unread(), cur.ofs, out, fail)
      ensures run == if mode == List then AddSkip(old(run), old(cur.ofs)) else old(run)
    {
      fail := false;
      if mode == List {
        ListSkip();
      } else if mode == Remux {
        fail := RemuxSkip();
      }
    }

    /**
     * One pass of the loop of `mpegd_seek_header`: the skip handler, then
     * one byte forward, counted in `skip_cnt`.  Fails at the end of the
     * input, after the lister has already counted the byte that is not
     * there.
     */
    method SkipOne(ghost u: seq<Byte>) returns (fail: bool)
      requires Valid() && StatsOk(stats) && u == cur.Unread()
      modifies cur, this`run, this`out, this`stats
      ensures Valid() && StatsOk(stats) && Forward(u, old(cur.ofs), cur.Unread(), cur.ofs)
      ensures fail <==> u == []
      ensures !fail ==>
        && cur.ofs == old(cur.ofs) + 1 && cur.Unread() == u[1..]
        && stats == old(stats).(skipCnt := (old(stats.skipCnt) + 1) % WORD)
      ensures fail ==> cur.Unread() == [] && stats == old(stats)
      ensures run == if mode == List then AddSkip(old(run), old(cur.ofs)) else old(run)
      ensures out == if mode == Remux && par.remuxSkipped then old(out) + u[..Min(1, |u|)] else old(out)
    {
      ghost var o, out0 := cur.ofs, out;
      var target := cur.ofs + 1;
      fail := OnSkip();
      ghost var u1, o1, out1 := cur.Unread(), cur.ofs, out;
      if fail {
        SkipFailed(mode == Remux && par.remuxSkipped, u, o, out0, u1, o1, out1);
        return;
      }
      fail := SetOffset(target);
      SkipSteps(mode == Remux && par.remuxSkipped, u, o, out0, u1, o1, out1, target, fail, cur.Unread(), cur.ofs);
      if fail {
        return;
      }
      CountSkip();
    }

    /** `skip_cnt += 1`, on 32 bits. */
    method CountSkip()
      requires Valid() && StatsOk(stats)
      modifies this`stats
      ensures Valid() && StatsOk(stats) && stats == old(stats).(skipCnt := (old(stats.skipCnt) + 1) % WORD)
    {
      stats := stats.(skipCnt := (stats.skipCnt + 1) % WORD);
    }

    /**
     * `mpegd_seek_header`: bytes are skipped one at a time until the next
     * three are the packet start prefix 0x000001.  It stops after exactly
     * k = `SyncOffset` bytes, each counted in `skip_cnt`, copied by the
     * remuxer and added to the lister's run; it fails when the input ends
     * first.
     */
    method SeekHeader() returns (fail: bool, ghost k: nat)
      requires Valid() && StatsOk(stats)
      modifies cur, cur.buf, this`run, this`out, this`stats
      ensures Valid() && StatsOk(stats) && Forward(old(cur.Unread()), old(cur.ofs), cur.Unread(), cur.ofs)
      ensures stats == old(stats).(skipCnt := stats.skipCnt)
      ensures fail ==> cur.Unread() == []
      ensures k == SyncOffset(old(cur.Unread())) && (fail <==> k == |old(cur.Unread())|)
      ensures !fail ==>
        Sought(old(cur.Unread()), old(cur.ofs), old(stats), old(run), old(out), k)
        && Peek(cur.Unread(), 0, 24) == PACKET_START
      ensures fail ==> Exhausted(old(cur.Unread()), old(cur.ofs), old(stats), old(run), old(out))
    {
      ghost var u0, o0, s0, r0, out0 := cur.Unread(), cur.ofs, stats, run, out;
      assert u0[0..] == u0 && u0[..0] == [] && out0 + [] == out0;
      fail, k := SeekLoop(u0, o0, s0, r0, out0);
      if !fail {
        SeekStop(u0, k);
      }
    }

    /**
     * The search has passed over the first k bytes of u0 from offset o0:
     * each is counted in `skip_cnt`, added to the lister's run and, when
     * the remuxer keeps skipped bytes, copied to its output.
     */
    ghost predicate Sought(u0: seq<Byte>, o0: nat, s0: Stats, r0: SkipRun, out0: seq<Byte>, k: nat)
      reads this`stats, this`run, this`out, cur, cur.buf
    {
      && cur.Valid()
      && SoughtAt(u0, o0, s0, r0, out0, k, mode == List, mode == Remux && par.remuxSkipped,
                  cur.Unread(), cur.ofs, stats, run, out)
    }

    /**
     * The search ran out of input: every byte of u0 was passed over as in
     * `Sought`, and the lister counted one more byte, at the end.
     */
    ghost predicate Exhausted(u0: seq<Byte>, o0: nat, s0: Stats, r0: SkipRun, out0: seq<Byte>)
      reads this`stats, this`run, this`out, cur, cur.buf
    {
      && cur.Valid()
      && ExhaustedAt(u0, o0, s0, r0, out0, mode == List, mode == Remux && par.remuxSkipped,
                     cur.Unread(), cur.ofs, stats, run, out)
    }

    /** The loop of `mpegd_seek_header`, from the state `Sought` describes with nothing skipped yet. */
    method SeekLoop(ghost u0: seq<Byte>, ghost o0: nat, ghost s0: Stats, ghost r0: SkipRun, ghost out0: seq<Byte>)
      returns (fail: bool, ghost k: nat)
      requires Valid() && StatsOk(stats) && Sought(u0, o0, s0, r0, out0, 0)
      modifies cur, cur.buf, this`run, this`out, this`stats
      ensures Valid() && StatsOk(stats) && k <= SyncOffset(u0) && (fail <==> k == |u0|)
      ensures !fail ==> Sought(u0, o0, s0, r0, out0, k) && Peek(u0[k..], 0, 24) == PACKET_START
      ensures fail ==> Exhausted(u0, o0, s0, r0, out0)
    {
      k := 0;
      var v := GetBits(0, 24);
      while v != PACKET_START
        invariant Valid() && StatsOk(stats) && k <= SyncOffset(u0) && Sought(u0, o0, s0, r0, out0, k)
        invariant v == Peek(u0[k..], 0, 24)
        decreases |u0| - k
      {
        SeekStep(u0, k);
        fail, v := SeekIter(u0, o0, s0, r0, out0, k);
        if fail {
          return;
        }
        k := k + 1;
      }
      fail := false;
    }

    /** One byte passed over, then the next 24 bits looked at. */
    method SeekIter(ghost u0: seq<Byte>, ghost o0: nat, ghost s0: Stats, ghost r0: SkipRun,
                    ghost out0: seq<Byte>, ghost k: nat) returns (fail: bool, v: nat)
      requires Valid() && StatsOk(stats) && Sought(u0, o0, s0, r0, out0, k)
      modifies cur, cur.buf, this`run, this`out, this`stats
      ensures Valid() && StatsOk(stats) && (fail <==> k == |u0|)
      ensures !fail ==> Sought(u0, o0, s0, r0, out0, k + 1) && v == Peek(u0[k + 1..], 0, 24)
      ensures fail ==> Exhausted(u0, o0, s0, r0, out0)
    {
      v := 0;
      fail := SeekAdvance(u0, o0, s0, r0, out0, k);
      if !fail {
        v := GetBits(0, 24);
      }
    }

    /** `SkipOne` after k bytes passed over: k + 1 of them, or the end of the input. */
    method SeekAdvance(ghost u0: seq<Byte>, ghost o0: nat, ghost s0: Stats, ghost r0: SkipRun,
                       ghost out0: seq<Byte>, ghost k: nat) returns (fail: bool)
      requires Valid() && StatsOk(stats) && Sought(u0, o0, s0, r0, out0, k)
      modifies cur, this`run, this`out, this`stats
      ensures Valid() && StatsOk(stats) && (fail <==> k == |u0|)
      ensures !fail ==> Sought(u0, o0, s0, r0, out0, k + 1)
      ensures fail ==> Exhausted(u0, o0, s0, r0, out0)
    {
      ghost var u, o, s, r, out1 := cur.Unread(), cur.ofs, stats, run, out;
      fail := SkipOne(u);
      SeekStepped(u0, o0, s0, r0, out0, k, mode == List, mode == Remux && par.remuxSkipped,
                  u, o, s, r, out1, fail, cur.Unread(), cur.ofs, stats, run, out);
    }

    // -------------------------------------------------------------------
    // System headers

    /**
     * `mpeg->mpeg_system_header`: the lister prints it, the remuxer writes
     * the staged pack header and copies it; the scanner's and the
     * demuxer's handlers do nothing.  Only the remuxer's can fail, on a
     * short read.
     */
    method OnSystemHeader() returns (fail: bool)
      requires Valid()
      modifies cur, packBuf, shdrBuf, this`out, this`log, this`run
      ensures Valid() && Forward(old(cur.Unread()), old(cur.ofs), cur.Unread(), cur.ofs)
      ensures cur.ofs <= old(cur.ofs) + shdr.size
      ensures fail ==> mode == Remux && cur.Unread() == []
      ensures mode != Remux ==> cur.ofs == old(cur.ofs) && out == old(out)
      ensures mode != List ==> log == old(log) && run == old(run)
      ensures mode == List && !par.noShdr ==>
        log == old(log) + Flush(old(run)).0 + [SystemHeaderLine(cur.ofs, Before(stats.shdrCnt), shdr)]
      ensures mode == Remux && !(par.noShdr && stats.shdrCnt > 1) ==>
        out == old(out) + old(packBuf.Staged())
          + (if fail then [] else old(cur.Unread())[..Min(shdr.size, |old(cur.Unread())|)])
    {
      fail := false;
      if mode == List {
        ListSystemHeader();
      } else if mode == Remux {
        fail := RemuxSystemHeader();
      }
      if mode != Remux {
        ForwardStay(cur.Unread(), cur.ofs);
      }
    }

    /**
     * `mpegd_parse_system_header`: the header is read and counted, its
     * handler is called, and the cursor moves to the end of the header;
     * a failing handler stops the parse there.
     */
    method ParseSystemHeader() returns (fail: bool)
      requires Valid() && StatsOk(stats)
      modifies cur, cur.buf, packBuf, shdrBuf, this`out, this`log, this`run, this`shdr, this`stats
      ensures Valid() && StatsOk(stats) && Forward(old(cur.Unread()), old(cur.ofs), cur.Unread(), cur.ofs)
      ensures shdr == DecodeSystemHeader(old(cur.Unread()))
      ensures stats == old(stats).(shdrCnt := (old(stats.shdrCnt) + 1) % WORD)
      ensures fail ==> mode == Remux && cur.Unread() == []
      ensures !fail ==> cur.ofs == old(cur.ofs) + shdr.size
    {
      ReadSystemHeader();
      fail := HandleSystemHeader();
    }

    /** The fields of `mpegd_parse_system_header` read into `shdr`, and `shdr_cnt` raised. */
    method ReadSystemHeader()
      requires Valid() && StatsOk(stats)
      modifies cur, cur.buf, this`shdr, this`stats
      ensures Valid() && StatsOk(stats) && cur.Unread() == old(cur.Unread()) && cur.ofs == old(cur.ofs)
      ensures shdr == DecodeSystemHeader(old(cur.Unread())) && shdr.size <= 0xffff + 6
      ensures stats == old(stats).(shdrCnt := (old(stats.shdrCnt) + 1) % WORD)
    {
      SystemHeaderShape(cur.Unread());
      shdr := Decoding.ReadSystemHeader(cur);
      stats := stats.(shdrCnt := (stats.shdrCnt + 1) % WORD);
    }

    /** The system header handler, then the cursor moved to the end of the header unless it failed. */
    method HandleSystemHeader() returns (fail: bool)
      requires Valid() && shdr.size <= 0xffff + 6
      modifies cur, packBuf, shdrBuf, this`out, this`log, this`run
      ensures Valid() && Forward(old(cur.Unread()), old(cur.ofs), cur.Unread(), cur.ofs)
      ensures fail ==> mode == Remux && cur.Unread() == []
      ensures !fail ==> cur.ofs == old(cur.ofs) + shdr.size
    {
      ghost var u, o := cur.Unread(), cur.ofs;
      var target := cur.ofs + shdr.size;
      fail := OnSystemHeader();
      if fail {
        return;
      }
      ghost var u1, o1 := cur.Unread(), cur.ofs;
      MoveTo(target);
      ForwardTrans(u, o, u1, o1, cur.Unread(), cur.ofs);
    }

    // -------------------------------------------------------------------
    // Packets

    /** A packet handler moves at most to the end of the packet. */
    lemma AfterBound(u: seq<Byte>, skip: nat, n: nat)
      ensures |After(u, skip, n)| <= n
    {
    }

    /**
     * `mpeg->mpeg_packet`, the handler of the mode.  Only the remuxer's
     * (a short read) and the demuxer's (a payload that cannot be written)
     * fail; the demuxer's fails without moving when the packet is too
     * small for its header.
     */
    method OnPacket() returns (fail: bool)
      requires Valid()
      modifies cur, packBuf, packetBuf, spu, this`log, this`run, this`pts1, this`pts2, this`out
      modifies this`files, this`names, this`slots, this`stream, this`substream
      ensures Valid() && Forward(old(cur.Unread()), old(cur.ofs), cur.Unread(), cur.ofs)
      ensures cur.ofs <= old(cur.ofs) + packet.size
      ensures fail ==> mode == Remux || mode == Demux
      ensures mode == List ==> cur.ofs == old(cur.ofs)
      ensures mode != Scan && mode != List ==> log == old(log)
      ensures mode != Demux ==> files == old(files) && slots == old(slots) && stream == old(stream)
      ensures mode == Demux && !old(Excluded()) && DemuxPayload(packet, par.dvdac3).None? ==>
        fail && cur.ofs == old(cur.ofs)
    {
      if mode == Scan || mode == List {
        ReportPacket();
        fail := false;
      } else {
        fail := WritePacketOut();
      }
    }

    /** The scanner's and the lister's packet handlers, which only print. */
    method ReportPacket()
      requires Valid() && (mode == Scan || mode == List)
      modifies cur, this`log, this`run, this`pts1, this`pts2
      ensures Valid() && Forward(old(cur.Unread()), old(cur.ofs), cur.Unread(), cur.ofs)
      ensures cur.ofs <= old(cur.ofs) + packet.size
      ensures mode == List ==> cur.ofs == old(cur.ofs)
    {
      if mode == Scan {
        ScanPacket();
      } else {
        ListPacket();
        ForwardStay(cur.Unread(), cur.ofs);
      }
    }

    /** The remuxer's and the demuxer's packet handlers, which write the packet out. */
    method WritePacketOut() returns (fail: bool)
      requires Valid() && (mode == Remux || mode == Demux)
      modifies cur, packBuf, packetBuf, spu, this`out, this`files, this`names, this`slots, this`stream, this`substream
      ensures Valid() && Forward(old(cur.Unread()), old(cur.ofs), cur.Unread(), cur.ofs)
      ensures cur.ofs <= old(cur.ofs) + packet.size
      ensures mode != Demux ==> files == old(files) && slots == old(slots) && stream == old(stream)
      ensures mode == Demux && !old(Excluded()) && DemuxPayload(packet, par.dvdac3).None? ==>
        fail && cur.ofs == old(cur.ofs)
    {
      if mode == Remux {
        fail := RemuxPacket();
      } else {
        fail := DemuxOnPacket();
      }
    }

    /** `mpeg_demux_packet`, seen from the parser: it moves at most to the end of the packet. */
    method DemuxOnPacket() returns (fail: bool)
      requires Valid()
      modifies cur, packetBuf, spu, this`out, this`files, this`names, this`slots, this`stream, this`substream
      ensures Valid() && Forward(old(cur.Unread()), old(cur.ofs), cur.Unread(), cur.ofs)
      ensures cur.ofs <= old(cur.ofs) + packet.size
      ensures !old(Excluded()) && DemuxPayload(packet, par.dvdac3).None? ==> fail && cur.ofs == old(cur.ofs)
    {
      ghost var u := cur.Unread();
      var skip := PayloadSkip(packet, par.dvdac3);
      if skip <= packet.size {
        AfterBound(u, skip, packet.size - skip);
      }
      fail := DemuxPacket(u, spu.State(), packet);
    }

    /**
     * `mpegd_parse_packet`: the header is read into `packet`; a packet
     * `mpeg_packet_check` rejects is passed over by one byte and not
     * counted; any other is counted, handed to the mode's handler, and
     * the cursor moves to its end.  The result is not modelled: the
     * only caller ignores it.
     */
    method ParsePacket()
      requires Valid() && StatsOk(stats)
      modifies cur, cur.buf, packBuf, packetBuf, spu, this`stats, this`packet, this`log, this`run, this`pts1, this`pts2
      modifies this`out, this`files, this`names, this`slots, this`stream, this`substream
      ensures Valid() && StatsOk(stats) && Forward(old(cur.Unread()), old(cur.ofs), cur.Unread(), cur.ofs)
      ensures packet == DecodePacket(old(cur.Unread()))
      ensures PacketInvalid(par.packetMax, old(stream), packet) ==>
        cur.ofs == old(cur.ofs) + 1 && stats == old(stats)
      ensures !PacketInvalid(par.packetMax, old(stream), packet) ==>
        cur.ofs == old(cur.ofs) + packet.size && stats == Count(old(stats), packet)
      ensures cur.ofs > old(cur.ofs) && stats.packCnt == old(stats.packCnt)
    {
      ghost var u, o := cur.Unread(), cur.ofs;
      var p := Decoding.ReadPacket(cur);
      PacketShape(u);
      packet := p;
      ForwardStay(u, o);
      if PacketInvalid(par.packetMax, stream, packet) {
        var short := Skip(1);
      } else {
        CountOk(stats, packet);
        Accept();
      }
    }

    /**
     * The accepted half of `mpegd_parse_packet`: counted, handed to the
     * handler, then the cursor moves to the end of the packet.  As
     * written, a failing handler returns before that move, so a packet
     * the demuxer refuses without moving is parsed again and again; here
     * the move always happens.
     */
    method Accept()
      requires Valid() && StatsOk(stats)
      modifies cur, packBuf, packetBuf, spu, this`stats, this`log, this`run, this`pts1, this`pts2
      modifies this`out, this`files, this`names, this`slots, this`stream, this`substream
      ensures Valid() && StatsOk(stats) && Forward(old(cur.Unread()), old(cur.ofs), cur.Unread(), cur.ofs)
      ensures cur.ofs == old(cur.ofs) + packet.size && stats == Count(old(stats), packet)
    {
      CountPacket();
      HandlePacket();
    }

    /** `packet_cnt` and the stream's (and substream's) count and size raised by the packet. */
    method CountPacket()
      requires Valid() && StatsOk(stats)
      modifies this`stats
      ensures Valid() && StatsOk(stats) && stats == Count(old(stats), packet)
    {
      CountOk(stats, packet);
      stats := Count(stats, packet);
    }

    /** The handler, then the cursor moved to the end of the packet. */
    method HandlePacket()
      requires Valid()
      modifies cur, packBuf, packetBuf, spu, this`log, this`run, this`pts1, this`pts2
      modifies this`out, this`files, this`names, this`slots, this`stream, this`substream
      ensures Valid() && Forward(old(cur.Unread()), old(cur.ofs), cur.Unread(), cur.ofs)
      ensures cur.ofs == old(cur.ofs) + packet.size
    {
      ghost var u, o := cur.Unread(), cur.ofs;
      var target := cur.ofs + packet.size;
      var fail := OnPacket();
      ghost var u1, o1 := cur.Unread(), cur.ofs;
      MoveTo(target);
      ForwardTrans(u, o, u1, o1, cur.Unread(), cur.ofs);
    }

    /** `mpegd_set_offset` to a target at most 2^32 - 1 bytes ahead, its result ignored. */
    method MoveTo(target: nat)
      requires Valid() && cur.ofs <= target < cur.ofs + WORD
      modifies cur
      ensures Valid() && Forward(old(cur.Unread()), old(cur.ofs), cur.Unread(), cur.ofs)
      ensures cur.ofs == target
    {
      var short := SetOffset(target);
    }

    // -------------------------------------------------------------------
    // Packs

    /**
     * `mpeg->mpeg_pack`: the lister prints it, the remuxer stages it (or
     * writes it with `empty_pack`); the scanner's and the demuxer's
     * handlers do nothing.  Only the remuxer's can fail, on a short read.
     */
    method OnPack() returns (fail: bool)
      requires Valid()
      modifies cur, packBuf, this`out, this`log, this`run
      ensures Valid() && Forward(old(cur.Unread()), old(cur.ofs), cur.Unread(), cur.ofs)
      ensures cur.ofs <= old(cur.ofs) + pack.size
      ensures fail ==> mode == Remux && cur.Unread() == []
      ensures mode != Remux ==> cur.ofs == old(cur.ofs) && out == old(out)
      ensures mode != List ==> log == old(log) && run == old(run)
      ensures mode == List && !par.noPack ==>
        log == old(log) + Flush(old(run)).0 + [PackLine(cur.ofs, Before(stats.packCnt), pack)]
      ensures mode == Remux && !fail && par.emptyPack ==>
        out == old(out) + old(cur.Unread())[..Min(pack.size, |old(cur.Unread())|)]
      ensures mode == Remux && (fail || !par.emptyPack) ==>
        out == old(out) && packBuf.Staged() == old(cur.Unread())[..Min(pack.size, |old(cur.Unread())|)]
    {
      fail := false;
      if mode == List {
        ListPack();
      } else if mode == Remux {
        fail := RemuxPack();
      }
      if mode != Remux {
        ForwardStay(cur.Unread(), cur.ofs);
      }
    }

    /** The pack header read into `pack` and `pack_cnt` raised. */
    method ReadPackHeader()
      requires Valid() && StatsOk(stats)
      modifies cur, cur.buf, this`pack, this`stats
      ensures Valid() && StatsOk(stats) && cur.Unread() == old(cur.Unread()) && cur.ofs == old(cur.ofs)
      ensures pack == DecodePack(old(cur.Unread()), old(pack.stuff)) && 4 <= pack.size <= 21
      ensures stats == old(stats).(packCnt := (old(stats.packCnt) + 1) % WORD)
    {
      PackSize(cur.Unread(), pack.stuff);
      pack := Decoding.ReadPack(cur, pack.stuff);
      stats := stats.(packCnt := (stats.packCnt + 1) % WORD);
    }

    /** The pack handler, then the cursor moved to the end of the pack header unless it failed. */
    method HandlePack() returns (fail: bool)
      requires Valid() && pack.size <= 21
      modifies cur, packBuf, this`out, this`log, this`run
      ensures Valid() && Forward(old(cur.Unread()), old(cur.ofs), cur.Unread(), cur.ofs)
      ensures fail ==> mode == Remux && cur.Unread() == []
      ensures !fail ==> cur.ofs == old(cur.ofs) + pack.size
    {
      ghost var u, o := cur.Unread(), cur.ofs;
      var target := cur.ofs + pack.size;
      fail := OnPack();
      if fail {
        return;
      }
      ghost var u1, o1 := cur.Unread(), cur.ofs;
      MoveTo(target);
      ForwardTrans(u, o, u1, o1, cur.Unread(), cur.ofs);
    }

    /**
     * `mpegd_parse_pack`: the pack header is read, counted and handed to
     * its handler, which may stop the parse; then come an optional system
     * header and the run of packets that follows it.  Only the remuxer
     * stops the parse.
     */
    method ParsePack() returns (fail: bool)
      requires Valid() && StatsOk(stats)
      modifies cur, cur.buf, packBuf, shdrBuf, packetBuf, spu, this`stats, this`pack, this`shdr, this`packet
      modifies this`log, this`run, this`pts1, this`pts2, this`out, this`files, this`names, this`slots
      modifies this`stream, this`substream
      ensures Valid() && StatsOk(stats) && Forward(old(cur.Unread()), old(cur.ofs), cur.Unread(), cur.ofs)
      ensures pack == DecodePack(old(cur.Unread()), old(pack.stuff))
      ensures stats.packCnt == (old(stats.packCnt) + 1) % WORD
      ensures fail ==> mode == Remux
      ensures !fail ==> cur.ofs >= old(cur.ofs) + pack.size
    {
      ghost var u, o := cur.Unread(), cur.ofs;
      ReadPackHeader();
      fail := HandlePack();
      if fail {
        return;
      }
      ghost var u1, o1 := cur.Unread(), cur.ofs;
      fail := PackBody();
      ForwardTrans(u, o, u1, o1, cur.Unread(), cur.ofs);
    }

    /**
     * What follows a pack header: the start-code search, an optional
     * system header (whose failing handler stops the parse) with another
     * search after it, then the packet run.
     */
    method PackBody() returns (fail: bool)
      requires Valid() && StatsOk(stats)
      modifies cur, cur.buf, packBuf, shdrBuf, packetBuf, spu, this`stats, this`shdr, this`packet
      modifies this`log, this`run, this`pts1, this`pts2, this`out, this`files, this`names, this`slots
      modifies this`stream, this`substream
      ensures Valid() && StatsOk(stats) && Forward(old(cur.Unread()), old(cur.ofs), cur.Unread(), cur.ofs)
      ensures stats.packCnt == old(stats.packCnt)
      ensures fail ==> mode == Remux
    {
      ghost var u, o := cur.Unread(), cur.ofs;
      var _, _ := SeekHeader();
      ghost var u1, o1 := cur.Unread(), cur.ofs;
      fail := OptionalSystemHeader();
      ForwardTrans(u, o, u1, o1, cur.Unread(), cur.ofs);
      if fail {
        return;
      }
      ghost var u2, o2 := cur.Unread(), cur.ofs;
      PacketRun();
      ForwardTrans(u, o, u2, o2, cur.Unread(), cur.ofs);
    }

    /** A system header at the cursor is parsed, then the next start code sought. */
    method OptionalSystemHeader() returns (fail: bool)
      requires Valid() && StatsOk(stats)
      modifies cur, cur.buf, packBuf, shdrBuf, this`stats, this`shdr, this`log, this`run, this`out
      ensures Valid() && StatsOk(stats) && Forward(old(cur.Unread()), old(cur.ofs), cur.Unread(), cur.ofs)
      ensures stats.packCnt == old(stats.packCnt)
      ensures fail ==> mode == Remux
    {
      var code := GetBits(0, 32);
      fail := false;
      if code == SYSTEM_HEADER {
        fail := SystemHeaderThenSeek();
      } else {
        ForwardStay(cur.Unread(), cur.ofs);
      }
    }

    /** `mpegd_parse_system_header`, then `mpegd_seek_header` unless it failed. */
    method SystemHeaderThenSeek() returns (fail: bool)
      requires Valid() && StatsOk(stats)
      modifies cur, cur.buf, packBuf, shdrBuf, this`stats, this`shdr, this`log, this`run, this`out
      ensures Valid() && StatsOk(stats) && Forward(old(cur.Unread()), old(cur.ofs), cur.Unread(), cur.ofs)
      ensures stats.packCnt == old(stats.packCnt)
      ensures fail ==> mode == Remux
    {
      ghost var u, o := cur.Unread(), cur.ofs;
      fail := ParseSystemHeader();
      if fail {
        return;
      }
      ghost var u1, o1 := cur.Unread(), cur.ofs;
      var _, _ := SeekHeader();
      ForwardTrans(u, o, u1, o1, cur.Unread(), cur.ofs);
    }

    /**
     * The packet loop of `mpegd_parse_pack`: packets are parsed while the
     * cursor is at a start code that is not a pack, end or system header
     * code, each followed by a start-code search.
     */
    method PacketRun()
      requires Valid() && StatsOk(stats)
      modifies cur, cur.buf, packBuf, packetBuf, spu, this`stats, this`packet, this`log, this`run, this`pts1, this`pts2
      modifies this`out, this`files, this`names, this`slots, this`stream, this`substream
      ensures Valid() && StatsOk(stats) && Forward(old(cur.Unread()), old(cur.ofs), cur.Unread(), cur.ofs)
      ensures stats.packCnt == old(stats.packCnt)
    {
      ghost var u, o := cur.Unread(), cur.ofs;
      ForwardStay(u, o);
      var v := GetBits(0, 24);
      while v == PACKET_START
        invariant Valid() && StatsOk(stats) && Forward(u, o, cur.Unread(), cur.ofs)
        invariant stats.packCnt == old(stats.packCnt) && v == Peek(cur.Unread(), 0, 24)
        decreases |cur.Unread()|
      {
        var sid := GetBits(24, 8);
        if sid == 0xba || sid == 0xb9 || sid == 0xbb {
          break;
        }
        ghost var u1, o1 := cur.Unread(), cur.ofs;
        PacketStep();
        ForwardTrans(u, o, u1, o1, cur.Unread(), cur.ofs);
        v := GetBits(0, 24);
      }
    }

    /** One packet of the run and the search after it: the cursor moves forward by at least one byte. */
    method PacketStep()
      requires Valid() && StatsOk(stats) && Peek(cur.Unread(), 0, 24) == PACKET_START
      modifies cur, cur.buf, packBuf, packetBuf, spu, this`stats, this`packet, this`log, this`run, this`pts1, this`pts2
      modifies this`out, this`files, this`names, this`slots, this`stream, this`substream
      ensures Valid() && StatsOk(stats) && Forward(old(cur.Unread()), old(cur.ofs), cur.Unread(), cur.ofs)
      ensures stats.packCnt == old(stats.packCnt) && |cur.Unread()| < |old(cur.Unread())|
    {
      ghost var u, o := cur.Unread(), cur.ofs;
      PeekInside(u, 0, 24);
      ParsePacket();
      ghost var u1, o1 := cur.Unread(), cur.ofs;
      ForwardShrinks(u, o, u1, o1);
      var _, _ := SeekHeader();
      ForwardTrans(u, o, u1, o1, cur.Unread(), cur.ofs);
    }

    /**
     * `mpegd_parse_packet` as written: a handler that fails makes it
     * return at once, before the move to the end of the packet.  The
     * demuxer's handler refuses a packet too small for its header without
     * moving, so that packet leaves the unread bytes as they were.
     */
    method ParsePacketAsWritten() returns (fail: bool)
      requires Valid() && StatsOk(stats)
      modifies cur, cur.buf, packBuf, packetBuf, spu, this`stats, this`packet, this`log, this`run, this`pts1, this`pts2
      modifies this`out, this`files, this`names, this`slots, this`stream, this`substream
      ensures Valid() && StatsOk(stats) && Forward(old(cur.Unread()), old(cur.ofs), cur.Unread(), cur.ofs)
      ensures packet == DecodePacket(old(cur.Unread()))
      ensures PacketInvalid(par.packetMax, old(stream), packet) ==>
        cur.ofs == old(cur.ofs) + 1 && stats == old(stats)
      ensures !PacketInvalid(par.packetMax, old(stream), packet) ==> stats == Count(old(stats), packet)
      ensures !PacketInvalid(par.packetMax, old(stream), packet) && !fail ==>
        cur.ofs == old(cur.ofs) + packet.size
      ensures (mode == Demux && !PacketInvalid(par.packetMax, old(stream), packet)
        && !StreamExcluded(old(stream), old(substream), packet.sid, packet.ssid)
        && DemuxPayload(packet, par.dvdac3).None?) ==>
        fail && cur.Unread() == old(cur.Unread()) && cur.ofs == old(cur.ofs)
    {
      ghost var u, o := cur.Unread(), cur.ofs;
      var p := Decoding.ReadPacket(cur);
      PacketShape(u);
      packet := p;
      ForwardStay(u, o);
      if PacketInvalid(par.packetMax, stream, packet) {
        fail := Skip(1);
      } else {
        fail := AcceptAsWritten();
      }
    }

    /**
     * The accepted half of `mpegd_parse_packet` as written: counted,
     * handed to the handler, and moved to the end of the packet only when
     * the handler succeeds.
     */
    method AcceptAsWritten() returns (fail: bool)
      requires Valid() && StatsOk(stats)
      modifies cur, packBuf, packetBuf, spu, this`stats, this`log, this`run, this`pts1, this`pts2
      modifies this`out, this`files, this`names, this`slots, this`stream, this`substream
      ensures Valid() && StatsOk(stats) && Forward(old(cur.Unread()), old(cur.ofs), cur.Unread(), cur.ofs)
      ensures stats == Count(old(stats), packet)
      ensures !fail ==> cur.ofs == old(cur.ofs) + packet.size
      ensures mode == Demux && !old(Excluded()) && DemuxPayload(packet, par.dvdac3).None? ==>
        fail && cur.ofs == old(cur.ofs)
    {
      CountPacket();
      fail := HandlePacketAsWritten();
    }

    /** The handler, then the move to the end of the packet unless the handler failed. */
    method HandlePacketAsWritten() returns (fail: bool)
      requires Valid()
      modifies cur, packBuf, packetBuf, spu, this`log, this`run, this`pts1, this`pts2
      modifies this`out, this`files, this`names, this`slots, this`stream, this`substream
      ensures Valid() && Forward(old(cur.Unread()), old(cur.ofs), cur.Unread(), cur.ofs)
      ensures !fail ==> cur.ofs == old(cur.ofs) + packet.size
      ensures mode == Demux && !old(Excluded()) && DemuxPayload(packet, par.dvdac3).None? ==>
        fail && cur.ofs == old(cur.ofs)
    {
      ghost var u, o := cur.Unread(), cur.ofs;
      var target := cur.ofs + packet.size;
      fail := OnPacket();
      if fail {
        return;
      }
      ghost var u1, o1 := cur.Unread(), cur.ofs;
      MoveTo(target);
      ForwardTrans(u, o, u1, o1, cur.Unread(), cur.ofs);
    }

    // -------------------------------------------------------------------
    // End codes and stray start codes

    /**
     * `mpeg->mpeg_end`: the scanner and the lister print it, the remuxer
     * copies it and may start its next output file; the demuxer's handler
     * does nothing.  Only the remuxer's can fail.
     */
    method OnEnd() returns (fail: bool)
      requires Valid()
      modifies cur, this`log, this`run, this`out, this`segments, this`sequence
      ensures Valid() && Forward(old(cur.Unread()), old(cur.ofs), cur.Unread(), cur.ofs)
      ensures cur.ofs == old(cur.ofs) || cur.ofs == old(cur.ofs) + Min(4, |old(cur.Unread())|)
      ensures fail ==> mode == Remux
      ensures mode != Remux ==> cur.ofs == old(cur.ofs) && out == old(out) && segments == old(segments)
      ensures mode == Scan ==> log == old(log) + (if par.noEnd then [] else [EndLine(cur.ofs)])
      ensures mode == List && !par.noEnd ==> log == old(log) + Flush(old(run)).0 + [EndLine(cur.ofs)]
      ensures mode != Scan && mode != List ==> log == old(log)
    {
      fail := false;
      if mode == Scan || mode == List {
        PrintEnd();
      } else if mode == Remux {
        fail := RemuxEnd();
      }
      if mode != Remux {
        ForwardStay(cur.Unread(), cur.ofs);
      }
    }

    /** The scanner's and the lister's end code handlers. */
    method PrintEnd()
      requires mode == Scan || mode == List
      modifies this`log, this`run
      ensures mode == Scan ==> log == old(log) + (if par.noEnd then [] else [EndLine(cur.ofs)])
      ensures mode == List && !par.noEnd ==> log == old(log) + Flush(old(run)).0 + [EndLine(cur.ofs)]
      ensures mode == List && par.noEnd ==> log == old(log)
    {
      if mode == Scan {
        ScanEnd();
      } else {
        ListEnd();
      }
    }

    /**
     * The end code case of `mpegd_parse`: counted in `end_cnt`, handed to
     * its handler, then passed over; a failing handler stops the parse.
     */
    method ParseEnd() returns (fail: bool)
      requires Valid() && StatsOk(stats) && Peek(cur.Unread(), 0, 32) == END_CODE
      modifies cur, this`stats, this`log, this`run, this`out, this`segments, this`sequence
      ensures Valid() && StatsOk(stats) && Forward(old(cur.Unread()), old(cur.ofs), cur.Unread(), cur.ofs)
      ensures stats == old(stats).(endCnt := (old(stats.endCnt) + 1) % WORD)
      ensures fail ==> mode == Remux
      ensures !fail ==> cur.ofs == old(cur.ofs) + 4
    {
      PeekInside(cur.Unread(), 0, 32);
      stats := stats.(endCnt := (stats.endCnt + 1) % WORD);
      fail := HandleEnd();
    }

    /** The end code handler, then the cursor moved past the 4-byte code. */
    method HandleEnd() returns (fail: bool)
      requires Valid() && |cur.Unread()| >= 4
      modifies cur, this`log, this`run, this`out, this`segments, this`sequence
      ensures Valid() && Forward(old(cur.Unread()), old(cur.ofs), cur.Unread(), cur.ofs)
      ensures fail ==> mode == Remux
      ensures !fail ==> cur.ofs == old(cur.ofs) + 4
    {
      ghost var u, o := cur.Unread(), cur.ofs;
      var target := cur.ofs + 4;
      fail := OnEnd();
      if fail {
        return;
      }
      ghost var u1, o1 := cur.Unread(), cur.ofs;
      fail := SetOffset(target);
      ForwardTrans(u, o, u1, o1, cur.Unread(), cur.ofs);
    }

    /**
     * The default case of `mpegd_parse`, a start code that begins no pack
     * and no end code: the skip handler, then one byte forward.  The parse
     * stops with 1 when the handler fails and with 0 when the input ends.
     */
    method ParseSkip() returns (stop: bool, r: nat)
      requires Valid()
      modifies cur, this`run, this`out
      ensures Valid() && Forward(old(cur.Unread()), old(cur.ofs), cur.Unread(), cur.ofs)
      ensures stop <==> old(cur.Unread()) == []
      ensures !stop ==> cur.ofs == old(cur.ofs) + 1 && cur.Unread() == old(cur.Unread())[1..]
      ensures stop ==> cur.Unread() == [] && r <= 1 && (r == 1 <==> mode == Remux && par.remuxSkipped)
      ensures run == if mode == List then AddSkip(old(run), old(cur.ofs)) else old(run)
    {
      ghost var u, o, out0 := cur.Unread(), cur.ofs, out;
      var target := cur.ofs + 1;
      var fail := OnSkip();
      ghost var u1, o1, out1 := cur.Unread(), cur.ofs, out;
      if fail {
        SkipFailed(mode == Remux && par.remuxSkipped, u, o, out0, u1, o1, out1);
        return true, 1;
      }
      fail := SetOffset(target);
      SkipSteps(mode == Remux && par.remuxSkipped, u, o, out0, u1, o1, out1, target, fail, cur.Unread(), cur.ofs);
      if fail {
        return true, 0;
      }
      return false, 0;
    }

    // -------------------------------------------------------------------
    // The parse loop

    /**
     * One item of `mpegd_parse` at a start code: a pack, an end code, or
     * a byte passed over.  When it does not stop the parse it consumes
     * input; it stops with 0 only at the end of the input, and with 1
     * only in the remuxer.
     */
    method ParseItem() returns (stop: bool, r: nat)
      requires Valid() && StatsOk(stats) && Peek(cur.Unread(), 0, 24) == PACKET_START
      modifies cur, cur.buf, packBuf, shdrBuf, packetBuf, spu, this`stats, this`pack, this`shdr, this`packet
      modifies this`log, this`run, this`pts1, this`pts2, this`out, this`files, this`names, this`slots
      modifies this`stream, this`substream, this`segments, this`sequence
      ensures Valid() && StatsOk(stats) && Forward(old(cur.Unread()), old(cur.ofs), cur.Unread(), cur.ofs)
      ensures !stop ==> |cur.Unread()| < |old(cur.Unread())|
      ensures stop ==> (r == 0 && cur.Unread() == []) || (r == 1 && mode == Remux)
    {
      ghost var u, o := cur.Unread(), cur.ofs;
      PeekInside(u, 0, 24);
      var code := GetBits(0, 32);
      if code == PACK_START {
        stop, r := PackItem();
      } else if code == END_CODE {
        stop, r := EndItem();
      } else {
        stop, r := SkipItem();
      }
      if !stop {
        ForwardShrinks(u, o, cur.Unread(), cur.ofs);
      }
    }

    /** The pack case of `mpegd_parse`: a failing pack stops the parse with 1. */
    method PackItem() returns (stop: bool, r: nat)
      requires Valid() && StatsOk(stats)
      modifies cur, cur.buf, packBuf, shdrBuf, packetBuf, spu, this`stats, this`pack, this`shdr, this`packet
      modifies this`log, this`run, this`pts1, this`pts2, this`out, this`files, this`names, this`slots
      modifies this`stream, this`substream
      ensures Valid() && StatsOk(stats) && Forward(old(cur.Unread()), old(cur.ofs), cur.Unread(), cur.ofs)
      ensures !stop ==> cur.ofs > old(cur.ofs)
      ensures stop ==> r == 1 && mode == Remux
    {
      stop := ParsePack();
      r := 1;
    }

    /** The end code case of `mpegd_parse`: a failure stops the parse with 1. */
    method EndItem() returns (stop: bool, r: nat)
      requires Valid() && StatsOk(stats) && Peek(cur.Unread(), 0, 32) == END_CODE
      modifies cur, this`stats, this`log, this`run, this`out, this`segments, this`sequence
      ensures Valid() && StatsOk(stats) && Forward(old(cur.Unread()), old(cur.ofs), cur.Unread(), cur.ofs)
      ensures !stop ==> cur.ofs > old(cur.ofs)
      ensures stop ==> r == 1 && mode == Remux
    {
      stop := ParseEnd();
      r := 1;
    }

    /** The default case of `mpegd_parse`. */
    method SkipItem() returns (stop: bool, r: nat)
      requires Valid() && StatsOk(stats)
      modifies cur, this`run, this`out
      ensures Valid() && StatsOk(stats) && Forward(old(cur.Unread()), old(cur.ofs), cur.Unread(), cur.ofs)
      ensures !stop ==> cur.ofs > old(cur.ofs)
      ensures stop ==> (r == 0 && cur.Unread() == []) || (r == 1 && mode == Remux)
    {
      stop, r := ParseSkip();
    }

    /**
     * `mpegd_parse`: start codes are sought and their items parsed until
     * the input ends (result 0) or a handler fails (result 1).  Only the
     * remuxer's handlers stop it early: the scanner, the lister and the
     * demuxer always read their input to the end.
     */
    method Parse() returns (r: nat)
      requires Valid() && StatsOk(stats)
      modifies this, cur, cur.buf, packBuf, shdrBuf, packetBuf, spu
      ensures Valid() && StatsOk(stats) && Forward(old(cur.Unread()), old(cur.ofs), cur.Unread(), cur.ofs)
      ensures r <= 1
      ensures r == 0 ==> cur.Unread() == []
      ensures r == 1 ==> mode == Remux
    {
      ghost var u0, o0 := cur.Unread(), cur.ofs;
      ForwardStay(u0, o0);
      while true
        invariant Valid() && StatsOk(stats) && Forward(u0, o0, cur.Unread(), cur.ofs)
        decreases |cur.Unread()|
      {
        ghost var u1, o1 := cur.Unread(), cur.ofs;
        var fail, _ := SeekHeader();
        ForwardTrans(u0, o0, u1, o1, cur.Unread(), cur.ofs);
        if fail {
          return 0;
        }
        ghost var u2, o2 := cur.Unread(), cur.ofs;
        var stop;
        stop, r := ParseItem();
        ForwardTrans(u0, o0, u2, o2, cur.Unread(), cur.ofs);
        if stop {
          return;
        }
      }
    }

    // -------------------------------------------------------------------
    // The modes' entry points

    /** `mpeg_list_print_skip` after the parse: the pending run is printed and closed. */
    method FlushRun()
      modifies this`log, this`run
      ensures log == old(log) + Flush(old(run)).0 && run == Flush(old(run)).1 && run.cnt == 0
    {
      var (lines, r) := Flush(run);
      log := log + lines;
      run := r;
    }

    /**
     * The remuxer after the parse: an end code is appended when end codes
     * were not copied, and when splitting the last file is closed.
     */
    method CloseRemux()
      modifies this`out, this`segments
      ensures var last := old(out) + (if par.noEnd then END_BYTES else []);
        if par.split then segments == old(segments) + [last] && out == []
        else segments == old(segments) && out == last
    {
      if par.noEnd {
        out := out + END_BYTES;
      } else {
        assert out + [] == out;
      }
      if par.split {
        segments := segments + [out];
        out := [];
      }
    }

    /**
     * The remuxer's start when splitting: the counter `sequence` restarts
     * at 0 and `mpeg_remux_next_fp`, with no file open yet, opens file 0.
     * The counter is raised before the open, so also when it fails.
     */
    method FirstSegment() returns (fail: bool)
      modifies this`sequence
      ensures sequence == 1
      ensures fail <==> 0 !in par.openable
    {
      sequence := 0;
      fail := sequence !in par.openable;
      sequence := sequence + 1;
    }

    /**
     * `mpeg_scan`, `mpeg_list`, `mpeg_remux` and `mpeg_demux` after their
     * handlers are installed: the remuxer's first file when splitting,
     * the parse, then the lister's last skip run or the remuxer's closing
     * end code and file.  Every mode but the remuxer reads the whole
     * input and succeeds; a splitting remuxer that cannot open its first
     * file fails before reading anything.
     */
    method Run() returns (r: nat)
      requires Valid() && StatsOk(stats)
      modifies this, cur, cur.buf, packBuf, shdrBuf, packetBuf, spu
      ensures Valid() && StatsOk(stats) && r <= 1
      ensures mode != Remux ==> r == 0 && cur.Unread() == []
      ensures mode == List ==> run.cnt == 0
      ensures mode == Remux && par.noEnd && !par.split ==> |out| >= 4 && out[|out| - 4..] == END_BYTES
      ensures mode == Remux && par.split && 0 !in par.openable ==>
        && r == 1 && cur.Unread() == old(cur.Unread()) && cur.ofs == old(cur.ofs)
        && out == old(out) && segments == old(segments) && stats == old(stats)
      ensures mode == Remux && par.split && 0 in par.openable ==>
        out == [] && |segments| > 0 && (par.noEnd ==> EndsWithEnd(segments[|segments| - 1]))
    {
      if mode == Remux && par.split {
        var fail := FirstSegment();
        if fail {
          return 1;
        }
      }
      r := Parse();
      if mode == List {
        FlushRun();
      } else if mode == Remux {
        CloseRemux();
      }
    }
  }

  /** A remuxed file that ends with the end code. */
  predicate EndsWithEnd(b: seq<Byte>)
  {
    |b| >= 4 && b[|b| - 4..] == END_BYTES
  }

  // ---------------------------------------------------------------------
  // A packet the demuxer refuses, as `mpegd_parse_packet` is written

  /**
   * A stream that begins with a valid, selected packet of stream 0xe0
   * whose length field is 0 and whose header byte 0x0f makes the header 7
   * bytes long: the packet loop goes on (a start code, not a pack, end or
   * system header code), the packet is accepted, the demuxer's handler
   * refuses it, and the start-code search finds it again at once.  So as
   * written `ParsePacketAsWritten` leaves the unread bytes as they were,
   * `SeekHeader` moves by `SyncOffset`, which is 0, and the demuxer
   * parses that packet forever; `PacketStep` always moves on.
   */
  lemma DemuxHangAsWritten(u: seq<Byte>, packetMax: nat, stream: seq<bv8>, substream: seq<bv8>, dvdac3: bool)
    requires |u| >= 7 && u[..7] == ShortPacket
    requires IsTable(stream) && IsTable(substream)
    requires stream[0xe0] & INVALID == 0 && stream[0xe0] & SELECT != 0
    requires packetMax == 0 || packetMax >= 6
    ensures Peek(u, 0, 24) == PACKET_START && SyncOffset(u) == 0
    ensures var sid := Peek(u, 24, 8); sid != 0xba && sid != 0xb9 && sid != 0xbb
    ensures var p := DecodePacket(u);
      && p == Packet(1, 0xe0, 0, 6, 7, false, 0, false, 0)
      && !PacketInvalid(packetMax, stream, p)
      && !StreamExcluded(stream, substream, p.sid, p.ssid)
      && DemuxPayload(p, dvdac3).None?
  {
    ShortPacketFields(u);
    ShortPacketDecodes(u);
  }
}
