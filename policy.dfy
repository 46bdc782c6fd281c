/**
 * Stream selection: the per-id flag tables `par_stream` / `par_substream`
 * (bit `SELECT` = process the stream, bit `INVALID` = treat its packets
 * as garbage), the two decisions taken from them for every packet, and
 * the range-list parser `str_get_streams` that fills them from the
 * command line.  Strings are the characters before the terminating NUL.
 */
module Selection {
  import opened Wrappers
  import opened Bits
  import opened Headers

  const SELECT: bv8 := 0x01
  const INVALID: bv8 := 0x02

  /** The largest `unsigned long`. */
  const ULONG_MAX: nat := 0xffff_ffff_ffff_ffff

  /** A flag table has one entry per 8-bit stream id. */
  predicate IsTable(t: seq<bv8>)
  {
    |t| == 256
  }

  // ---------------------------------------------------------------------
  // The two per-packet decisions

  /**
   * `mpeg_packet_check`: the packet is dropped as invalid when a maximum
   * size is set and exceeded, or when its stream is flagged INVALID.
   */
  predicate PacketInvalid(packetMax: nat, stream: seq<bv8>, p: Packet)
    requires IsTable(stream) && p.sid < 256
  {
    (packetMax > 0 && p.size > packetMax) || stream[p.sid] & INVALID != 0
  }

  /**
   * `mpeg_stream_excl`: a packet is excluded when its stream is not
   * selected, or when it is in private stream 1 and its substream is not.
   */
  predicate StreamExcluded(stream: seq<bv8>, substream: seq<bv8>, sid: nat, ssid: nat)
    requires IsTable(stream) && IsTable(substream) && sid < 256 && ssid < 256
  {
    stream[sid] & SELECT == 0 || (sid == 0xbd && substream[ssid] & SELECT == 0)
  }

  /** Clearing a stream's SELECT bit excludes all its packets from then on. */
  lemma DeselectExcludes(stream: seq<bv8>, substream: seq<bv8>, sid: nat, ssid: nat, other: nat)
    requires IsTable(stream) && IsTable(substream) && sid < 256 && ssid < 256 && other < 256
    ensures sid != 0xbd ==> StreamExcluded(stream[sid := stream[sid] & !SELECT], substream, sid, other)
    ensures sid == 0xbd ==> StreamExcluded(stream, substream[ssid := substream[ssid] & !SELECT], sid, ssid)
  {
    assert (stream[sid] & !SELECT) & SELECT == 0;
    assert (substream[ssid] & !SELECT) & SELECT == 0;
  }

  // ---------------------------------------------------------------------
  // `strtoul(str, &end, 0)`

  /** `isspace` in the C locale. */
  predicate IsSpace(c: char)
  {
    c == ' ' || c == '\t' || c == '\n' || c == '\r' || c as int == 11 || c as int == 12
  }

  /** The value of a hexadecimal digit character, 16 for any other character. */
  function DigitValue(c: char): (d: nat)
    ensures d <= 16
  {
    if '0' <= c <= '9' then c as int - '0' as int
    else if 'a' <= c <= 'f' then c as int - 'a' as int + 10
    else if 'A' <= c <= 'F' then c as int - 'A' as int + 10
    else 16
  }

  function SkipSpace(s: string, p: nat): (q: nat)
    requires p <= |s|
    ensures p <= q <= |s|
    decreases |s| - p
  {
    if p < |s| && IsSpace(s[p]) then SkipSpace(s, p + 1) else p
  }

  /** The end of the longest run of base-`base` digits starting at p. */
  function DigitRun(s: string, p: nat, base: nat): (e: nat)
    requires p <= |s|
    ensures p <= e <= |s|
    ensures forall k :: p <= k < e ==> DigitValue(s[k]) < base
    ensures e < |s| ==> DigitValue(s[e]) >= base
    decreases |s| - p
  {
    if p < |s| && DigitValue(s[p]) < base then DigitRun(s, p + 1, base) else p
  }

  /** The number the digits `s[p..e]` spell in base `base`. */
  function DigitsValue(s: string, p: nat, e: nat, base: nat): nat
    requires p <= e <= |s|
    decreases e - p
  {
    if e == p then 0 else DigitsValue(s, p, e - 1, base) * base + DigitValue(s[e - 1])
  }

  /** A conversion result: the `unsigned long` value and `*endptr`. */
  datatype Conversion = Conversion(value: nat, end: nat)

  /**
   * `strtoul` with base 0: leading white space, an optional sign, then
   * hexadecimal after `0x`/`0X`, octal after a leading `0`, decimal
   * otherwise; a value beyond `ULONG_MAX` saturates and a minus sign
   * negates modulo 2^64.  None when no digit follows (`*endptr == str`).
   */
  function StrToUL(s: string, p: nat): (r: Option<Conversion>)
    requires p <= |s|
    ensures r.Some? ==> p < r.value.end <= |s| && r.value.value <= ULONG_MAX
  {
    var q := SkipSpace(s, p);
    var neg := q < |s| && s[q] == '-';
    var q := if q < |s| && (s[q] == '+' || s[q] == '-') then q + 1 else q;
    var hex := q + 2 < |s| && s[q] == '0' && (s[q + 1] == 'x' || s[q + 1] == 'X') && DigitValue(s[q + 2]) < 16;
    var base := if hex then 16 else if q < |s| && s[q] == '0' then 8 else 10;
    var d := if hex then q + 2 else q;
    var e := DigitRun(s, d, base);
    if e == d then None
    else
      var v := DigitsValue(s, d, e, base);
      var r := if v > ULONG_MAX then ULONG_MAX else if neg && v > 0 then ULONG_MAX + 1 - v else v;
      Some(Conversion(r, e))
  }

  /** A value held in an `unsigned long`: anything beyond `ULONG_MAX` saturates. */
  function Saturate(v: nat): (r: nat)
    ensures r <= ULONG_MAX && (v <= ULONG_MAX ==> r == v)
  {
    if v > ULONG_MAX then ULONG_MAX else v
  }

  /**
   * A decimal number at p, with no space, sign or leading zero before
   * it, converts to the value its digits spell and ends after its last
   * digit.
   */
  lemma DecimalConverts(s: string, p: nat)
    requires p < |s| && '1' <= s[p] <= '9'
    ensures var e := DigitRun(s, p, 10);
      StrToUL(s, p) == Some(Conversion(Saturate(DigitsValue(s, p, e, 10)), e))
  {
    assert SkipSpace(s, p) == p;
  }

  /** After `0x` or `0X` and at least one hexadecimal digit, the digits are read in base 16. */
  lemma HexConverts(s: string, p: nat)
    requires p + 2 < |s| && s[p] == '0' && (s[p + 1] == 'x' || s[p + 1] == 'X') && DigitValue(s[p + 2]) < 16
    ensures var e := DigitRun(s, p + 2, 16);
      StrToUL(s, p) == Some(Conversion(Saturate(DigitsValue(s, p + 2, e, 16)), e))
  {
    assert SkipSpace(s, p) == p;
  }

  /** Digits that start with a non-zero one spell a positive number. */
  lemma {:induction false} DigitsPositive(s: string, p: nat, e: nat, base: nat)
    requires p < e <= |s| && base >= 1 && DigitValue(s[p]) > 0
    ensures DigitsValue(s, p, e, base) > 0
    decreases e - p
  {
    if e - 1 > p {
      DigitsPositive(s, p, e - 1, base);
    }
  }

  /** A minus sign before a decimal number negates its value modulo 2^64. */
  lemma NegatedConverts(s: string, p: nat)
    requires p + 1 < |s| && s[p] == '-' && '1' <= s[p + 1] <= '9'
    ensures var e := DigitRun(s, p + 1, 10); var v := DigitsValue(s, p + 1, e, 10);
      StrToUL(s, p) == Some(Conversion(if v > ULONG_MAX then ULONG_MAX else ULONG_MAX + 1 - v, e))
  {
    assert SkipSpace(s, p) == p;
    DigitsPositive(s, p + 1, DigitRun(s, p + 1, 10), 10);
  }

  // ---------------------------------------------------------------------
  // `str_get_streams`: one list item at a time

  /** `str_skip_white`: spaces and tabs only. */
  function SkipWhite(s: string, p: nat): (q: nat)
    requires p <= |s|
    ensures p <= q <= |s|
    decreases |s| - p
  {
    if p < |s| && (s[p] == ' ' || s[p] == '\t') then SkipWhite(s, p + 1) else p
  }

  predicate HasAt(s: string, p: nat, w: string)
  {
    p + |w| <= |s| && s[p..p + |w|] == w
  }

  /** One item of a stream list: ids lo..hi to include or exclude, and where the next item starts. */
  datatype Item = Item(lo: nat, hi: nat, incl: bool, next: nat)

  /** The first two steps of an item: its ids and its sense, and where it ends. */
  function ItemRange(s: string, q: nat, incl: bool): (r: Option<Item>)
    requires q <= |s|
    ensures r.Some? ==> q < r.value.next <= |s|
  {
    if HasAt(s, q, "all") then Some(Item(0, 255, incl, q + 3))
    else if HasAt(s, q, "none") then Some(Item(0, 255, !incl, q + 4))
    else match StrToUL(s, q)
      case None => None
      case Some(c1) =>
        var lo := c1.value % WORD;
        if c1.end < |s| && s[c1.end] == '-' then
          match StrToUL(s, c1.end + 1)
          case None => None
          case Some(c2) => Some(Item(lo, c2.value % WORD, incl, c2.end))
        else
          Some(Item(lo, lo, incl, c1.end))
  }

  /** A digit is not the start of `all` or `none`. */
  lemma NotKeyword(s: string, q: nat)
    requires q < |s| && '0' <= s[q] <= '9'
    ensures !HasAt(s, q, "all") && !HasAt(s, q, "none")
  {
    if q + 3 <= |s| {
      assert s[q..q + 3][0] == s[q];
    }
    if q + 4 <= |s| {
      assert s[q..q + 4][0] == s[q];
    }
  }

  /** An item that starts with a number, in terms of the conversions of its bounds. */
  lemma NumberItem(s: string, q: nat, incl: bool, c1: Conversion, c2: Conversion)
    requires q < |s| && '0' <= s[q] <= '9'
    requires StrToUL(s, q) == Some(c1) && c1.end + 1 < |s| && s[c1.end] == '-'
    requires StrToUL(s, c1.end + 1) == Some(c2)
    ensures ItemRange(s, q, incl) == Some(Item(c1.value % WORD, c2.value % WORD, incl, c2.end))
  {
    NotKeyword(s, q);
  }

  /**
   * An item `a-b` of two decimal numbers names ids a through b, each
   * reduced to the 32-bit `unsigned` the C code stores it in, and ends
   * after b.
   */
  lemma DecimalRangeItem(s: string, q: nat, incl: bool)
    requires q < |s| && '1' <= s[q] <= '9'
    requires var e := DigitRun(s, q, 10); e + 1 < |s| && s[e] == '-' && '1' <= s[e + 1] <= '9'
    ensures var e1 := DigitRun(s, q, 10); var e2 := DigitRun(s, e1 + 1, 10);
      ItemRange(s, q, incl) == Some(Item(Saturate(DigitsValue(s, q, e1, 10)) % WORD,
                                         Saturate(DigitsValue(s, e1 + 1, e2, 10)) % WORD, incl, e2))
  {
    DecimalConverts(s, q);
    var c1 := StrToUL(s, q).value;
    DecimalConverts(s, c1.end + 1);
    var c2 := StrToUL(s, c1.end + 1).value;
    NumberItem(s, q, incl, c1, c2);
  }

  /**
   * One pass of the `str_get_streams` loop from position p: white space,
   * an optional `+` / `-`, then `all`, `none` (the sense inverted) or a
   * number with an optional `-number`, white space, an optional `/`.
   * None when a number is missing.
   */
  function NextItem(s: string, p: nat): (r: Option<Item>)
    requires p <= |s|
    ensures r.Some? ==> p < r.value.next <= |s|
  {
    var q := SkipWhite(s, p);
    var incl := !(q < |s| && s[q] == '-');
    var q := if q < |s| && (s[q] == '+' || s[q] == '-') then q + 1 else q;
    match ItemRange(s, q, incl)
    case None => None
    case Some(it) =>
      var e := SkipWhite(s, it.next);
      Some(it.(next := if e < |s| && s[e] == '/' then e + 1 else e))
  }

  /** `stm[i] |= msk` for an included id, `stm[i] &= ~msk` for an excluded one. */
  function Mark(b: bv8, incl: bool, msk: bv8): bv8
  {
    if incl then b | msk else b & !msk
  }

  /** The table after marking ids lo..hi. */
  function ApplyRange(t: seq<bv8>, lo: nat, hi: nat, incl: bool, msk: bv8): (r: seq<bv8>)
    requires IsTable(t)
    ensures IsTable(r)
  {
    seq(256, i requires 0 <= i < 256 => if lo <= i <= hi then Mark(t[i], incl, msk) else t[i])
  }

  /** The table and the status `str_get_streams` returns. */
  datatype Parsed = Parsed(table: seq<bv8>, status: nat)

  /**
   * `str_get_streams` from position p, with the id range checked: an
   * item whose range reaches past 0xff is refused with status 1, like a
   * missing number.  Items before the failing one stay applied.
   */
  function Run(s: string, p: nat, t: seq<bv8>, msk: bv8): (r: Parsed)
    requires p <= |s| && IsTable(t)
    ensures IsTable(r.table) && r.status <= 1
    decreases |s| - p
  {
    if p == |s| then Parsed(t, 0)
    else match NextItem(s, p)
      case None => Parsed(t, 1)
      case Some(it) =>
        if it.lo <= it.hi && it.hi > 255 then Parsed(t, 1)
        else Run(s, it.next, ApplyRange(t, it.lo, it.hi, it.incl, msk), msk)
  }

  /**
   * The `for (i = stm1; i <= stm2; i++)` loop of `str_get_streams`, on
   * the ids the 256-entry table has.  `past` tells whether the loop as
   * written also writes beyond the table (ids above 0xff); those writes
   * are not made here.
   */
  method MarkRange(stm: array<bv8>, lo: nat, hi: nat, incl: bool, msk: bv8) returns (past: bool)
    requires stm.Length == 256
    modifies stm
    ensures stm[..] == ApplyRange(old(stm[..]), lo, hi, incl, msk)
    ensures past <==> lo <= hi && hi > 255
  {
    var top := if hi > 255 then 255 else hi;
    var i := lo;
    while i <= top
      invariant lo <= i && (lo <= top ==> i <= top + 1) && (lo > top ==> i == lo)
      invariant forall k :: 0 <= k < 256 ==>
        stm[k] == (if lo <= k < i then Mark(old(stm[k]), incl, msk) else old(stm[k]))
    {
      stm[i] := Mark(stm[i], incl, msk);
      i := i + 1;
    }
    past := lo <= hi && hi > 255;
    ghost var t := old(stm[..]);
    ghost var r := ApplyRange(t, lo, hi, incl, msk);
    forall k | 0 <= k < 256
      ensures stm[k] == r[k]
    {
      assert t[k] == old(stm[k]);
      assert (lo <= k < i) == (lo <= k <= hi);
    }
  }

  /**
   * `str_get_streams`: parse the list `s` into the table `stm`, setting or
   * clearing the `msk` bit of every id it names; 0 on success, 1 when an
   * item is malformed or names an id past 0xff.
   */
  method StrGetStreams(s: string, stm: array<bv8>, msk: bv8) returns (status: nat)
    requires stm.Length == 256
    modifies stm
    ensures Run(s, 0, old(stm[..]), msk) == Parsed(stm[..], status)
  {
    var p := 0;
    while p < |s|
      invariant p <= |s|
      invariant Run(s, p, stm[..], msk) == Run(s, 0, old(stm[..]), msk)
      decreases |s| - p
    {
      var item := NextItem(s, p);
      if item.None? {
        return 1;
      }
      var it := item.value;
      if it.lo <= it.hi && it.hi > 255 {
        return 1;
      }
      ghost var before := stm[..];
      var _ := MarkRange(stm, it.lo, it.hi, it.incl, msk);
      assert Run(s, p, before, msk) == Run(s, it.next, stm[..], msk);
      p := it.next;
    }
    return 0;
  }

  /**
   * The id ranges the loop of `str_get_streams` as written marks, in
   * order, up to the end of the string or the first missing number: no
   * range is checked against the 256-entry table.
   */
  function RangesAsWritten(s: string, p: nat): seq<(nat, nat)>
    requires p <= |s|
    decreases |s| - p
  {
    if p == |s| then []
    else match NextItem(s, p)
      case None => []
      case Some(it) => [(it.lo, it.hi)] + RangesAsWritten(s, it.next)
  }

  // ---------------------------------------------------------------------
  // Properties of the list parser

  /** Two tables that differ at most in the `msk` bits. */
  predicate SameOutside(a: seq<bv8>, b: seq<bv8>, msk: bv8)
    requires IsTable(a) && IsTable(b)
  {
    forall i :: 0 <= i < 256 ==> a[i] & !msk == b[i] & !msk
  }

  lemma MarkKeepsOtherBits(b: bv8, incl: bool, msk: bv8)
    ensures Mark(b, incl, msk) & !msk == b & !msk
    ensures incl ==> Mark(b, incl, msk) & msk == msk
    ensures !incl ==> Mark(b, incl, msk) & msk == 0
  {
  }

  lemma ApplyRangeAt(t: seq<bv8>, lo: nat, hi: nat, incl: bool, msk: bv8, i: nat)
    requires IsTable(t) && i < 256
    ensures ApplyRange(t, lo, hi, incl, msk)[i] & !msk == t[i] & !msk
  {
    if lo <= i <= hi {
      MarkKeepsOtherBits(t[i], incl, msk);
    }
  }

  lemma ApplyRangeSameOutside(t: seq<bv8>, lo: nat, hi: nat, incl: bool, msk: bv8)
    requires IsTable(t)
    ensures SameOutside(ApplyRange(t, lo, hi, incl, msk), t, msk)
  {
    forall i | 0 <= i < 256 {
      ApplyRangeAt(t, lo, hi, incl, msk, i);
    }
  }

  lemma SameOutsideTrans(a: seq<bv8>, b: seq<bv8>, c: seq<bv8>, msk: bv8)
    requires IsTable(a) && IsTable(b) && IsTable(c)
    requires SameOutside(a, b, msk) && SameOutside(b, c, msk)
    ensures SameOutside(a, c, msk)
  {
    forall i | 0 <= i < 256
      ensures a[i] & !msk == c[i] & !msk
    {
      assert a[i] & !msk == b[i] & !msk;
    }
  }

  /** One item of the list: either the run stops with the table as it is, or it goes on from the marked table. */
  lemma RunStep(s: string, p: nat, t: seq<bv8>, msk: bv8)
    requires p < |s| && IsTable(t)
    ensures var r := NextItem(s, p);
      if r.Some? && !(r.value.lo <= r.value.hi && r.value.hi > 255)
      then Run(s, p, t, msk) == Run(s, r.value.next, ApplyRange(t, r.value.lo, r.value.hi, r.value.incl, msk), msk)
      else Run(s, p, t, msk).table == t
  {
  }

  /** Whatever the list says, only the `msk` bits of any entry change. */
  lemma {:induction false} RunKeepsOtherBits(s: string, p: nat, t: seq<bv8>, msk: bv8)
    requires p <= |s| && IsTable(t)
    ensures SameOutside(Run(s, p, t, msk).table, t, msk)
    decreases |s| - p
  {
    if p == |s| {
      assert Run(s, p, t, msk).table == t;
    } else {
      RunStep(s, p, t, msk);
      var r := NextItem(s, p);
      if r.Some? && !(r.value.lo <= r.value.hi && r.value.hi > 255) {
        var it := r.value;
        var t2 := ApplyRange(t, it.lo, it.hi, it.incl, msk);
        ApplyRangeSameOutside(t, it.lo, it.hi, it.incl, msk);
        RunKeepsOtherBits(s, it.next, t2, msk);
        SameOutsideTrans(Run(s, it.next, t2, msk).table, t2, t, msk);
      }
    }
  }

  /** `all` sets the bit of every id. */
  lemma RunAll(t: seq<bv8>, msk: bv8)
    requires IsTable(t)
    ensures Run("all", 0, t, msk) == Parsed(ApplyRange(t, 0, 255, true, msk), 0)
  {
    assert HasAt("all", 0, "all");
    assert NextItem("all", 0) == Some(Item(0, 255, true, 3));
  }

  /** `none` clears the bit of every id. */
  lemma RunNone(t: seq<bv8>, msk: bv8)
    requires IsTable(t)
    ensures Run("none", 0, t, msk) == Parsed(ApplyRange(t, 0, 255, false, msk), 0)
  {
    assert !HasAt("none", 0, "all") by {
      assert "none"[0] != "all"[0];
    }
    assert HasAt("none", 0, "none");
    assert SkipWhite("none", 0) == 0 && SkipWhite("none", 4) == 4;
    assert ItemRange("none", 0, true) == Some(Item(0, 255, false, 4));
    assert NextItem("none", 0) == Some(Item(0, 255, false, 4));
  }

  /** `-all` clears the bit of every id. */
  lemma RunMinusAll(t: seq<bv8>, msk: bv8)
    requires IsTable(t)
    ensures Run("-all", 0, t, msk) == Parsed(ApplyRange(t, 0, 255, false, msk), 0)
  {
    assert SkipWhite("-all", 0) == 0;
    assert HasAt("-all", 1, "all");
    assert NextItem("-all", 0) == Some(Item(0, 255, false, 4));
  }

  /** `-none` sets the bit of every id. */
  lemma RunMinusNone(t: seq<bv8>, msk: bv8)
    requires IsTable(t)
    ensures Run("-none", 0, t, msk) == Parsed(ApplyRange(t, 0, 255, true, msk), 0)
  {
    assert SkipWhite("-none", 0) == 0;
    assert !HasAt("-none", 1, "all") by {
      assert "-none"[1] != "all"[0];
    }
    assert HasAt("-none", 1, "none");
    assert NextItem("-none", 0) == Some(Item(0, 255, true, 5));
  }

  /** A list item with no number fails with the table untouched. */
  lemma RunNoNumber(t: seq<bv8>, msk: bv8)
    requires IsTable(t)
    ensures Run("x", 0, t, msk) == Parsed(t, 1)
  {
    assert !HasAt("x", 0, "all") && !HasAt("x", 0, "none");
    assert DigitRun("x", 0, 10) == 0;
    assert StrToUL("x", 0) == None;
    assert NextItem("x", 0) == None;
  }

  /** A range with no upper bound fails with the table untouched. */
  lemma RunOpenRange(t: seq<bv8>, msk: bv8)
    requires IsTable(t)
    ensures Run("5-", 0, t, msk) == Parsed(t, 1)
  {
    var s := "5-";
    assert !HasAt(s, 0, "all") && !HasAt(s, 0, "none");
    assert DigitRun(s, 0, 10) == 1 by {
      assert DigitRun(s, 1, 10) == 1;
    }
    assert StrToUL(s, 0) == Some(Conversion(5, 1));
    assert StrToUL(s, 2) == None;
    assert NextItem(s, 0) == None;
  }

  /** The characters of `0-300`. */
  predicate ZeroTo300Text(s: string)
  {
    |s| == 5 && s[0] == '0' && s[1] == '-' && s[2] == '3' && s[3] == '0' && s[4] == '0'
  }

  /** The leading `0` is read as an octal number that stops at the dash. */
  lemma ZeroThenDash(s: string)
    requires ZeroTo300Text(s)
    ensures StrToUL(s, 0) == Some(Conversion(0, 1))
  {
    assert SkipSpace(s, 0) == 0;
    assert DigitRun(s, 0, 8) == 1 by {
      assert DigitRun(s, 1, 8) == 1;
    }
    assert DigitsValue(s, 0, 1, 8) == 0;
  }

  /** After the dash, `300` is read in decimal. */
  lemma ThreeHundred(s: string)
    requires ZeroTo300Text(s)
    ensures StrToUL(s, 2) == Some(Conversion(300, 5))
  {
    assert SkipSpace(s, 2) == 2;
    assert DigitRun(s, 2, 10) == 5 by {
      assert DigitRun(s, 5, 10) == 5;
      assert DigitRun(s, 4, 10) == 5;
      assert DigitRun(s, 3, 10) == 5;
    }
    assert DigitsValue(s, 2, 5, 10) == 300 by {
      assert DigitsValue(s, 2, 3, 10) == 3;
      assert DigitsValue(s, 2, 4, 10) == 30;
    }
  }

  lemma ZeroTo300(s: string)
    requires ZeroTo300Text(s)
    ensures NextItem(s, 0) == Some(Item(0, 300, true, 5))
  {
    assert !HasAt(s, 0, "all") && !HasAt(s, 0, "none") by {
      assert s[0..3][0] == s[0] && s[0..4][0] == s[0];
    }
    assert SkipWhite(s, 0) == 0;
    ZeroThenDash(s);
    ThreeHundred(s);
    assert ItemRange(s, 0, true) == Some(Item(0, 300, true, 5));
    assert SkipWhite(s, 5) == 5;
  }

  /** As written, `0-300` marks entries 0..300 of the 256-entry table. */
  lemma RangePastTableAsWritten()
    ensures RangesAsWritten("0-300", 0) == [(0, 300)]
  {
    ZeroTo300("0-300");
  }

  /** With the range check, `0-300` is refused and the table is left alone. */
  lemma RangePastTableRefused(t: seq<bv8>, msk: bv8)
    requires IsTable(t)
    ensures Run("0-300", 0, t, msk) == Parsed(t, 1)
  {
    ZeroTo300("0-300");
  }
}
