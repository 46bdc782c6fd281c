/**
 * `mpeg_get_name`: the output file name of a stream.  Every `#` of the
 * template, counted from the right, receives the next lower-case
 * hexadecimal digit of the stream number, least significant first.
 */
module Names {
  import opened Wrappers
  import opened Bits
  import Selection

  /** The template used when none is given. */
  const DefaultTemplate: string := "stream_##.dat"

  /** The template `mpeg_get_name` works on. */
  function Template(base: Option<string>): string
  {
    if base.None? then DefaultTemplate else base.value
  }

  /** The number of `#` in s. */
  function Hashes(s: string): nat
  {
    if |s| == 0 then 0 else (if s[0] == '#' then 1 else 0) + Hashes(s[1..])
  }

  /** `dig < 10 ? '0' + dig : 'a' + dig - 10`. */
  function HexDigit(d: nat): (c: char)
    requires d < 16
    ensures Selection.DigitValue(c) == d
    ensures '0' <= c <= '9' || 'a' <= c <= 'f'
  {
    if d < 10 then ('0' as int + d) as char else ('a' as int + d - 10) as char
  }

  /**
   * The name: a `#` followed by h more `#` holds hex digit h of sid;
   * every other character is copied.
   */
  function Name(base: string, sid: nat): (r: string)
    ensures |r| == |base|
  {
    if |base| == 0 then []
    else
      var c := if base[0] == '#' then HexDigit((sid / Pow2(4 * Hashes(base[1..]))) % 16) else base[0];
      [c] + Name(base[1..], sid)
  }

  /** The character at k, as the right-to-left loop of `mpeg_get_name` writes it. */
  lemma {:induction false} NameAt(base: string, sid: nat, k: nat)
    requires k < |base|
    ensures Name(base, sid)[k]
         == if base[k] == '#' then HexDigit((sid / Pow2(4 * Hashes(base[k + 1..]))) % 16) else base[k]
  {
    if k > 0 {
      NameAt(base[1..], sid, k - 1);
      assert base[1..][k..] == base[k + 1..];
    }
  }

  /**
   * The name is as long as the template, keeps every character but `#`,
   * and has a lower-case hex digit wherever the template has a `#`.
   */
  lemma NameShape(base: string, sid: nat)
    ensures forall k :: 0 <= k < |base| && base[k] != '#' ==> Name(base, sid)[k] == base[k]
    ensures forall k :: 0 <= k < |base| && base[k] == '#' ==>
      '0' <= Name(base, sid)[k] <= '9' || 'a' <= Name(base, sid)[k] <= 'f'
  {
    forall k | 0 <= k < |base| {
      NameAt(base, sid, k);
    }
  }

  /** The number the hex digits of `name` at the `#` positions of `base` spell. */
  function DigitsValue(name: string, base: string): nat
    requires |name| == |base|
  {
    if |base| == 0 then 0
    else
      (if base[0] == '#' then Selection.DigitValue(name[0]) * Pow2(4 * Hashes(base[1..])) else 0)
      + DigitsValue(name[1..], base[1..])
  }

  /**
   * Reading the digits back gives sid modulo 16^h, h the number of `#`:
   * the name encodes the low h hex digits of the stream number.
   */
  lemma {:induction false} NameRoundTrip(base: string, sid: nat)
    ensures DigitsValue(Name(base, sid), base) == sid % Pow2(4 * Hashes(base))
  {
    if |base| > 0 {
      var h := Hashes(base[1..]);
      var p := Pow2(4 * h);
      var name := Name(base, sid);
      assert name[1..] == Name(base[1..], sid);
      NameRoundTrip(base[1..], sid);
      if base[0] == '#' {
        DigitSplit(sid, p, 16);
        Pow2Add(4 * h, 4);
        assert Pow2(4) == 16;
      }
    }
  }

  lemma NextDigit(sid: nat, h: nat)
    ensures (sid / Pow2(4 * h)) / 16 == sid / Pow2(4 * (h + 1))
  {
    Pow2Add(4 * h, 4);
    assert Pow2(4) == 16;
    DivDiv(sid, Pow2(4 * h), 16);
  }

  /**
   * `mpeg_get_name(base, sid)`: a fresh copy of the template with the
   * `#` filled in right to left; None when `malloc` fails (`allocOk`).
   */
  method GetName(base: Option<string>, sid: nat, allocOk: bool) returns (r: Option<string>)
    ensures r.Some? <==> allocOk
    ensures r.Some? ==> r.value == Name(Template(base), sid)
  {
    var b := if base.None? then DefaultTemplate else base.value;
    var n := 0;
    while n < |b|
      invariant n <= |b|
    {
      n := n + 1;
    }
    if !allocOk {
      return None;
    }
    var ret := new char[n];
    ghost var name := Name(b, sid);
    var v := sid;
    var i := n;
    while i > 0
      invariant i <= n
      invariant v == sid / Pow2(4 * Hashes(b[i..]))
      invariant forall k :: i <= k < n ==> ret[k] == name[k]
    {
      i := i - 1;
      NameAt(b, sid, i);
      assert b[i..][1..] == b[i + 1..];
      ret[i] := b[i];
      if ret[i] == '#' {
        var dig := v % 16;
        NextDigit(sid, Hashes(b[i + 1..]));
        v := v / 16;
        ret[i] := HexDigit(dig);
      }
    }
    assert ret[..] == name;
    return Some(ret[..]);
  }
}
