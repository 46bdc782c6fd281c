/**
 * The demuxer's lookahead cursor: the input file, the read offset `ofs`
 * and the 4096-byte window `buf[buf_i .. buf_i + buf_n]`.  The file is a
 * byte sequence `src` of which `pos` bytes have been handed out by
 * `fread`; the bytes the parser has not consumed yet are `Unread()`:
 * the window followed by the rest of the file.
 */
module Lookahead {
  import opened Bits

  class Cursor {
    /** The whole input file. */
    const src: seq<Byte>
    /** How many bytes of `src` `fread` has delivered so far. */
    var pos: nat
    /** `ofs`: the stream offset of the next byte the parser looks at. */
    var ofs: nat
    /** `buf`: the lookahead window storage. */
    const buf: array<Byte>
    /** `buf_i`, `buf_n`: start and length of the valid window. */
    var bufI: nat
    var bufN: nat

    ghost predicate Valid()
      reads this
    {
      buf.Length == BUFFER && bufI + bufN <= BUFFER && pos <= |src|
    }

    /** The bytes not consumed yet: the window, then the unread file. */
    ghost function Unread(): seq<Byte>
      reads this, buf
      requires Valid()
    {
      buf[bufI..bufI + bufN] + src[pos..]
    }

    /** `mpeg_demux_t(fp)`: offset 0 and an empty window. */
    constructor (input: seq<Byte>)
      ensures Valid() && fresh(buf)
      ensures src == input && Unread() == input && ofs == 0
      ensures bufI == 0 && bufN == 0
    {
      src := input;
      pos := 0;
      ofs := 0;
      buf := new Byte[BUFFER];
      bufI := 0;
      bufN := 0;
    }

    /**
     * `mpegd_read`: up to n bytes, the buffered ones first and then from
     * the file; `ofs` advances by the number of bytes delivered.
     */
    method Read(n: nat) returns (data: seq<Byte>)
      requires Valid()
      modifies this
      ensures Valid()
      ensures data == old(Unread())[..Min(n, |old(Unread())|)]
      ensures Unread() == old(Unread())[|data|..]
      ensures ofs == old(ofs) + |data|
      ensures bufN == old(bufN) - Min(n, old(bufN))
    {
      ghost var w, f := buf[bufI..bufI + bufN], src[pos..];
      ghost var u := Unread();
      assert u == w + f;
      var i := Min(n, bufN);
      data := buf[bufI..bufI + i];
      assert data == w[..i];
      bufI := bufI + i;
      bufN := bufN - i;
      assert buf[bufI..bufI + bufN] == w[i..];
      var got := 0;
      if n - i > 0 {
        got := Min(n - i, |src| - pos);
        data := data + src[pos..pos + got];
        pos := pos + got;
      }
      assert data == w[..i] + f[..got] && src[pos..] == f[got..];
      ofs := ofs + |data|;
      ReadParts(w, f, n, i, got);
      assert Unread() == w[i..] + f[got..];
    }

    /**
     * The loop of `mpeg_copy(mpeg, fp, n)`: `mpegd_read` in pieces of at
     * most 4096 bytes until n bytes are delivered or a piece comes back
     * short; `data` is what goes to `fp`.
     */
    method Copy(n: nat) returns (data: seq<Byte>, fail: bool)
      requires Valid()
      modifies this
      ensures Valid() && data == old(Unread())[..Min(n, |old(Unread())|)]
      ensures Unread() == old(Unread())[|data|..] && ofs == old(ofs) + |data|
      ensures fail <==> n > |old(Unread())|
    {
      ghost var u := Unread();
      data := [];
      var k: nat := n;
      while k > 0
        invariant Valid() && |data| + k == n && |data| <= |u|
        invariant data == u[..|data|] && Unread() == u[|data|..] && ofs == old(ofs) + |data|
      {
        var i := Min(k, BUFFER);
        var piece := Read(i);
        ReadOn(u, |data|, piece);
        data := data + piece;
        if |piece| != i {
          return data, true;
        }
        k := k - i;
      }
      return data, false;
    }

    /** The copy loop of `mpegd_buffer_fill`: the window moves to index 0. */
    method MoveWindowDown()
      requires Valid()
      modifies buf
      ensures Valid() && buf[..bufN] == old(buf[bufI..bufI + bufN])
    {
      if bufI > 0 && bufN > 0 {
        var i := 0;
        while i < bufN
          invariant 0 <= i <= bufN
          invariant buf[..i] == old(buf[bufI..bufI + i])
          invariant forall k :: i <= k < BUFFER ==> buf[k] == old(buf[k])
        {
          buf[i] := buf[bufI + i];
          i := i + 1;
        }
      }
    }

    /**
     * `mpegd_buffer_fill`: move the window to the start of `buf`, then
     * read as much of the file as fits behind it.
     */
    method BufferFill()
      requires Valid()
      modifies this, buf
      ensures Valid() && bufI == 0 && ofs == old(ofs)
      ensures Unread() == old(Unread())
      ensures bufN == Min(BUFFER, |old(Unread())|)
    {
      ghost var u := Unread();
      MoveWindowDown();
      bufI := 0;
      assert Unread() == u;
      var n := BUFFER - bufN;
      if n > 0 {
        ghost var p0, w := pos, buf[..bufN];
        var r := Fread(n);
        bufN := bufN + r;
        assert src[p0..] == src[p0..pos] + src[pos..];
        assert Unread() == (w + src[p0..pos]) + src[pos..] == u;
      }
    }

    /** `fread(buf + buf_n, 1, n, fp)`: up to n more bytes of the file behind the window. */
    method Fread(n: nat) returns (r: nat)
      requires Valid() && bufI == 0 && bufN + n <= BUFFER
      modifies this`pos, buf
      ensures Valid() && r == Min(n, |src| - old(pos)) && pos == old(pos) + r
      ensures buf[..bufN + r] == old(buf[..bufN]) + src[old(pos)..pos]
    {
      r := Min(n, |src| - pos);
      forall k | 0 <= k < r {
        buf[bufN + k] := src[pos + k];
      }
      assert buf[..bufN] == old(buf[..bufN]);
      assert buf[bufN..bufN + r] == src[pos..pos + r];
      assert buf[..bufN + r] == buf[..bufN] + buf[bufN..bufN + r];
      pos := pos + r;
    }

    /**
     * `mpegd_need_bits`: make sure the window holds ceil(n / 8) bytes,
     * refilling it only when it is too short; fails when even a full
     * window cannot hold them.
     */
    method NeedBits(n: nat) returns (fail: bool)
      requires Valid()
      modifies this, buf
      ensures Valid() && Unread() == old(Unread()) && ofs == old(ofs)
      ensures fail <==> (n + 7) / 8 > Min(BUFFER, |Unread()|)
      ensures !fail ==> (n + 7) / 8 <= bufN
      ensures (n + 7) / 8 <= old(bufN) ==> bufI == old(bufI) && bufN == old(bufN) && pos == old(pos)
    {
      var k := (n + 7) / 8;
      if k > bufN {
        BufferFill();
      }
      fail := k > bufN;
    }

    /**
     * `mpegd_get_bits`: the n-bit big-endian field at bit offset i of the
     * unread stream, or 0 when the window cannot hold it.  Nothing is
     * consumed.
     */
    method GetBits(i: nat, n: nat) returns (r: nat)
      requires Valid()
      modifies this, buf
      ensures Valid() && Unread() == old(Unread()) && ofs == old(ofs)
      ensures r == Peek(old(Unread()), i, n)
    {
      var fail := NeedBits(i + n);
      if fail {
        return 0;
      }
      ghost var win := buf[bufI..bufI + bufN];
      assert buf[bufI..][..bufN] == win == (win + src[pos..])[..bufN];
      WindowPeek(buf[bufI..], Unread(), bufN, i, n);
      if i % 8 == 0 && n % 8 == 0 {
        r := ByteBits(buf, bufI, i, n);
      } else {
        r := FieldBits(buf, bufI, i, n);
      }
    }

    /**
     * `mpegd_skip`: advance `ofs` by exactly n, even past the end of the
     * file; only the window indices move when it holds n bytes.  Fails
     * when the file runs out first.
     */
    method Skip(n: nat) returns (fail: bool)
      requires Valid()
      modifies this
      ensures Valid() && ofs == old(ofs) + n
      ensures fail <==> n > |old(Unread())|
      ensures Unread() == if fail then [] else old(Unread())[n..]
      ensures n <= old(bufN) ==> bufI == old(bufI) + n && bufN == old(bufN) - n && pos == old(pos)
    {
      ghost var u := Unread();
      ghost var w := buf[bufI..bufI + bufN];
      assert u == w + src[pos..];
      ofs := ofs + n;
      if n <= bufN {
        bufI := bufI + n;
        bufN := bufN - n;
        return false;
      }
      var m: nat := n - bufN;
      ghost var start, b := pos, bufN;
      assert |u| == b + |src| - start;
      bufI, bufN := 0, 0;
      while m > 0
        invariant Valid() && bufI == 0 && bufN == 0 && ofs == old(ofs) + n
        invariant start <= pos && pos - start + m == n - b
      {
        var r := Min(Min(m, BUFFER), |src| - pos);
        if r == 0 {
          assert Unread() == [];
          return true;
        }
        pos := pos + r;
        m := m - r;
      }
      assert pos == start + (n - b) && |w| == b;
      assert u[n..] == (w + src[start..])[n..];
      assert (w + src[start..])[n..] == src[start..][n - b..];
      assert src[start..][n - b..] == src[pos..];
      assert Unread() == src[pos..];
      return false;
    }

    /**
     * `mpegd_set_offset`: move forward to `target`.  The distance is cast
     * to 32 bits before the skip; a backward target fails and changes
     * nothing.
     */
    method SetOffset(target: nat) returns (fail: bool)
      requires Valid()
      modifies this
      ensures Valid()
      ensures target <= old(ofs) ==>
        (fail == (target < old(ofs)) && ofs == old(ofs)
         && bufI == old(bufI) && bufN == old(bufN) && pos == old(pos))
      ensures target > old(ofs) ==>
        (var d := (target - old(ofs)) % WORD;
         ofs == old(ofs) + d && (fail <==> d > |old(Unread())|)
         && Unread() == (if fail then [] else old(Unread())[d..]))
    {
      if target == ofs {
        return false;
      }
      if target > ofs {
        fail := Skip((target - ofs) % WORD);
        return;
      }
      return true;
    }
  }

  /**
   * A read of n bytes from window w and file f: i bytes from the window,
   * then, only when the window runs out, got bytes from the file.
   */
  lemma ReadParts(w: seq<Byte>, f: seq<Byte>, n: nat, i: nat, got: nat)
    requires i == Min(n, |w|)
    requires got == if n - i > 0 then Min(n - i, |f|) else 0
    ensures i + got == Min(n, |w + f|)
    ensures w[..i] + f[..got] == (w + f)[..i + got]
    ensures w[i..] + f[got..] == (w + f)[i + got..]
  {
    if i < |w| {
      assert got == 0;
      assert w[i..] + f == (w + f)[i..];
    } else {
      assert w[..i] == w && w[i..] == [];
      assert (w + f)[..i + got] == w + f[..got];
      assert (w + f)[i + got..] == f[got..];
    }
  }

  /** Reading on from m bytes into u: the bytes read extend the prefix and the rest shrinks. */
  lemma ReadOn(u: seq<Byte>, m: nat, data: seq<Byte>)
    requires m + |data| <= |u| && data == u[m..][..|data|]
    ensures u[..m] + data == u[..m + |data|] && u[m..][|data|..] == u[m + |data|..]
  {
    assert u[..m + |data|] == u[..m] + u[m..m + |data|];
  }
}
