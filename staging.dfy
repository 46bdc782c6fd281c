/**
 * The staging buffer `mpeg_buffer_t` the remuxer and demuxer copy packets
 * through: storage `buf` of capacity `max`, of which the first `cnt`
 * bytes are staged.  The storage pointer is `Null`, a live block, or a
 * block already handed to `free` (what `setMax(0)` leaves behind).
 */
module Staging {
  import opened Bits

  datatype Storage = Null | Live(bytes: seq<Byte>) | Freed

  /**
   * `realloc`: the old contents up to the new size, then the rest, which
   * is indeterminate in C and modelled as zero.
   */
  function Resized(s: Storage, m: nat): (r: seq<Byte>)
    ensures |r| == m
    ensures s.Live? ==> r[..Min(|s.bytes|, m)] == s.bytes[..Min(|s.bytes|, m)]
  {
    var old_ := if s.Live? then s.bytes else [];
    var keep := Min(|old_|, m);
    old_[..keep] + seq(m - keep, _ => 0)
  }

  class Buffer {
    /** `buf`. */
    var store: Storage
    /** `cnt`: staged bytes. */
    var cnt: nat
    /** `max`: capacity. */
    var max: nat

    /** A live block is exactly `max` bytes long, and the staged bytes fit in it. */
    ghost predicate Valid()
      reads this
    {
      cnt <= max && (store.Live? ==> |store.bytes| == max) && (!store.Live? ==> max == 0)
    }

    /** The staged bytes. */
    function Staged(): seq<Byte>
      reads this
      requires Valid()
    {
      if store.Live? then store.bytes[..cnt] else []
    }

    /** The static initializer `{ nullptr, 0, 0 }`. */
    constructor ()
      ensures Valid() && store == Null && cnt == 0 && max == 0
    {
      store, cnt, max := Null, 0, 0;
    }

    /** `init`: no storage, nothing staged. */
    method Init()
      modifies this
      ensures Valid() && store == Null && cnt == 0 && max == 0
    {
      store, max, cnt := Null, 0, 0;
    }

    /** `free`: storage released and the pointer reset. */
    method Free()
      modifies this
      ensures Valid() && store == Null && cnt == 0 && max == 0
    {
      store := Null;
      cnt := 0;
      max := 0;
    }

    /** `clear`: nothing staged; storage and capacity unchanged. */
    method Clear()
      requires Valid()
      modifies this
      ensures Valid() && cnt == 0 && store == old(store) && max == old(max)
    {
      cnt := 0;
    }

    /**
     * `setMax(m)`: a no-op when m is the capacity already; m == 0 frees
     * the block but leaves the pointer behind; otherwise `realloc`, which
     * can fail (`allocOk` false), and then nothing is left.
     */
    method SetMax(m: nat, allocOk: bool) returns (fail: bool)
      requires Valid()
      modifies this
      ensures Valid()
      ensures m == old(max) ==> !fail && store == old(store) && cnt == old(cnt) && max == old(max)
      ensures m != old(max) && m == 0 ==>
        !fail && max == 0 && cnt == 0 && store == (if old(store).Null? then Null else Freed)
      ensures m != old(max) && m > 0 && !allocOk ==> fail && store == Null && max == 0 && cnt == 0
      ensures m != old(max) && m > 0 && allocOk ==>
        !fail && max == m && cnt == Min(old(cnt), m) && store == Live(Resized(old(store), m))
    {
      if max == m {
        return false;
      }
      if m == 0 {
        if !store.Null? {
          store := Freed;
        }
        max := 0;
        cnt := 0;
        return false;
      }
      if !allocOk {
        store := Null;
        max := 0;
        cnt := 0;
        return true;
      }
      store := Live(Resized(store, m));
      max := m;
      if cnt > m {
        cnt := m;
      }
      return false;
    }

    /**
     * `setCnt(c)`: grows the storage only when c exceeds the capacity,
     * never shrinks it, and keeps the bytes staged so far.
     */
    method SetCnt(c: nat, allocOk: bool) returns (fail: bool)
      requires Valid()
      modifies this
      ensures Valid()
      ensures fail <==> c > old(max) && !allocOk
      ensures !fail ==> cnt == c && max >= old(max) && max >= c
      ensures !fail ==> (c <= old(max) <==> max == old(max))
      ensures !fail && old(store).Live? ==>
        store.Live? && store.bytes[..old(cnt)] == old(store.bytes[..cnt])
      ensures fail ==> store == Null && max == 0 && cnt == 0
    {
      if c > max {
        fail := SetMax(c, allocOk);
        if fail {
          return;
        }
      }
      cnt := c;
      return false;
    }

    /** The bytes `mpegd_read` delivers into `buf` become the staged bytes. */
    method Load(data: seq<Byte>)
      requires Valid() && |data| <= max
      modifies this
      ensures Valid() && max == old(max) && cnt == |data| && Staged() == data
    {
      if |data| > 0 {
        store := Live(data + store.bytes[|data|..]);
      }
      cnt := |data|;
    }

    /** `packet.buf[i] = b`: one staged byte rewritten in place. */
    method Poke(i: nat, b: Byte)
      requires Valid() && i < cnt
      modifies this
      ensures Valid() && max == old(max) && cnt == old(cnt)
      ensures Staged() == old(Staged())[i := b]
    {
      store := Live(store.bytes[i := b]);
    }

    /**
     * `write_clear` / `mpeg_buf_write_clear`: `fwrite` the staged bytes
     * to a sink that takes at most `room` of them; fails only on a short
     * write, and nothing is staged afterwards in either case.
     */
    method WriteClear(room: nat) returns (written: seq<Byte>, fail: bool)
      requires Valid()
      modifies this
      ensures Valid() && cnt == 0 && store == old(store) && max == old(max)
      ensures written == old(Staged())[..Min(old(cnt), room)]
      ensures fail <==> old(cnt) > room
    {
      written := [];
      fail := false;
      if cnt > 0 {
        written := Staged()[..Min(cnt, room)];
        fail := cnt > room;
      }
      cnt := 0;
    }
  }
}
