/**
 * Big-endian bit fields of a byte window, as `mpegd_get_bits` reads them:
 * bit 0 is the most significant bit of the first byte.  `BitsAt` is the
 * reference definition; `FieldBits` (the general fragment loop) and
 * `ByteBits` (the byte-aligned fast path) are the two loops of the
 * demuxer, each proved equal to `BitsAt` reduced to a 32-bit word.
 */
module Bits {

  /** One byte of the input stream. */
  type Byte = x: int | 0 <= x < 256

  /** 2^32: `mpegd_get_bits` returns a `uint32_t`. */
  const WORD: nat := 0x1_0000_0000

  /** Size of the lookahead window (`MPEG_DEMUX_BUFFER`). */
  const BUFFER: nat := 4096

  function Pow2(n: nat): (r: nat)
    ensures r >= 1
  {
    if n == 0 then 1 else 2 * Pow2(n - 1)
  }

  lemma {:induction false} Pow2Add(a: nat, b: nat)
    ensures Pow2(a + b) == Pow2(a) * Pow2(b)
  {
    if b > 0 {
      Pow2Add(a, b - 1);
      assert Pow2(a + b) == 2 * Pow2(a + b - 1);
    }
  }

  /** The powers below a byte that the demuxer's fields and masks use. */
  lemma Pow2Small()
    ensures Pow2(2) == 4 && Pow2(3) == 8 && Pow2(4) == 16 && Pow2(6) == 64 && Pow2(7) == 128 && Pow2(8) == 256
  {
  }

  /** 2^32 is the range of the 32-bit accumulator. */
  lemma Pow2Word()
    ensures Pow2(16) == 0x1_0000 && Pow2(32) == WORD
  {
    Pow2Small();
    Pow2Add(8, 8);
    Pow2Add(16, 16);
  }

  lemma {:induction false} Pow2Monotone(a: nat, b: nat)
    requires a <= b
    ensures Pow2(a) <= Pow2(b)
  {
    if a < b {
      Pow2Monotone(a, b - 1);
    }
  }

  /** Bit k of `w`, counting from the most significant bit of `w[0]`. */
  function BitAt(w: seq<Byte>, k: nat): (b: nat)
    requires k < 8 * |w|
    ensures b < 2
  {
    (w[k / 8] / Pow2(7 - k % 8)) % 2
  }

  /** The n-bit big-endian field that starts at bit offset i of `w`. */
  function BitsAt(w: seq<Byte>, i: nat, n: nat): nat
    requires i + n <= 8 * |w|
  {
    if n == 0 then 0 else 2 * BitsAt(w, i, n - 1) + BitAt(w, i + n - 1)
  }

  // ---------------------------------------------------------------------
  // Division facts used by the bit-field proofs.

  lemma {:induction false} MulAtLeast(k: int, d: int)
    requires k >= 1 && d >= 0
    ensures k * d >= d
  {
    if k > 1 {
      MulAtLeast(k - 1, d);
      assert k * d == (k - 1) * d + d;
    }
  }

  lemma DivModUnique(x: int, d: int, q: int, r: int)
    requires d > 0 && 0 <= r < d && x == q * d + r
    ensures x / d == q && x % d == r
  {
    var q0, r0 := x / d, x % d;
    assert x == q0 * d + r0;
    assert (q0 - q) * d == r - r0;
    if q0 > q {
      MulAtLeast(q0 - q, d);
    } else if q0 < q {
      MulAtLeast(q - q0, d);
    }
  }

  lemma MulLeMul(a: int, b: int, c: int)
    requires 0 <= a <= b && c >= 0
    ensures a * c <= b * c
  {
    if a < b {
      MulAtLeast(b - a, c);
      assert b * c - a * c == (b - a) * c;
    }
  }

  lemma DivDiv(x: nat, a: nat, b: nat)
    requires a > 0 && b > 0
    ensures (x / a) / b == x / (a * b)
  {
    var q1, r1 := x / a, x % a;
    var q2, r2 := q1 / b, q1 % b;
    assert x == q1 * a + r1;
    assert q1 == q2 * b + r2;
    assert x == q2 * (a * b) + (r2 * a + r1) by {
      calc {
        x;
        q1 * a + r1;
        (q2 * b + r2) * a + r1;
        q2 * (a * b) + (r2 * a + r1);
      }
    }
    MulLeMul(r2, b - 1, a);
    assert (b - 1) * a == a * b - a;
    DivModUnique(x, a * b, q2, r2 * a + r1);
  }

  /** The low n bits of y are its low bit below the low n-1 bits of y/2. */
  lemma ModSplit(y: nat, n: nat)
    requires n >= 1
    ensures 2 * ((y / 2) % Pow2(n - 1)) + y % 2 == y % Pow2(n)
  {
    var p := Pow2(n - 1);
    var h, e := y / 2, y % 2;
    var t, u := h / p, h % p;
    assert y == 2 * h + e;
    assert h == t * p + u;
    assert y == t * (2 * p) + (2 * u + e) by {
      calc {
        y;
        2 * h + e;
        2 * (t * p + u) + e;
        t * (2 * p) + (2 * u + e);
      }
    }
    DivModUnique(y, 2 * p, t, 2 * u + e);
  }

  /** The digit of v at place p in base `base`, above the part of v below p. */
  lemma DigitSplit(v: nat, p: nat, base: nat)
    requires p > 0 && base > 0
    ensures ((v / p) % base) * p + v % p == v % (base * p)
  {
    var q := v / p;
    var hi, mid, lo := q / base, q % base, v % p;
    assert v == q * p + lo;
    assert q == hi * base + mid;
    assert v == hi * (base * p) + (mid * p + lo) by {
      assert q * p == hi * (base * p) + mid * p;
    }
    assert mid * p + lo < base * p by {
      MulLeMul(mid, base - 1, p);
    }
    DivModUnique(v, base * p, hi, mid * p + lo);
  }

  /** Reducing modulo m before a shift-and-add gives the same residue. */
  lemma ModShiftAdd(x: nat, c: nat, v: nat, m: nat)
    requires m > 0
    ensures ((x % m) * c + v) % m == (x * c + v) % m
  {
    var q, s := x / m, x % m;
    var a := s * c + v;
    assert x == q * m + s;
    assert x * c + v == a + (q * c) * m by {
      calc {
        x * c + v;
        (q * m + s) * c + v;
        (q * c) * m + (s * c + v);
      }
    }
    DivModUnique(a + (q * c) * m, m, a / m + q * c, a % m);
  }

  lemma ModBelow(x: nat, m: nat)
    requires x < m
    ensures x % m == x
  {
    DivModUnique(x, m, 0, x);
  }

  lemma ShiftOnce(x: nat, s: nat)
    ensures x / Pow2(s + 1) == (x / Pow2(s)) / 2
  {
    Pow2Add(s, 1);
    DivDiv(x, Pow2(s), 2);
  }

  lemma ShiftStep(hi: nat, lo: nat, x: nat, s: nat, n: nat)
    requires n >= 1
    requires lo == (x / Pow2(s)) % 2
    requires hi == (x / Pow2(s + 1)) % Pow2(n - 1)
    ensures 2 * hi + lo == (x / Pow2(s)) % Pow2(n)
  {
    ShiftOnce(x, s);
    ModSplit(x / Pow2(s), n);
  }

  lemma ShiftAddStep(A: int, P: int, B: int, c: int)
    ensures 2 * (A * P + B) + c == A * (2 * P) + (2 * B + c)
  {
  }

  // ---------------------------------------------------------------------
  // Properties of the reference definition.

  /** An n-bit field is below 2^n. */
  lemma {:induction false} BitsBound(w: seq<Byte>, i: nat, n: nat)
    requires i + n <= 8 * |w|
    ensures BitsAt(w, i, n) < Pow2(n)
  {
    if n > 0 {
      BitsBound(w, i, n - 1);
    }
  }

  /** A field of a + b bits is its first a bits followed by the next b. */
  lemma {:induction false} BitsSplit(w: seq<Byte>, i: nat, a: nat, b: nat)
    requires i + a + b <= 8 * |w|
    ensures BitsAt(w, i, a + b) == BitsAt(w, i, a) * Pow2(b) + BitsAt(w, i + a, b)
  {
    if b > 0 {
      BitsSplit(w, i, a, b - 1);
      var A, B, c := BitsAt(w, i, a), BitsAt(w, i + a, b - 1), BitAt(w, i + a + b - 1);
      assert BitsAt(w, i, a + b) == 2 * BitsAt(w, i, a + b - 1) + c;
      assert BitsAt(w, i + a, b) == 2 * B + c;
      ShiftAddStep(A, Pow2(b - 1), B, c);
    }
  }

  lemma BitInByte(w: seq<Byte>, i: nat, n: nat)
    requires i % 8 + n <= 8 && i / 8 < |w| && n >= 1
    ensures i + n <= 8 * |w|
    ensures BitAt(w, i + n - 1) == (w[i / 8] / Pow2(8 - i % 8 - n)) % 2
  {
    var k := i + n - 1;
    assert k / 8 == i / 8 && k % 8 == i % 8 + n - 1;
  }

  /** A field inside one byte is that byte shifted right and masked. */
  lemma {:induction false} BitsInByte(w: seq<Byte>, i: nat, n: nat)
    requires i % 8 + n <= 8 && i / 8 < |w|
    ensures i + n <= 8 * |w|
    ensures BitsAt(w, i, n) == (w[i / 8] / Pow2(8 - i % 8 - n)) % Pow2(n)
  {
    if n > 0 {
      BitsInByte(w, i, n - 1);
      BitInByte(w, i, n);
      ShiftStep(BitsAt(w, i, n - 1), BitAt(w, i + n - 1), w[i / 8], 8 - i % 8 - n, n);
    }
  }

  /** A byte-aligned 8-bit field is the byte itself. */
  lemma ByteField(w: seq<Byte>, j: nat)
    requires j < |w|
    ensures BitsAt(w, 8 * j, 8) == w[j]
  {
    BitsInByte(w, 8 * j, 8);
    assert (8 * j) / 8 == j && (8 * j) % 8 == 0;
    assert w[j] / Pow2(0) == w[j];
    Pow2Small();
    ModBelow(w[j], 256);
  }

  /** A field depends only on the bytes that hold it. */
  lemma {:induction false} BitsAgree(w: seq<Byte>, v: seq<Byte>, m: nat, i: nat, n: nat)
    requires i + n <= 8 * m && m <= |w| && m <= |v| && w[..m] == v[..m]
    ensures BitsAt(w, i, n) == BitsAt(v, i, n)
  {
    if n > 0 {
      BitsAgree(w, v, m, i, n - 1);
      var k := (i + n - 1) / 8;
      assert w[k] == w[..m][k] == v[..m][k] == v[k];
    }
  }

  // ---------------------------------------------------------------------
  // The two extraction loops of `mpegd_get_bits`.

  /** One step of either loop: shift the accumulator left by b and add the next b bits. */
  lemma AccumulateStep(s: seq<Byte>, i: nat, a: nat, b: nat, r: nat, v: nat)
    requires i + a + b <= 8 * |s|
    requires r == BitsAt(s, i, a) % WORD && v == BitsAt(s, i + a, b)
    ensures (r * Pow2(b) + v) % WORD == BitsAt(s, i, a + b) % WORD
  {
    BitsSplit(s, i, a, b);
    ModShiftAdd(BitsAt(s, i, a), Pow2(b), v, WORD);
  }

  /** One step of the general loop: the b_n bits left in the current byte, shifted in. */
  lemma FragmentStep(s: seq<Byte>, i: nat, j: nat, bn: nat, bi: nat, x: nat, r: nat)
    requires i <= j && 1 <= bn && j % 8 + bn <= 8 && j + bn <= 8 * |s|
    requires bi == 8 - j % 8 - bn && j / 8 < |s| && x == s[j / 8]
    requires r == BitsAt(s, i, j - i) % WORD
    ensures (r * Pow2(bn) + (x / Pow2(bi)) % Pow2(bn)) % WORD == BitsAt(s, i, (j + bn) - i) % WORD
  {
    BitsInByte(s, j, bn);
    AccumulateStep(s, i, j - i, bn, r, (x / Pow2(bi)) % Pow2(bn));
  }

  /** One step of the byte-aligned loop: the next whole byte, shifted in. */
  lemma ByteStep(s: seq<Byte>, i: nat, p: nat, r: nat)
    requires i % 8 == 0 && i / 8 <= p < |s|
    requires r == BitsAt(s, i, 8 * p - i) % WORD
    ensures (r * 256 + s[p]) % WORD == BitsAt(s, i, 8 * (p + 1) - i) % WORD
  {
    ByteField(s, p);
    Pow2Small();
    assert 8 * p + 8 == 8 * (p + 1);
    AccumulateStep(s, i, 8 * p - i, 8, r, s[p]);
  }

  /**
   * The general loop: each step takes the b_n bits that remain in the
   * current byte (at most n), as `(byte >> b_i) & ((1 << b_n) - 1)`, and
   * shifts them into the 32-bit accumulator.
   */
  method FieldBits(w: array<Byte>, base: nat, i: nat, n: nat) returns (r: nat)
    requires base <= w.Length && i + n <= 8 * (w.Length - base)
    ensures r == BitsAt(w[base..], i, n) % WORD
  {
    ghost var s := w[base..];
    assert |s| == w.Length - base;
    var j: nat, k: nat := i, n;
    r := 0;
    while k > 0
      invariant i <= j && j + k == i + n && j <= 8 * |s|
      invariant r == BitsAt(s, i, j - i) % WORD
    {
      var bn: nat := 8 - j % 8;
      if bn > k {
        bn := k;
      }
      var bi: nat := 8 - j % 8 - bn;
      assert j / 8 < |s|;
      var x := w[base + j / 8];
      assert x == s[j / 8];
      FragmentStep(s, i, j, bn, bi, x, r);
      r := (r * Pow2(bn) + (x / Pow2(bi)) % Pow2(bn)) % WORD;
      j, k := j + bn, k - bn;
    }
  }

  /** The byte-aligned fast path, taken when `((i | n) & 7) == 0`. */
  method ByteBits(w: array<Byte>, base: nat, i: nat, n: nat) returns (r: nat)
    requires i % 8 == 0 && n % 8 == 0
    requires base <= w.Length && i + n <= 8 * (w.Length - base)
    ensures r == BitsAt(w[base..], i, n) % WORD
  {
    ghost var s := w[base..];
    assert |s| == w.Length - base;
    var p: nat, k: nat := i / 8, n / 8;
    r := 0;
    while k > 0
      invariant i / 8 <= p && p + k == (i + n) / 8 && p + k <= |s|
      invariant r == BitsAt(s, i, 8 * p - i) % WORD
    {
      assert w[base + p] == s[p];
      ByteStep(s, i, p, r);
      r := (r * 256 + w[base + p]) % WORD;
      p, k := p + 1, k - 1;
    }
  }

  // ---------------------------------------------------------------------
  // What `mpegd_get_bits` returns for a given unread stream.

  function Min(a: nat, b: nat): nat { if a <= b then a else b }

  /**
   * The value of `get_bits(i, n)` when `u` is the unread stream: the
   * field reduced to 32 bits when the window (at most `BUFFER` bytes)
   * can hold bits i .. i+n-1 after a refill, and 0 otherwise.
   */
  function Peek(u: seq<Byte>, i: nat, n: nat): nat
  {
    if i + n <= 8 * Min(BUFFER, |u|) then BitsAt(u, i, n) % WORD else 0
  }

  /** `get_bits(i, n)` is below 2^n, and equals the whole field when n <= 32. */
  lemma PeekBound(u: seq<Byte>, i: nat, n: nat)
    ensures Peek(u, i, n) < Pow2(n) && Peek(u, i, n) < WORD
    ensures n <= 32 && i + n <= 8 * Min(BUFFER, |u|) ==> Peek(u, i, n) == BitsAt(u, i, n)
  {
    if i + n <= 8 * Min(BUFFER, |u|) {
      var x := BitsAt(u, i, n);
      assert Peek(u, i, n) == x % WORD;
      Pow2Word();
      BitsBound(u, i, n);
      if n <= 32 {
        Pow2Monotone(n, 32);
        ModBelow(x, WORD);
      } else {
        Pow2Monotone(32, n);
      }
    }
  }

  /** `get_bits` reads only the first bytes of the stream. */
  lemma PeekAgree(u: seq<Byte>, v: seq<Byte>, m: nat, i: nat, n: nat)
    requires i + n <= 8 * m && m <= BUFFER && m <= |u| && m <= |v| && u[..m] == v[..m]
    ensures Peek(u, i, n) == Peek(v, i, n)
  {
    BitsAgree(u, v, m, i, n);
  }

  /**
   * A field read from a window holding the first m unread bytes is the
   * field `get_bits` promises, once the window covers it.
   */
  lemma WindowPeek(w: seq<Byte>, u: seq<Byte>, m: nat, i: nat, n: nat)
    requires m <= BUFFER && m <= |w| && m <= |u| && w[..m] == u[..m]
    requires (i + n + 7) / 8 <= m
    ensures i + n <= 8 * |w|
    ensures BitsAt(w, i, n) % WORD == Peek(u, i, n)
  {
    assert i + n <= 8 * m;
    BitsAgree(w, u, m, i, n);
  }
}
