/** Machine-level types shared by the whole model: bytes, C++ `char` strings
    and the fixed-width integers the program stores in its file format. */
module Base {

  /** One octet, a `uint8_t`. */
  type Byte = b: int | 0 <= b < 256

  /** A C++ `char`. Its code point is kept below 256 so that a `char` and the
      `uint8_t` it is copied into have the same value. */
  type Char8 = c: char | c as int < 256

  /** A `std::string`: a sequence of bytes read as characters. */
  type CStr = seq<Char8>

  const TWO_32: int := 0x1_0000_0000
  const INT32_MIN: int := -0x8000_0000
  const INT32_MAX: int := 0x7FFF_FFFF
  const INT64_MIN: int := -0x8000_0000_0000_0000
  const INT64_MAX: int := 0x7FFF_FFFF_FFFF_FFFF

  /** A C++ `int`. */
  type Int32 = x: int | -0x8000_0000 <= x <= 0x7FFF_FFFF

  /** A `time_t` / `long long`. */
  type Int64 = x: int | -0x8000_0000_0000_0000 <= x <= 0x7FFF_FFFF_FFFF_FFFF

  /** Conversion of any integer to `int` by two's-complement wrap-around:
      what `(int)size()` produces on the usual compilers. */
  function Wrap32(x: int): (r: Int32)
    ensures INT32_MIN <= x <= INT32_MAX ==> r == x
  {
    var u := x % TWO_32;
    if u > INT32_MAX then u - TWO_32 else u
  }

  /** The wrapped value differs from the exact one by a multiple of 2^32. */
  lemma {:induction false} Wrap32Congruent(x: int)
    ensures (x - Wrap32(x)) % TWO_32 == 0
  {
    var u := x % TWO_32;
    assert x == (x / TWO_32) * TWO_32 + u;
  }

  /** Integer `/` in C++: the quotient truncated toward zero, unlike
      Dafny's Euclidean `/`. */
  function Quot(a: int, b: int): (q: int)
    requires b != 0
    ensures a >= 0 && b > 0 ==> q >= 0
    ensures a >= 0 && b < 0 ==> q <= 0
  {
    var x := if a < 0 then -a else a;
    var y := if b < 0 then -b else b;
    var q := x / y;
    assert q >= 0 by { DivNonNegative(x, y); }
    if (a < 0) != (b < 0) then -q else q
  }

  lemma {:induction false} DivNonNegative(x: int, y: int)
    requires x >= 0 && y > 0
    ensures x / y >= 0
  {
  }

  /** The C++ division law: the remainder left by `Quot` is smaller than the
      divisor in magnitude and takes the sign of the dividend. */
  lemma {:induction false} QuotTruncates(a: int, b: int)
    requires b != 0
    ensures var r := a - Quot(a, b) * b;
            && (if r < 0 then -r else r) < (if b < 0 then -b else b)
            && (r == 0 || (r < 0) == (a < 0))
  {
  }

  /** `x + 1` on an `int`, as `++nextId` and `id + 1` compute it. Signed
      overflow is undefined in C++; at `INT_MAX` this takes the two's-complement
      wrap-around the usual compilers produce. */
  function Succ32(x: Int32): Int32
  {
    if x == INT32_MAX then INT32_MIN else x + 1
  }

  /** That is the wrap-around of the exact successor. */
  lemma {:induction false} Succ32IsWrap(x: Int32)
    ensures Succ32(x) == Wrap32(x as int + 1)
    ensures Succ32(x) > x <==> x < INT32_MAX
  {
  }

  /** `n` zero bytes: a freshly value-initialised `std::vector<uint8_t>(n)`. */
  function Zeros(n: nat): (z: seq<Byte>)
    ensures |z| == n
    ensures forall i :: 0 <= i < n ==> z[i] == 0
  {
    seq(n, _ => 0)
  }

  /** The four bytes of an `int` in memory on a little-endian host. */
  function Le32(x: Int32): (b: seq<Byte>)
    ensures |b| == 4
  {
    var u := x % TWO_32;
    [u % 256, u / 256 % 256, u / 256 / 256 % 256, u / 256 / 256 / 256]
  }

  /** The `int` whose in-memory bytes are `b` (a `memcpy` into an `int`). */
  function FromLe32(b: seq<Byte>): Int32
    requires |b| == 4
  {
    var u := b[0] as int + 256 * (b[1] as int + 256 * (b[2] as int + 256 * b[3] as int));
    if u > INT32_MAX then u - TWO_32 else u
  }

  /** One base-256 digit split off a natural number. */
  lemma {:induction false} Digit(d: int, q: int)
    requires 0 <= d < 256 && 0 <= q
    ensures (d + 256 * q) % 256 == d && (d + 256 * q) / 256 == q
  {
  }

  /** Writing an `int` and reading it back gives the same `int`. */
  lemma {:induction false} Le32RoundTrip(x: Int32)
    ensures FromLe32(Le32(x)) == x
  {
    var u := x % TWO_32;
    var b := Le32(x);
    var q1, q2, q3 := u / 256, u / 256 / 256, u / 256 / 256 / 256;
    assert q2 == b[2] + 256 * q3;
    assert q1 == b[1] + 256 * q2;
    assert u == b[0] + 256 * q1;
    assert x == u || x == u - TWO_32;
  }

  /** Every four-byte pattern is the image of exactly one `int`. */
  lemma {:induction false} FromLe32RoundTrip(b: seq<Byte>)
    requires |b| == 4
    ensures Le32(FromLe32(b)) == b
  {
    var q2 := b[2] as int + 256 * b[3] as int;
    var q1 := b[1] as int + 256 * q2;
    var u := b[0] as int + 256 * q1;
    assert FromLe32(b) % TWO_32 == u;
    Digit(b[0], q1);
    Digit(b[1], q2);
    Digit(b[2], b[3]);
  }
}
