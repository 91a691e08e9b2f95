/**
 * Fixed-width unsigned integers as the firmware uses them (uint8_t, uint16_t,
 * uint32_t), little-endian field encoding as laid out by the ESP32's packed
 * structs, wrap-around arithmetic on millis() time stamps, and C-string
 * prefixes (what strlen / %s / String(const char*) see).
 */
module Bytes {

  type u8 = x: int | 0 <= x < 0x100
  type u16 = x: int | 0 <= x < 0x1_0000
  type u32 = x: int | 0 <= x < 0x1_0000_0000

  datatype Option<T> = None | Some(value: T)

  /** Conversion to uint16_t: keeps the low 16 bits. */
  function Wrap16(x: int): (r: u16)
    ensures 0 <= x < 0x1_0000 ==> r == x
    ensures (r - x) % 0x1_0000 == 0
  {
    x % 0x1_0000
  }

  /** Conversion to uint32_t: keeps the low 32 bits. */
  function Wrap32(x: int): (r: u32)
    ensures 0 <= x < 0x1_0000_0000 ==> r == x
    ensures (r - x) % 0x1_0000_0000 == 0
  {
    x % 0x1_0000_0000
  }

  /**
   * `millis() - since` computed in uint32_t: the elapsed time, correct across
   * one wrap of the 32-bit millisecond counter.
   */
  function Elapsed(now: u32, since: u32): (r: u32)
    ensures since <= now ==> r == now - since
    ensures now < since ==> r == now + 0x1_0000_0000 - since
  {
    Wrap32(now - since)
  }

  /** Little-endian bytes of a uint16_t field. */
  function Le16(x: u16): (r: seq<u8>)
    ensures |r| == 2 && ReadLe16(r, 0) == x
  {
    [x % 0x100, x / 0x100]
  }

  /** The uint16_t stored little-endian at b[at], b[at+1]. */
  function ReadLe16(b: seq<u8>, at: nat): u16
    requires at + 2 <= |b|
  {
    b[at] as int + 0x100 * (b[at + 1] as int)
  }

  /** Little-endian bytes of a uint32_t field. */
  function Le32(x: u32): (r: seq<u8>)
    ensures |r| == 4 && ReadLe32(r, 0) == x
  {
    Le32Digits(x);
    [x % 0x100, (x / 0x100) % 0x100, (x / 0x1_0000) % 0x100, x / 0x100_0000]
  }

  /** The four base-256 digits of a uint32_t add back up to it. */
  lemma Le32Digits(x: u32)
    ensures x % 0x100 + 0x100 * ((x / 0x100) % 0x100) + 0x1_0000 * ((x / 0x1_0000) % 0x100) + 0x100_0000 * (x / 0x100_0000) == x
  {
    var q1, q2, q3 := x / 0x100, x / 0x1_0000, x / 0x100_0000;
    assert x == x % 0x100 + 0x100 * q1;
    assert q2 == q1 / 0x100 && q1 == q1 % 0x100 + 0x100 * q2;
    assert q3 == q2 / 0x100 && q2 == q2 % 0x100 + 0x100 * q3;
  }

  /** The uint32_t stored little-endian at b[at .. at+4]. */
  function ReadLe32(b: seq<u8>, at: nat): u32
    requires at + 4 <= |b|
  {
    b[at] as int + 0x100 * (b[at + 1] as int) + 0x1_0000 * (b[at + 2] as int) + 0x100_0000 * (b[at + 3] as int)
  }

  /** Reading back the two bytes of a field gives the bytes that were there. */
  lemma Le16OfRead(b: seq<u8>, at: nat)
    requires at + 2 <= |b|
    ensures Le16(ReadLe16(b, at)) == b[at..at + 2]
  {
  }

  /** Reading back the four bytes of a field gives the bytes that were there. */
  lemma Le32OfRead(b: seq<u8>, at: nat)
    requires at + 4 <= |b|
    ensures Le32(ReadLe32(b, at)) == b[at..at + 4]
  {
    var b0, b1, b2, b3 := b[at] as int, b[at + 1] as int, b[at + 2] as int, b[at + 3] as int;
    var x := ReadLe32(b, at);
    SplitAt(b0, b1 + 0x100 * b2 + 0x1_0000 * b3, 0x100);
    SplitAt(b0 + 0x100 * b1, b2 + 0x100 * b3, 0x1_0000);
    SplitAt(b0 + 0x100 * b1 + 0x1_0000 * b2, b3, 0x100_0000);
    SplitAt(b1, b2 + 0x100 * b3, 0x100);
    SplitAt(b2, b3, 0x100);
  }

  /** Division by a power of 256 separates a number written as `lo + base * hi` into its two parts. */
  lemma SplitAt(lo: int, hi: nat, base: int)
    requires base == 0x100 || base == 0x1_0000 || base == 0x100_0000
    requires 0 <= lo < base
    ensures (lo + base * hi) / base == hi && (lo + base * hi) % base == lo
  {
    if base == 0x100 {
      assert (lo + 0x100 * hi) / 0x100 == hi;
    } else if base == 0x1_0000 {
      assert (lo + 0x1_0000 * hi) / 0x1_0000 == hi;
    } else {
      assert (lo + 0x100_0000 * hi) / 0x100_0000 == hi;
    }
  }

  /**
   * strlen: the number of bytes before the first NUL (0), or the whole
   * sequence when it holds no NUL.
   */
  function CStrLen(s: seq<u8>): (n: nat)
    ensures n <= |s|
    ensures forall i :: 0 <= i < n ==> s[i] != 0
    ensures n < |s| ==> s[n] == 0
  {
    if s == [] || s[0] == 0 then 0 else 1 + CStrLen(s[1..])
  }

  /** The C string a byte buffer holds: its bytes before the first NUL. */
  function CStr(s: seq<u8>): (r: seq<u8>)
    ensures r == s[..CStrLen(s)] && 0 !in r
  {
    s[..CStrLen(s)]
  }

  /** A buffer without NUL bytes is its own C string. */
  lemma CStrOfNulFree(s: seq<u8>)
    requires 0 !in s
    ensures CStrLen(s) == |s| && CStr(s) == s
  {
  }

  /** `n` zero bytes. */
  function Zeros(n: nat): (r: seq<u8>)
    ensures |r| == n && forall i :: 0 <= i < n ==> r[i] == 0
  {
    seq(n, _ => 0)
  }

  /**
   * strncpy(dst, src, n): the C string of `src`, cut at `n` bytes and padded
   * with NULs to exactly `n` bytes. When the C string of `src` is `n` bytes or
   * longer the result holds no terminator.
   */
  function Strncpy(src: seq<u8>, n: nat): (r: seq<u8>)
    ensures |r| == n
    ensures CStrLen(src) < n ==> r == CStr(src) + Zeros(n - CStrLen(src))
    ensures n <= CStrLen(src) ==> r == src[..n] && 0 !in r
  {
    var m := CStrLen(src);
    if m < n then CStr(src) + Zeros(n - m) else src[..n]
  }
}
