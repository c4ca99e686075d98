/** Shared value types: optional and fallible results, complex samples and bytes. */
module Common {

  datatype Option<+T> = None | Some(value: T)

  datatype Result<+T, +E> = Ok(value: T) | Err(error: E)

  /** A complex IQ sample with exact (real-valued) parts. */
  datatype Complex = Complex(re: real, im: real)

  const Zero: Complex := Complex(0.0, 0.0)

  /** The complex product, as std::complex defines it. */
  function Mul(a: Complex, b: Complex): (r: Complex)
    ensures b.im == 0.0 ==> r == Complex(a.re * b.re, a.im * b.re)
  {
    Complex(a.re * b.re - a.im * b.im, a.re * b.im + a.im * b.re)
  }

  /** 1, 2, 4, 8, ... */
  predicate IsPow2(n: int)
    decreases if n > 0 then n else 0
  {
    n == 1 || (n >= 2 && n % 2 == 0 && IsPow2(n / 2))
  }

  /** An unsigned 8-bit value, as held by a numpy uint8 array. */
  type uint8 = x: int | 0 <= x < 256

  /** n copies of the same byte. */
  function Zeros(n: nat): (r: seq<uint8>)
    ensures |r| == n && forall i :: 0 <= i < n ==> r[i] == 0
  {
    seq(n, _ => 0)
  }

  /** Two bytes read as little-endian: b0 + 2^8 b1. */
  function LE16(s: seq<uint8>, at: nat): (r: nat)
    requires at + 2 <= |s|
    ensures r < 0x1_0000
  {
    s[at] as int + 256 * s[at + 1] as int
  }

  /** Four bytes read as little-endian: b0 + 2^8 b1 + 2^16 b2 + 2^24 b3. */
  function LE32(s: seq<uint8>, at: nat): (r: nat)
    requires at + 4 <= |s|
    ensures r < 0x1_0000_0000
  {
    s[at] as int + 0x100 * s[at + 1] as int + 0x1_0000 * s[at + 2] as int + 0x100_0000 * s[at + 3] as int
  }

  /** The little-endian encodings that LE16 and LE32 invert. */
  function Encode16(v: nat): (r: seq<uint8>)
    requires v < 0x1_0000
    ensures |r| == 2
  {
    [v % 256, v / 256]
  }

  function Encode32(v: nat): (r: seq<uint8>)
    requires v < 0x1_0000_0000
    ensures |r| == 4
  {
    [v % 0x100, (v / 0x100) % 0x100, (v / 0x1_0000) % 0x100, v / 0x100_0000]
  }

  lemma LE16RoundTrip(v: nat)
    requires v < 0x1_0000
    ensures LE16(Encode16(v), 0) == v
  {
  }

  lemma LE32RoundTrip(v: nat)
    requires v < 0x1_0000_0000
    ensures LE32(Encode32(v), 0) == v
  {
    var b0, b1, b2, b3 := v % 0x100, (v / 0x100) % 0x100, (v / 0x1_0000) % 0x100, v / 0x100_0000;
    assert v / 0x100 == b1 + 0x100 * (v / 0x1_0000);
    assert v / 0x1_0000 == b2 + 0x100 * b3;
  }
}
