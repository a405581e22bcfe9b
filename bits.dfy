/**
 * Integer views of the bytes, bits and machine words the decoder works on.
 * Every C integer type of the decoder is modelled by an unbounded `int`
 * restricted to its range; shifts and masks on these values are written as
 * the equivalent multiplication, division and remainder by powers of two.
 */
module Bits {

  type byte = x: int | 0 <= x < 0x100
  type u16 = x: int | 0 <= x < 0x1_0000
  type u32 = x: int | 0 <= x < 0x1_0000_0000

  function Pow2(n: nat): (r: nat)
    ensures r >= 1
  {
    if n == 0 then 1 else 2 * Pow2(n - 1)
  }

  /** Bit k of x, the C test `(x & (1 << k)) != 0`. */
  predicate BitOf(x: nat, k: nat)
  {
    (x / Pow2(k)) % 2 == 1
  }

  /** The number whose bit k is s[k]: a bit sequence read least-significant bit first. */
  function FromBits(s: seq<bool>): (r: nat)
    ensures r < Pow2(|s|)
  {
    if s == [] then 0
    else FromBits(s[..|s| - 1]) + (if s[|s| - 1] then Pow2(|s| - 1) else 0)
  }

  /** The n lowest bits of x, least-significant first. */
  function LowBits(x: nat, n: nat): (s: seq<bool>)
    ensures |s| == n
    ensures forall k :: 0 <= k < n ==> s[k] == BitOf(x, k)
  {
    seq(n, k requires 0 <= k < n => BitOf(x, k))
  }

  lemma Pow2Add(a: nat, b: nat)
    ensures Pow2(a) * Pow2(b) == Pow2(a + b)
  {
    if a > 0 {
      Pow2Add(a - 1, b);
    }
  }

  lemma DivModUnique(x: int, d: int, q: int, r: int)
    requires d > 0 && 0 <= r < d && x == q * d + r
    ensures x / d == q && x % d == r
  {
    var q', r' := x / d, x % d;
    assert (q - q') * d == r' - r;
    if q > q' {
      MulAtLeast(q - q', d);
    } else if q < q' {
      MulAtLeast(q' - q, d);
    }
  }

  lemma MulAtLeast(a: int, d: int)
    requires a >= 1 && d > 0
    ensures a * d >= d
  {
  }

  /** Splitting a remainder by 2m into the remainder by m and one more bit. */
  lemma ModDouble(x: nat, m: nat)
    requires m > 0
    ensures x % (2 * m) == x % m + ((x / m) % 2) * m
  {
    var q := x / m;
    var r := x % m;
    assert x == q * m + r;
    assert q == 2 * (q / 2) + q % 2;
    assert x == (q / 2) * (2 * m) + ((q % 2) * m + r);
    DivModUnique(x, 2 * m, q / 2, (q % 2) * m + r);
  }

  /** Reading back the n lowest bits of x gives x modulo 2^n. */
  lemma {:induction false} FromLowBits(x: nat, n: nat)
    ensures FromBits(LowBits(x, n)) == x % Pow2(n)
  {
    if n > 0 {
      var s := LowBits(x, n);
      assert s[..n - 1] == LowBits(x, n - 1);
      FromLowBits(x, n - 1);
      ModDouble(x, Pow2(n - 1));
    }
  }

  /** The eight bits of a byte, reassembled least-significant first, give the byte back. */
  lemma ByteBitsRoundTrip(x: byte)
    ensures FromBits(LowBits(x, 8)) == x
  {
    FromLowBits(x, 8);
    assert Pow2(8) == 256;
  }

  /** On a 16-bit word, the test of bit 15 is the comparison with 0x8000. */
  lemma Bit15(x: u16)
    ensures BitOf(x, 15) <==> x >= 0x8000
  {
    assert Pow2(15) == 0x8000;
  }

  /** Below 2^(k+1), bit k is set exactly from 2^k on. */
  lemma TopBit(x: nat, k: nat)
    requires x < 2 * Pow2(k)
    ensures BitOf(x, k) <==> x >= Pow2(k)
  {
    if x >= Pow2(k) {
      DivModUnique(x, Pow2(k), 1, x - Pow2(k));
    } else {
      DivModUnique(x, Pow2(k), 0, x);
    }
  }

  /** The tag bits of a 32-bit slot: bit 31 and bit 30. */
  lemma Bit31(x: u32)
    ensures BitOf(x, 31) <==> x >= 0x8000_0000
  {
    Pow2Thirty();
    TopBit(x, 31);
  }

  lemma Bit30(x: nat)
    requires x < 0x8000_0000
    ensures BitOf(x, 30) <==> x >= 0x4000_0000
  {
    Pow2Thirty();
    TopBit(x, 30);
  }

  lemma Pow2Thirty()
    ensures Pow2(30) == 0x4000_0000 && Pow2(31) == 0x8000_0000
  {
    assert Pow2(15) == 0x8000;
    Pow2Add(15, 15);
  }
}
