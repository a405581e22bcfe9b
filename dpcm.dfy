/**
 * The DPCM arithmetic of the audio decoder: a buffer of samples is its first
 * frame followed by one difference byte per byte, each added (with the
 * carry between the two bytes of a 16-bit sample) to the byte one frame
 * earlier, wrapping at 8 bits.
 */
module Dpcm {
  import opened Bits

  // ---------------------------------------------------------------------
  // DPCM: integration and its inverse
  // ---------------------------------------------------------------------

  /** Byte j of the differences is the high byte of a 16-bit sample. */
  predicate High(w: nat, j: nat)
  {
    w == 2 && Odd(j)
  }

  /** j is odd. */
  predicate Odd(j: nat)
  {
    j != 0 && !Odd(j - 1)
  }

  /** One or two whole samples after a low byte comes a low byte. */
  lemma LowAfter(w: nat, a: nat, n: nat)
    requires (w == 1 || w == 2) && (n == w || n == 2 * w) && !High(w, a)
    ensures !High(w, a + n)
  {
    if w == 2 {
      assert Odd(a + 1) && !Odd(a + 2) && Odd(a + 3);
    }
  }

  /** A positive even number is at least two. */
  lemma EvenAtLeastTwo(n: nat)
    requires n > 0 && !Odd(n)
    ensures n >= 2
  {
  }

  /** a + b + carry in 8 bits: the sum is below 0x200, so wrapping it is one subtraction. */
  function AddByte(a: byte, b: byte, carry: nat): (r: byte)
    requires carry <= 1
  {
    var s := a as int + b as int + carry;
    if s >= 0x100 then s - 0x100 else s
  }

  /** The carry out of the 8-bit sum a + b. */
  function Carry(a: byte, b: byte): (c: nat)
    ensures c <= 1
  {
    if a as int + b as int >= 0x100 then 1 else 0
  }

  /** a - b - borrow in 8 bits: the difference is above -0x100, so wrapping it is one addition. */
  function SubByte(a: byte, b: byte, borrow: nat): (r: byte)
    requires borrow <= 1
  {
    var s := a as int - b as int - borrow;
    if s < 0 then s + 0x100 else s
  }

  /** The borrow out of the 8-bit difference a - b. */
  function Borrow(a: byte, b: byte): (c: nat)
    ensures c <= 1
  {
    if a < b then 1 else 0
  }

  /**
   * The samples a DPCM stream describes, byte by byte: the first frame
   * `init` (one sample per channel), then for each difference byte d[j] the
   * output byte one frame further on than out[j], which is out[j] + d[j]
   * plus, in the high byte of a 16-bit sample, the carry out of the low
   * byte; every sum wraps at 8 bits.
   */
  function Integrate(init: seq<byte>, d: seq<byte>, w: nat): (out: seq<byte>)
    requires |init| > 0
    ensures |out| == |init| + |d|
    decreases |d|
  {
    if d == [] then init
    else
      var j := |d| - 1;
      var prev := Integrate(init, d[..j], w);
      prev + [AddByte(d[j], prev[j], if High(w, j) then Carry(d[j - 1], prev[j - 1]) else 0)]
  }

  /** One more difference byte appends one output byte. */
  lemma IntegrateSnoc(init: seq<byte>, d: seq<byte>, w: nat, v: byte)
    requires |init| > 0
    ensures var out := Integrate(init, d, w);
            Integrate(init, d + [v], w) == out + [AddByte(v, out[|d|], if High(w, |d|) then Carry(d[|d| - 1], out[|d| - 1]) else 0)]
  {
    assert (d + [v])[..|d|] == d;
  }

  /** The first frame is kept as it is. */
  lemma {:induction false} IntegrateInit(init: seq<byte>, d: seq<byte>, w: nat)
    requires |init| > 0
    ensures Integrate(init, d, w)[..|init|] == init
    decreases |d|
  {
    if d != [] {
      var j := |d| - 1;
      IntegrateInit(init, d[..j], w);
      var prev := Integrate(init, d[..j], w);
      assert (prev + [Integrate(init, d, w)[|init| + j]])[..|init|] == prev[..|init|];
    }
  }

  /**
   * The differences that Integrate turns into `out`: every byte after the
   * first frame minus the byte one frame earlier, less the borrow out of
   * the low byte in the high byte of a 16-bit sample, wrapping at 8 bits.
   * This is what an encoder writes.
   */
  function Differences(out: seq<byte>, stride: nat, w: nat): (d: seq<byte>)
    requires 0 < stride <= |out|
    ensures |d| == |out| - stride
    decreases |out|
  {
    if |out| == stride then []
    else
      var k := |out| - 1;
      var j := k - stride;
      Differences(out[..k], stride, w) + [SubByte(out[k], out[j], if High(w, j) then Borrow(out[k - 1], out[j - 1]) else 0)]
  }

  /** The byte before a high byte is a low byte. */
  lemma HighPrev(w: nat, j: nat)
    requires High(w, j)
    ensures j >= 1 && !High(w, j - 1)
  {
  }

  /** Taking the differences of a prefix gives the same prefix of the differences. */
  lemma {:induction false} DifferencesPrefix(out: seq<byte>, stride: nat, w: nat, i: nat)
    requires 0 < stride && stride + i <= |out|
    ensures Differences(out, stride, w)[..i] == Differences(out[..stride + i], stride, w)
    decreases |out|
  {
    if stride + i < |out| {
      var k := |out| - 1;
      DifferencesPrefix(out[..k], stride, w, i);
      assert out[..k][..stride + i] == out[..stride + i];
    } else {
      assert out[..stride + i] == out;
    }
  }

  /** Every difference byte is the subtraction step of the output byte one frame on. */
  lemma DifferenceAt(out: seq<byte>, stride: nat, w: nat, i: nat)
    requires 0 < stride && stride + i < |out|
    ensures Differences(out, stride, w)[i] ==
            SubByte(out[stride + i], out[i], if High(w, i) then Borrow(out[stride + i - 1], out[i - 1]) else 0)
  {
    var p := out[..stride + i + 1];
    DifferencesPrefix(out, stride, w, i + 1);
    assert Differences(out, stride, w)[i] == Differences(p, stride, w)[i];
    assert p[stride + i] == out[stride + i] && p[i] == out[i];
    if High(w, i) {
      assert p[stride + i - 1] == out[stride + i - 1] && p[i - 1] == out[i - 1];
    }
  }

  /** Integrating the differences of a buffer rebuilds the buffer from its first frame. */
  lemma IntegrateDifferences(out: seq<byte>, stride: nat, w: nat)
    requires 0 < stride <= |out|
    ensures Integrate(out[..stride], Differences(out, stride, w), w) == out
  {
    var d := Differences(out, stride, w);
    var rebuilt := Integrate(out[..stride], d, w);
    RebuildPrefix(out, stride, w, d, rebuilt, |out|);
    assert rebuilt == out;
  }

  /** The first n bytes of the rebuilt buffer are those of the buffer. */
  lemma {:induction false} RebuildPrefix(out: seq<byte>, stride: nat, w: nat, d: seq<byte>, rebuilt: seq<byte>, n: nat)
    requires 0 < stride <= |out| && n <= |out|
    requires d == Differences(out, stride, w) && rebuilt == Integrate(out[..stride], d, w)
    ensures forall k | 0 <= k < n :: rebuilt[k] == out[k]
  {
    if n <= stride {
      IntegrateInit(out[..stride], d, w);
      assert forall k | 0 <= k < n :: rebuilt[k] == rebuilt[..stride][k];
    } else {
      RebuildPrefix(out, stride, w, d, rebuilt, n - 1);
      RebuildAt(out, stride, w, d, rebuilt, n - 1 - stride);
    }
  }

  /** One byte past a rebuilt prefix is rebuilt too. */
  lemma RebuildAt(out: seq<byte>, stride: nat, w: nat, d: seq<byte>, rebuilt: seq<byte>, i: nat)
    requires 0 < stride && stride + i < |out|
    requires d == Differences(out, stride, w) && rebuilt == Integrate(out[..stride], d, w)
    requires forall k | 0 <= k < stride + i :: rebuilt[k] == out[k]
    ensures rebuilt[stride + i] == out[stride + i]
  {
    var b := if High(w, i) then Borrow(out[stride + i - 1], out[i - 1]) else 0;
    var c := if High(w, i) then Carry(d[i - 1], rebuilt[i - 1]) else 0;
    ByteSum(out[..stride], d, w, i);
    DifferenceAt(out, stride, w, i);
    assert rebuilt[i] == out[i];
    if High(w, i) {
      HighPrev(w, i);
      DifferenceAt(out, stride, w, i - 1);
      assert rebuilt[i - 1] == out[i - 1];
      UndoSub(out[stride + i - 1], out[i - 1], 0, d[i - 1]);
    }
    UndoSub(out[stride + i], out[i], b, d[i]);
  }

  /** Differences of an integrated stream are the stream's differences. */
  lemma DifferencesIntegrate(init: seq<byte>, d: seq<byte>, w: nat)
    requires |init| > 0
    ensures Differences(Integrate(init, d, w), |init|, w) == d
  {
    var out := Integrate(init, d, w);
    var e := Differences(out, |init|, w);
    forall i | 0 <= i < |d|
      ensures e[i] == d[i]
    {
      RecoverAt(init, d, w, out, e, i);
    }
  }

  /** Each difference byte is recovered from the integrated stream. */
  lemma RecoverAt(init: seq<byte>, d: seq<byte>, w: nat, out: seq<byte>, e: seq<byte>, i: nat)
    requires |init| > 0 && i < |d|
    requires out == Integrate(init, d, w) && e == Differences(out, |init|, w)
    ensures e[i] == d[i]
  {
    var c := if High(w, i) then Carry(d[i - 1], out[i - 1]) else 0;
    ByteSum(init, d, w, i);
    DifferenceAt(out, |init|, w, i);
    if High(w, i) {
      HighPrev(w, i);
      ByteSum(init, d, w, i - 1);
      UndoAdd(d[i - 1], out[i - 1], 0, out[|init| + i - 1]);
    }
    UndoAdd(d[i], out[i], c, out[|init| + i]);
  }

  /** A byte sum minus its addend is the other addend, and the borrow out of it is the carry into it. */
  lemma UndoAdd(x: byte, p: byte, c: nat, o: byte)
    requires c <= 1 && o == AddByte(x, p, c)
    ensures SubByte(o, p, c) == x
    ensures c == 0 ==> Borrow(o, p) == Carry(x, p)
  {
  }

  /** A byte difference plus its subtrahend is the minuend, and the carry out of it is the borrow into it. */
  lemma UndoSub(o: byte, p: byte, c: nat, x: byte)
    requires c <= 1 && x == SubByte(o, p, c)
    ensures AddByte(x, p, c) == o
    ensures c == 0 ==> Carry(x, p) == Borrow(o, p)
  {
  }

  /** Integrating a prefix of the differences gives the same prefix of the samples. */
  lemma {:induction false} IntegratePrefix(init: seq<byte>, d: seq<byte>, w: nat, i: nat)
    requires |init| > 0 && i <= |d|
    ensures Integrate(init, d, w)[..|init| + i] == Integrate(init, d[..i], w)
    decreases |d|
  {
    if i < |d| {
      var j := |d| - 1;
      IntegratePrefix(init, d[..j], w, i);
      assert d[..j][..i] == d[..i];
    } else {
      assert d[..i] == d;
    }
  }

  /** The 16-bit little-endian value of a low and a high byte. */
  function Le16(lo: byte, hi: byte): (v: nat)
    ensures v < 0x1_0000
  {
    lo + 0x100 * hi
  }

  /**
   * 16-bit addition done a byte at a time: the low byte is the sum of the
   * low bytes, the high byte the sum of the high bytes plus the carry out
   * of the low bytes.
   */
  lemma AddBytes(a0: byte, a1: byte, b0: byte, b1: byte, o0: byte, o1: byte)
    requires o0 == AddByte(a0, b0, 0) && o1 == AddByte(a1, b1, Carry(a0, b0))
    ensures Le16(o0, o1) == (Le16(a0, a1) + Le16(b0, b1)) % 0x1_0000
  {
    var c := Carry(a0, b0);
    var q := if a1 as int + b1 as int + c >= 0x100 then 1 else 0;
    assert a0 as int + b0 as int == 0x100 * c + o0;
    assert a1 as int + b1 as int + c == 0x100 * q + o1;
    DivModUnique(Le16(a0, a1) + Le16(b0, b1), 0x1_0000, q, Le16(o0, o1));
  }

  /** The byte after a low byte of a 16-bit sample is its high byte. */
  lemma HighNext(w: nat, j: nat)
    requires w == 2 && !High(w, j)
    ensures High(w, j + 1)
  {
  }

  /** Every output byte after the first frame is the integration step of its difference byte. */
  lemma ByteSum(init: seq<byte>, d: seq<byte>, w: nat, i: nat)
    requires |init| > 0 && i < |d|
    ensures var out := Integrate(init, d, w);
            out[|init| + i] == AddByte(d[i], out[i], if High(w, i) then Carry(d[i - 1], out[i - 1]) else 0)
  {
    var out := Integrate(init, d, w);
    var p0 := Integrate(init, d[..i], w);
    IntegratePrefix(init, d, w, i + 1);
    assert d[..i + 1] == d[..i] + [d[i]];
    IntegrateSnoc(init, d[..i], w, d[i]);
    var c := if High(w, i) then Carry(d[i - 1], p0[i - 1]) else 0;
    SnocAt(out, p0, AddByte(d[i], p0[i], c), |init| + i);
    PrefixAt(out, p0, i);
    if High(w, i) {
      PrefixAt(out, p0, i - 1);
    }
  }

  /** A sequence that starts with p + [v] holds v right after p. */
  lemma SnocAt(s: seq<byte>, p: seq<byte>, v: byte, n: nat)
    requires |p| == n < |s| && s[..n + 1] == p + [v]
    ensures s[n] == v && s[..n] == p
  {
    assert s[n] == (s[..n + 1])[n];
    assert s[..n] == (s[..n + 1])[..n];
  }

  /** A sequence that starts with p agrees with p below |p|. */
  lemma PrefixAt(s: seq<byte>, p: seq<byte>, k: nat)
    requires k < |p| <= |s| && s[..|p|] == p
    ensures s[k] == p[k]
  {
    assert s[k] == (s[..|p|])[k];
  }

  /** In 8-bit samples: each sample after the first frame is the sample one frame earlier plus its difference, mod 2^8. */
  lemma SampleSum8(init: seq<byte>, d: seq<byte>, j: nat)
    requires |init| > 0 && j < |d|
    ensures var out := Integrate(init, d, 1);
            out[|init| + j] == (d[j] as int + out[j] as int) % 0x100
  {
    ByteSum(init, d, 1, j);
    var out := Integrate(init, d, 1);
    NoCarrySum(out[|init| + j], d[j], out[j]);
  }

  /** Without a carry in, the byte sum is the sum mod 2^8. */
  lemma NoCarrySum(x: byte, a: byte, b: byte)
    requires x == AddByte(a, b, 0)
    ensures x == (a as int + b as int) % 0x100
  {
  }

  /**
   * In 16-bit little-endian samples: each sample after the first frame is
   * the sample one frame earlier plus its difference, mod 2^16.
   */
  lemma SampleSum16(init: seq<byte>, d: seq<byte>, out: seq<byte>, j: nat)
    requires |init| >= 2 && j + 2 <= |d| && !Odd(j) && out == Integrate(init, d, 2)
    ensures Le16(out[|init| + j], out[|init| + j + 1]) == (Le16(d[j], d[j + 1]) + Le16(out[j], out[j + 1])) % 0x1_0000
  {
    SampleBytes16(init, d, j);
    assert Le16(out[|init| + j], out[|init| + j + 1]) == (Le16(d[j], d[j + 1]) + Le16(out[j], out[j + 1])) % 0x1_0000 by {
      PairSum(out, d, |init|, j);
    }
  }

  /** The low byte of a 16-bit sample is summed without a carry in, the high byte with the low byte's carry. */
  lemma SampleBytes16(init: seq<byte>, d: seq<byte>, j: nat)
    requires |init| > 0 && j + 2 <= |d| && !Odd(j)
    ensures var out := Integrate(init, d, 2);
            out[|init| + j] == AddByte(d[j], out[j], 0) &&
            out[|init| + (j + 1)] == AddByte(d[j + 1], out[j + 1], Carry(d[j], out[j]))
  {
    ByteSum(init, d, 2, j);
    HighNext(2, j);
    ByteSum(init, d, 2, j + 1);
  }

  /** The two byte sums of a 16-bit sample, n bytes after the sample it adds to, make one 16-bit sum. */
  lemma PairSum(out: seq<byte>, d: seq<byte>, n: nat, j: nat)
    requires n >= 2 && j + 2 <= |d| && n + j + 2 <= |out|
    requires out[n + j] == AddByte(d[j], out[j], 0)
    requires out[n + (j + 1)] == AddByte(d[j + 1], out[j + 1], Carry(d[j], out[j]))
    ensures Le16(out[n + j], out[n + j + 1]) == (Le16(d[j], d[j + 1]) + Le16(out[j], out[j + 1])) % 0x1_0000
  {
    AddBytes(d[j], d[j + 1], out[j], out[j + 1], out[n + j], out[n + j + 1]);
  }

  /** A 16-bit sample appended: its low byte without carry in, its high byte with the low byte's carry. */
  lemma IntegratePair(init: seq<byte>, d: seq<byte>, a: byte, b: byte)
    requires |init| >= 2 && !High(2, |d|)
    ensures var o := Integrate(init, d, 2);
            Integrate(init, d + [a] + [b], 2) == o + [AddByte(a, o[|d|], 0), AddByte(b, o[|d| + 1], Carry(a, o[|d|]))]
  {
    var o := Integrate(init, d, 2);
    IntegrateSnoc(init, d, 2, a);
    var o1 := Integrate(init, d + [a], 2);
    HighNext(2, |d|);
    IntegrateSnoc(init, d + [a], 2, b);
    assert o1[|d|] == o[|d|] && o1[|d| + 1] == o[|d| + 1];
  }
}
