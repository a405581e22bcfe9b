/**
 * The bit reader of smk_bitstream.c: a read-only view of a byte buffer that
 * hands out one bit or one byte at a time, least-significant bit of each
 * byte first, and reports exhaustion instead of reading past the buffer.
 */
module BitStream {
  import opened Bits

  /**
   * Outcome of reading from a bit sequence: a value and the position after
   * it, or failure, with the position the reader is left at.
   */
  datatype Parsed<T> = Ok(value: T, next: nat) | Fail(at: nat)

  /** The buffer as the sequence of bits the reader hands out: bit p is bit p % 8 of byte p / 8. */
  function BitView(buf: seq<byte>): (bits: seq<bool>)
    ensures |bits| == 8 * |buf|
  {
    seq(8 * |buf|, p requires 0 <= p < 8 * |buf| => BitOf(buf[p / 8], p % 8))
  }

  /** smk_bs_read_1 on a bit sequence: the bit at pos, or failure without moving. */
  function Read1(bits: seq<bool>, pos: nat): (r: Parsed<bool>)
    ensures r.Ok? <==> pos < |bits|
    ensures r.Ok? ==> r.value == bits[pos] && r.next == pos + 1
    ensures r.Fail? ==> r.at == pos
  {
    if pos < |bits| then Ok(bits[pos], pos + 1) else Fail(pos)
  }

  /** smk_bs_read_8 on a bit sequence: eight bits, the first read being bit 0 of the result. */
  function Read8(bits: seq<bool>, pos: nat): (r: Parsed<byte>)
    ensures r.Ok? <==> pos + 8 <= |bits|
    ensures r.Ok? ==> r.value == FromBits(bits[pos..pos + 8]) && r.next == pos + 8
    ensures r.Fail? ==> r.at == pos
  {
    if pos + 8 <= |bits| then
      assert Pow2(8) == 256;
      Ok(FromBits(bits[pos..pos + 8]), pos + 8)
    else Fail(pos)
  }

  /** Bits come out of each byte least-significant first, byte after byte. */
  lemma BitOrder(buf: seq<byte>, b: nat, k: nat)
    requires b < |buf| && k < 8
    ensures BitView(buf)[8 * b + k] == BitOf(buf[b], k)
  {
    assert (8 * b + k) / 8 == b && (8 * b + k) % 8 == k;
  }

  /** Eight bits read from a byte boundary are exactly the next byte of the buffer. */
  lemma {:induction false} Read8Aligned(buf: seq<byte>, b: nat)
    requires b < |buf|
    ensures Read8(BitView(buf), 8 * b) == Ok(buf[b], 8 * b + 8)
  {
    var bits := BitView(buf);
    forall k | 0 <= k < 8
      ensures bits[8 * b..8 * b + 8][k] == LowBits(buf[b], 8)[k]
    {
      BitOrder(buf, b, k);
    }
    assert bits[8 * b..8 * b + 8] == LowBits(buf[b], 8);
    ByteBitsRoundTrip(buf[b]);
  }

  /** One step of the read_8 loop: `ret >>= 1; ret |= bit << 7`, on the value read so far. */
  lemma ShiftInStep(v: nat, i: nat, b: bool)
    requires i < 8
    ensures (v * Pow2(8 - i)) / 2 + (if b then 128 else 0)
         == (v + (if b then Pow2(i) else 0)) * Pow2(7 - i)
  {
    var c := Pow2(7 - i);
    assert Pow2(8 - i) == 2 * c;
    assert v * Pow2(8 - i) == 2 * (v * c);
    Pow2Add(i, 7 - i);
    assert Pow2(7) == 128;
    if b {
      assert (v + Pow2(i)) * c == v * c + Pow2(i) * c;
    }
  }

  /** The read_8 register after shifting in the bits of s, one `ret >>= 1; ret |= bit << 7` each. */
  function ShiftIn(s: seq<bool>): (r: nat)
    requires |s| <= 8
    ensures r == FromBits(s) * Pow2(8 - |s|)
  {
    if s == [] then 0
    else
      var prior := s[..|s| - 1];
      ShiftInStep(FromBits(prior), |prior|, s[|s| - 1]);
      ShiftIn(prior) / 2 + (if s[|s| - 1] then 128 else 0)
  }

  /** Shifting in one more bit: the register moves down one place and the bit enters at the top. */
  lemma ShiftInSnoc(s: seq<bool>, b: bool)
    requires |s| < 8
    ensures ShiftIn(s + [b]) == ShiftIn(s) / 2 + (if b then 128 else 0)
  {
    assert (s + [b])[..|s|] == s;
  }

  /**
   * struct smk_bit_t. The position is kept as in C: byte_num is the byte of
   * the last bit read and bit_num its index in that byte. A fresh reader has
   * byte_num = (unsigned long)-1, kept here as -1; C only ever adds one to it,
   * which wraps to 0 exactly as -1 + 1 does.
   */
  class BitReader {
    const buf: seq<byte>
    const size: nat
    /** The buffer as the bits the reader hands out, in reading order. */
    ghost const bits: seq<bool>
    var byteNum: int
    var bitNum: int

    ghost predicate Valid()
      reads this
    {
      && size == |buf|
      && |bits| == 8 * size
      && (forall b, k :: 0 <= b < size && 0 <= k < 8 ==> BitOf(buf[b], k) == bits[8 * b + k])
      && -1 <= byteNum < size
      && 0 <= bitNum <= 7
      && (byteNum == -1 ==> bitNum == 7)
    }

    /** The bits of the buffer, in reading order. */
    ghost function Bits(): seq<bool>
    {
      bits
    }

    /** The number of bits read so far. */
    ghost function Pos(): (p: nat)
      reads this
      requires Valid()
      ensures p <= |Bits()|
    {
      8 * byteNum + bitNum + 1
    }

    /** smk_bs_init: a reader positioned before bit 0 of byte 0. */
    constructor (b: seq<byte>)
      ensures Valid() && buf == b && Bits() == BitView(b) && Pos() == 0
      ensures byteNum == -1 && bitNum == 7
    {
      buf := b;
      size := |b|;
      bits := BitView(b);
      byteNum := -1;
      bitNum := 7;
      new;
      forall i, k | 0 <= i < size && 0 <= k < 8
        ensures BitOf(buf[i], k) == bits[8 * i + k]
      {
        BitOrder(b, i, k);
      }
    }

    /** Whether a bit remains: the guard of smk_bs_read_1 (smk_bits_left of the older interface). */
    function BitsLeft(): (r: bool)
      reads this
      requires Valid()
      ensures r <==> Pos() < |Bits()|
    {
      bitNum < 7 || byteNum + 1 < size
    }

    /** smk_bs_next: advance one bit and return it; the caller has checked that one remains. */
    method Next() returns (bit: bool)
      requires Valid() && Pos() < |Bits()|
      modifies this
      ensures Valid() && Pos() == old(Pos()) + 1
      ensures bit == Bits()[old(Pos())]
    {
      bitNum := bitNum + 1;
      if bitNum > 7 {
        byteNum := byteNum + 1;
        bitNum := 0;
      }
      bit := BitOf(buf[byteNum], bitNum);
      assert Pos() - 1 == 8 * byteNum + bitNum;
    }

    /** smk_bs_read_1: 0 or 1, or -1 without moving when the buffer is exhausted. */
    method ReadBit() returns (r: int)
      requires Valid()
      modifies this
      ensures Valid()
      ensures match Read1(Bits(), old(Pos()))
        case Ok(b, next) => r == (if b then 1 else 0) && Pos() == next
        case Fail(_) => r == -1 && unchanged(this)
    {
      if !(bitNum < 7 || byteNum + 1 < size) {
        return -1;
      }
      var b := Next();
      r := if b then 1 else 0;
    }

    /** smk_bs_read_8: the next eight bits, first bit lowest, or -1 without moving unless a whole byte is left. */
    method ReadByte() returns (r: int)
      requires Valid()
      modifies this
      ensures Valid()
      ensures match Read8(Bits(), old(Pos()))
        case Ok(v, next) => r == v && Pos() == next
        case Fail(_) => r == -1 && unchanged(this)
    {
      if !(byteNum + 1 < size) {
        return -1;
      }
      ghost var start := Pos();
      var ret := 0;
      var i := 0;
      while i < 8
        invariant 0 <= i <= 8
        invariant Valid() && Pos() == start + i && start + 8 <= |Bits()|
        invariant ret == ShiftIn(Bits()[start..start + i])
      {
        ret := ShiftBit(start, i, ret);
        i := i + 1;
      }
      assert Pow2(0) == 1;
      r := ret;
    }

    /** One turn of the read_8 loop: the next bit shifted in at the top of the register. */
    method ShiftBit(ghost start: nat, ghost i: nat, ret: nat) returns (ret2: nat)
      requires Valid() && i < 8 && Pos() == start + i && start + 8 <= |Bits()|
      requires ret == ShiftIn(Bits()[start..start + i])
      modifies this
      ensures Valid() && Pos() == start + i + 1
      ensures ret2 == ShiftIn(Bits()[start..start + i + 1])
    {
      var b := Next();
      ShiftInSnoc(Bits()[start..start + i], b);
      assert Bits()[start..start + i + 1] == Bits()[start..start + i] + [b];
      ret2 := ret / 2 + (if b then 128 else 0);
    }
  }

  /** read_8's guard `byte_num + 1 < size` holds exactly when eight bits remain. */
  lemma ReadByteGuard(rd: BitReader)
    requires rd.Valid()
    ensures (rd.byteNum + 1 < rd.size) <==> rd.Pos() + 8 <= |rd.Bits()|
  {
  }
}
