/**
 * The audio half of smk_render: one track's record in a frame chunk, either
 * raw PCM copied as it is or a Huffman-coded DPCM stream. A DPCM stream is
 * a presence bit, the stereo and 16-bit flags, one byte tree per byte of a
 * sample frame, the first sample frame written out in full, and then one
 * coded difference byte per output byte; each sample is the previous sample
 * of the same channel plus the difference, wrapping at 8 or 16 bits.
 */
module Audio {
  import opened Bits
  import opened BitStream
  import opened CodeTree
  import opened HuffTree
  import opened Container
  import opened Dpcm

  /** The decoded buffer of a track (NULL until the first chunk) and its byte size. */
  datatype Track = Track(buffer: Option<seq<byte>>, size: u32)

  /** What a compressed record leaves: a flag mismatch keeps the old buffer, otherwise new samples. */
  datatype Unpacked = Mismatch | Samples(data: seq<byte>)

  // ---------------------------------------------------------------------
  // The coded stream
  // ---------------------------------------------------------------------

  /** smk_bs_1 as the decoder sees it: 1 or 0, or 0xFF (the -1 of a failed read stored in an unsigned char). */
  function Flag(bits: seq<bool>, pos: nat): (r: (byte, nat))
    ensures pos <= r.1 <= pos + 1
    ensures r.0 == 0xFF <==> pos >= |bits|
  {
    match Read1(bits, pos)
    case Ok(b, next) => (if b then 1 else 0, next)
    case Fail(at) => (0xFF, at)
  }

  /** smk_bs_8 as the decoder sees it: the byte, or 0xFF when fewer than 8 bits are left. */
  function Byte(bits: seq<bool>, pos: nat): (r: (byte, nat))
    ensures pos <= r.1 <= pos + 8
  {
    match Read8(bits, pos)
    case Ok(v, next) => (v, next)
    case Fail(at) => (0xFF, at)
  }

  /**
   * n bytes read one after another, in reading order. Byte k is the eight
   * bits 8k on from pos, least significant first, or 0xFF once fewer than
   * eight are left: a failed read does not move, so every later one fails too.
   */
  function Bytes(bits: seq<bool>, pos: nat, n: nat): (r: (seq<byte>, nat))
    ensures |r.0| == n && pos <= r.1
    ensures forall k :: 0 <= k < n ==>
              r.0[k] == if pos + 8 * k + 8 <= |bits| then FromBits(bits[pos + 8 * k..pos + 8 * k + 8]) else 0xFF
    ensures pos + 8 * n <= |bits| ==> r.1 == pos + 8 * n
    decreases n
  {
    if n == 0 then ([], pos)
    else
      var (v, p1) := Byte(bits, pos);
      var (rest, p2) := Bytes(bits, p1, n - 1);
      ([v] + rest, p2)
  }

  /** The trees a stream is coded with are byte trees, or missing (a NULL tree). */
  predicate TreesOk(trees: seq<Option<Tree<int>>>)
  {
    forall i :: 0 <= i < |trees| && trees[i].Some? ==> LeavesBelow(trees[i].value, 0x100)
  }

  /** n trees built one after another; a failed build leaves a NULL tree and the reader where it stopped. */
  function Trees(bits: seq<bool>, pos: nat, n: nat): (r: (seq<Option<Tree<int>>>, nat))
    requires pos <= |bits|
    ensures |r.0| == n && TreesOk(r.0) && pos <= r.1 <= |bits|
    decreases n
  {
    if n == 0 then ([], pos)
    else
      var (t, p1) := match BuildTree(bits, pos)
                     case Ok(t, next) => (Some(t), next)
                     case Fail(at) => (None, at);
      var (rest, p2) := Trees(bits, p1, n - 1);
      ([t] + rest, p2)
  }

  /** smk_tree_lookup as the decoder sees it: the symbol, or 0xFF when the bits run out. */
  function Symbol(t: Tree<int>, bits: seq<bool>, pos: nat): (r: (byte, nat))
    requires pos <= |bits| && LeavesBelow(t, 0x100)
    ensures pos <= r.1 <= |bits|
  {
    WalkBelow(t, bits, pos, 0x100);
    match Walk(t, bits, pos)
    case Ok(v, next) => (v, next)
    case Fail(at) => (0xFF, at)
  }

  /**
   * The first m difference bytes, read one after another, the i-th with
   * tree i % |trees|: byte b of channel c of each frame uses tree c * w + b.
   * A NULL tree that is needed makes the decode fail.
   */
  function Symbols(bits: seq<bool>, pos: nat, trees: seq<Option<Tree<int>>>, m: nat): (r: Option<(seq<byte>, nat)>)
    requires pos <= |bits| && |trees| > 0 && TreesOk(trees)
    ensures r.Some? ==> |r.value.0| == m && r.value.1 <= |bits|
    decreases m
  {
    if m == 0 then Some(([], pos))
    else
      match Symbols(bits, pos, trees, m - 1)
      case None => None
      case Some((s, q)) =>
        match trees[(m - 1) % |trees|]
        case None => None
        case Some(t) =>
          var (v, q2) := Symbol(t, bits, q);
          Some((s + [v], q2))
  }

  /** Once a needed tree is missing, every longer decode fails too. */
  lemma {:induction false} SymbolsFailLater(bits: seq<bool>, pos: nat, trees: seq<Option<Tree<int>>>, m: nat, n: nat)
    requires pos <= |bits| && |trees| > 0 && TreesOk(trees) && m <= n
    requires Symbols(bits, pos, trees, m).None?
    ensures Symbols(bits, pos, trees, n).None?
    decreases n - m
  {
    if m < n {
      SymbolsFailLater(bits, pos, trees, m, n - 1);
    }
  }

  /**
   * The samples of a DPCM stream after its flags: c * w trees, the first
   * frame (read channel c - 1 first, each sample high byte first, so the
   * frame is the bytes read in reverse order), then the differences for the
   * rest of the buffer. A buffer that is not a whole number of frames, or
   * smaller than one, is overrun by the decoder's writes, and fails.
   */
  function Unpack(bits: seq<bool>, pos: nat, c: nat, w: nat, bsize: nat): (r: Option<seq<byte>>)
    requires pos <= |bits| && (c == 1 || c == 2) && (w == 1 || w == 2)
    ensures r.Some? ==> |r.value| == bsize
  {
    var stride := c * w;
    if bsize < stride || bsize % stride != 0 then None
    else
      var (trees, p1) := Trees(bits, pos, stride);
      var (first, p2) := Bytes(bits, p1, stride);
      Integrated(bits, Min(p2, |bits|), trees, Reverse(first), w, bsize)
  }

  /** The buffer a stream of differences read from pos rebuilds from the first frame. */
  function Integrated(bits: seq<bool>, pos: nat, trees: seq<Option<Tree<int>>>, init: seq<byte>, w: nat, bsize: nat): (r: Option<seq<byte>>)
    requires pos <= |bits| && (w == 1 || w == 2) && |trees| > 0 && TreesOk(trees)
    requires 0 < |init| <= bsize
    ensures r.Some? ==> |r.value| == bsize && r.value[..|init|] == init
  {
    match Symbols(bits, pos, trees, bsize - |init|)
    case None => None
    case Some((d, _)) =>
      IntegrateInit(init, d, w);
      Some(Integrate(init, d, w))
  }

  function Min(a: nat, b: nat): nat
  {
    if a < b then a else b
  }

  function Reverse(s: seq<byte>): (r: seq<byte>)
    ensures |r| == |s| && forall i :: 0 <= i < |s| ==> r[i] == s[|s| - 1 - i]
  {
    seq(|s|, i requires 0 <= i < |s| => s[|s| - 1 - i])
  }

  function Zeros(n: nat): (z: seq<byte>)
    ensures |z| == n && forall i :: 0 <= i < n ==> z[i] == 0
  {
    seq(n, _ => 0)
  }

  /**
   * A compressed record's bit stream: a clear presence bit leaves a buffer
   * of bsize unwritten bytes; otherwise the stereo and 16-bit flags must
   * match the track's descriptor (the stereo flag is checked before the
   * 16-bit flag is read), and the samples follow.
   */
  function Decompress(bits: seq<bool>, info: AudioInfo, bsize: nat): (r: Option<Unpacked>)
    requires AudioInfoOk(info)
    ensures r.Some? && r.value.Samples? ==> |r.value.data| == bsize
  {
    var (present, p1) := Flag(bits, 0);
    if present == 0 then Some(Samples(Zeros(bsize)))
    else
      var (stereo, p2) := Flag(bits, p1);
      if info.channels != (if stereo == 1 then 2 else 1) then Some(Mismatch)
      else
        var (wide, p3) := Flag(bits, p2);
        if info.bitdepth != (if wide == 1 then 16 else 8) then Some(Mismatch)
        else
          match Unpack(bits, Min(p3, |bits|), info.channels, info.bitdepth / 8, bsize)
          case None => None
          case Some(d) => Some(Samples(d))
  }

  /**
   * smk_render_audio: the record at chunk[p..] starts with its byte size.
   * A disabled track skips it. An enabled track takes the rest as raw PCM,
   * or, when compressed, as the unpacked size followed by the coded stream.
   * Every outcome continues right after the record; a record that does
   * not fit in the chunk, or is too short for its own size fields, fails.
   */
  function RenderAudioSpec(chunk: seq<byte>, p: nat, info: AudioInfo, enabled: bool, track: Track): (r: Option<(Track, nat)>)
    requires AudioInfoOk(info)
    ensures r.Some? ==> p + 4 <= |chunk| && r.value.1 == p + GrabUi(chunk, p) <= |chunk|
    ensures r.Some? && !enabled ==> r.value.0 == track
    ensures r.Some? && enabled && !info.compress ==>
              GrabUi(chunk, p) >= 4 && r.value.0 == Track(Some(chunk[p + 4..r.value.1]), GrabUi(chunk, p) - 4)
    ensures r.Some? && enabled && info.compress ==>
              GrabUi(chunk, p) >= 8 && r.value.0.size == GrabUi(chunk, p + 4) &&
              (r.value.0.buffer == track.buffer || (r.value.0.buffer.Some? && |r.value.0.buffer.value| == r.value.0.size))
    ensures p + 4 <= |chunk| && p + GrabUi(chunk, p) <= |chunk| && !enabled ==> r.Some?
  {
    if p + 4 > |chunk| then None
    else
      var size := GrabUi(chunk, p);
      if p + size > |chunk| then None
      else if !enabled then Some((track, p + size))
      else if size < 4 then None
      else if !info.compress then Some((Track(Some(chunk[p + 4..p + size]), size - 4), p + size))
      else if size < 8 then None
      else
        match Compressed(chunk[p + 8..p + size], GrabUi(chunk, p + 4), info, track)
        case None => None
        case Some(t) => Some((t, p + size))
  }

  /** A compressed record after its two size words: the unpacked size, then the coded stream. */
  function Compressed(coded: seq<byte>, bsize: u32, info: AudioInfo, track: Track): (r: Option<Track>)
    requires AudioInfoOk(info)
    ensures r.Some? ==> r.value.size == bsize
    ensures r.Some? ==> r.value.buffer == track.buffer || (r.value.buffer.Some? && |r.value.buffer.value| == bsize)
  {
    match Decompress(BitView(coded), info, bsize)
    case None => None
    case Some(Mismatch) => Some(Track(track.buffer, bsize))
    case Some(Samples(d)) => Some(Track(Some(d), bsize))
  }

  // ---------------------------------------------------------------------
  // The decoder
  // ---------------------------------------------------------------------

  /** smk_render_audio's steps for one track record, with the difference loop run on a buffer. */
  method RenderAudio(chunk: seq<byte>, p: nat, info: AudioInfo, enabled: bool, track: Track) returns (r: Option<(Track, nat)>)
    requires AudioInfoOk(info)
    ensures r == RenderAudioSpec(chunk, p, info, enabled, track)
  {
    if p + 4 > |chunk| {
      return None;
    }
    var size := GrabUi(chunk, p);
    if p + size > |chunk| {
      return None;
    }
    if !enabled {
      return Some((track, p + size));
    }
    if size < 4 {
      return None;
    }
    if !info.compress {
      return Some((Track(Some(chunk[p + 4..p + size]), size - 4), p + size));
    }
    if size < 8 {
      return None;
    }
    var t := RenderCompressed(chunk[p + 8..p + size], GrabUi(chunk, p + 4), info, track);
    if t.None? {
      return None;
    }
    r := Some((t.value, p + size));
  }

  /** The unpacked size and the coded stream of a compressed record, decoded into a track. */
  method RenderCompressed(coded: seq<byte>, bsize: u32, info: AudioInfo, track: Track) returns (r: Option<Track>)
    requires AudioInfoOk(info)
    ensures r == Compressed(coded, bsize, info, track)
  {
    var u := DecompressStream(BitView(coded), info, bsize);
    r := match u
         case None => None
         case Some(Mismatch) => Some(Track(track.buffer, bsize))
         case Some(Samples(d)) => Some(Track(Some(d), bsize));
  }

  /** The flags, trees and first frame of a compressed record, then the difference loop. */
  method DecompressStream(bits: seq<bool>, info: AudioInfo, bsize: nat) returns (r: Option<Unpacked>)
    requires AudioInfoOk(info)
    ensures r == Decompress(bits, info, bsize)
  {
    var (present, p1) := Flag(bits, 0);
    if present == 0 {
      return Some(Samples(Zeros(bsize)));
    }
    var (stereo, p2) := Flag(bits, p1);
    if info.channels != (if stereo == 1 then 2 else 1) {
      return Some(Mismatch);
    }
    var (wide, p3) := Flag(bits, p2);
    if info.bitdepth != (if wide == 1 then 16 else 8) {
      return Some(Mismatch);
    }
    var u := UnpackStream(bits, Min(p3, |bits|), info.channels, info.bitdepth / 8, bsize);
    r := match u
         case None => None
         case Some(s) => Some(Samples(s));
  }

  /** The trees and the first frame, read in the order the decoder reads them, then the difference loop. */
  method UnpackStream(bits: seq<bool>, pos: nat, c: nat, w: nat, bsize: nat) returns (r: Option<seq<byte>>)
    requires pos <= |bits| && (c == 1 || c == 2) && (w == 1 || w == 2)
    ensures r == Unpack(bits, pos, c, w, bsize)
  {
    var stride := c * w;
    if bsize < stride || bsize % stride != 0 {
      return None;
    }
    var tr := Trees(bits, pos, stride);
    var trees, q1 := tr.0, tr.1;
    var fr := Bytes(bits, q1, stride);
    var first, q2 := fr.0, fr.1;
    WholeFrames(bsize, stride);
    r := Differentiate(bits, Min(q2, |bits|), trees, Reverse(first), w, bsize);
  }

  /** n bytes are a whole number of frames of s bytes, counted down so that no multiplication is involved. */
  predicate Frames(n: nat, s: nat)
    requires s > 0
    decreases n
  {
    n == 0 || (n >= s && Frames(n - s, s))
  }

  /** A buffer of at least one frame whose size is a multiple of the frame size is the first frame and whole frames. */
  lemma {:induction false} WholeFrames(n: nat, s: nat)
    requires s > 0 && n >= s && n % s == 0
    ensures Frames(n - s, s)
    decreases n
  {
    if n - s > 0 {
      DivModUnique(n - s, s, n / s - 1, 0);
      WholeFrames(n - s, s);
    }
  }

  /**
   * The difference loop: frame after frame until the buffer is full, each
   * channel's sample is its coded difference (low byte first) plus the
   * channel's previous sample.
   */
  method Differentiate(bits: seq<bool>, pos: nat, trees: seq<Option<Tree<int>>>, init: seq<byte>, w: nat, bsize: nat)
      returns (r: Option<seq<byte>>)
    requires pos <= |bits| && (w == 1 || w == 2) && |trees| > 0 && TreesOk(trees)
    requires (|init| == w || |init| == 2 * w) && |init| <= bsize && Frames(bsize - |init|, |init|)
    ensures r == Integrated(bits, pos, trees, init, w, bsize)
  {
    var t := NewBuffer(init, bsize);
    var ok, n, d, q := DecodeFrames(bits, pos, trees, init, w, t, bsize - |init|);
    if !ok {
      return None;
    }
    assert t[..] == t[..|init| + n];
    IntegratedSome(bits, pos, trees, init, w, bsize, d, q);
    return Some(t[..]);
  }

  /**
   * The frames after the first, one after another until the buffer is full
   * (total difference bytes) or a needed tree is missing.
   */
  method DecodeFrames(bits: seq<bool>, pos: nat, trees: seq<Option<Tree<int>>>, init: seq<byte>, w: nat, t: array<byte>,
                      ghost total: nat)
      returns (ok: bool, n: nat, ghost d: seq<byte>, q: nat)
    requires pos <= |bits| && (w == 1 || w == 2) && |trees| > 0 && TreesOk(trees)
    requires (|init| == w || |init| == 2 * w) && |init| + total == t.Length && Frames(total, |init|)
    requires t[..|init|] == init
    modifies t
    ensures ok ==> n == total && Symbols(bits, pos, trees, n) == Some((d, q)) && t[..|init| + n] == Integrate(init, d, w)
    ensures !ok ==> Symbols(bits, pos, trees, total).None?
  {
    n, q := 0, pos;
    ghost var rest: nat := total;
    d := [];
    while n < t.Length - |init|
      invariant n + rest == total && Frames(rest, |init|)
      invariant !High(w, n)
      invariant q <= |bits|
      invariant Symbols(bits, pos, trees, n) == Some((d, q))
      invariant t[..|init| + n] == Integrate(init, d, w)
      decreases rest
    {
      ok, n, q, d := DecodeFrame(bits, pos, trees, init, w, t, n, q, d, total);
      if !ok {
        return;
      }
      rest := rest - |init|;
    }
    return true, n, d, q;
  }

  /** A stream whose differences all decode integrates them. */
  lemma IntegratedSome(bits: seq<bool>, pos: nat, trees: seq<Option<Tree<int>>>, init: seq<byte>, w: nat, bsize: nat,
                       d: seq<byte>, q: nat)
    requires pos <= |bits| && (w == 1 || w == 2) && |trees| > 0 && TreesOk(trees) && 0 < |init| <= bsize
    requires Symbols(bits, pos, trees, bsize - |init|) == Some((d, q))
    ensures Integrated(bits, pos, trees, init, w, bsize) == Some(Integrate(init, d, w))
  {
  }

  /** The output buffer with the first frame written at its start (the rest is zeroed here; the decoder overwrites all of it). */
  method NewBuffer(init: seq<byte>, bsize: nat) returns (t: array<byte>)
    requires |init| <= bsize
    ensures fresh(t) && t.Length == bsize && t[..|init|] == init
  {
    t := new byte[bsize];
    forall x | 0 <= x < |init| {
      t[x] := init[x];
    }
  }

  /** One frame after the first, n difference bytes in: a sample for each channel, channel 0 first. */
  method DecodeFrame(bits: seq<bool>, ghost pos: nat, trees: seq<Option<Tree<int>>>, init: seq<byte>, w: nat,
                     t: array<byte>, n: nat, q: nat, ghost d: seq<byte>, ghost total: nat)
      returns (ok: bool, n2: nat, q2: nat, ghost d2: seq<byte>)
    requires pos <= |bits| && q <= |bits| && (w == 1 || w == 2) && |trees| > 0 && TreesOk(trees)
    requires (|init| == w || |init| == 2 * w) && |init| + n + |init| <= t.Length && n + |init| <= total && !High(w, n)
    requires Symbols(bits, pos, trees, n) == Some((d, q)) && t[..|init| + n] == Integrate(init, d, w)
    modifies t
    ensures n2 == n + |init| && !High(w, n2)
    ensures ok ==> q2 <= |bits| && Symbols(bits, pos, trees, n2) == Some((d2, q2)) && t[..|init| + n2] == Integrate(init, d2, w)
    ensures !ok ==> Symbols(bits, pos, trees, total).None?
  {
    LowAfter(w, 0, |init|);
    LowAfter(w, n, |init|);
    n2 := n + |init|;
    ok, q2, d2 := DecodeSample(bits, pos, trees, init, w, t, n, q, d);
    var n1 := n + w;
    if !ok {
      SymbolsFailLater(bits, pos, trees, n1, total);
      return;
    }
    if |init| == w {
      assert n1 == n2;
      return;
    }
    LowAfter(w, n, w);
    ok, q2, d2 := DecodeSample(bits, pos, trees, init, w, t, n1, q2, d2);
    assert n1 + w == n2;
    if !ok {
      SymbolsFailLater(bits, pos, trees, n2, total);
    }
  }

  /** One sample: its w difference bytes, low byte first, added to the sample one frame earlier. */
  method DecodeSample(bits: seq<bool>, ghost pos: nat, trees: seq<Option<Tree<int>>>, init: seq<byte>, w: nat,
                      t: array<byte>, n: nat, q: nat, ghost d: seq<byte>)
      returns (ok: bool, q2: nat, ghost d2: seq<byte>)
    requires pos <= |bits| && (w == 1 || w == 2) && |trees| > 0 && TreesOk(trees)
    requires 0 < |init| && !High(w, |init|) && !High(w, n) && |init| + n + w <= t.Length
    requires Symbols(bits, pos, trees, n) == Some((d, q)) && t[..|init| + n] == Integrate(init, d, w)
    modifies t
    ensures ok ==> Symbols(bits, pos, trees, n + w) == Some((d2, q2)) && t[..|init| + (n + w)] == Integrate(init, d2, w)
    ensures !ok ==> Symbols(bits, pos, trees, n + w).None?
  {
    var m, x := n, |init| + n;
    var lo := trees[m % |trees|];
    if lo.None? {
      SymbolsMissing(bits, pos, trees, m);
      if w == 2 {
        SymbolsFailLater(bits, pos, trees, m + 1, m + 2);
      }
      return false, q, d;
    }
    var sa := Symbol(lo.value, bits, q);
    var a, qa := sa.0, sa.1;
    SymbolsNext(bits, pos, trees, m, d, q);
    if w == 1 {
      Store8(t, init, d, x, a);
      return true, qa, d + [a];
    }
    var hi := trees[(m + 1) % |trees|];
    if hi.None? {
      SymbolsMissing(bits, pos, trees, m + 1);
      return false, q, d;
    }
    var sb := Symbol(hi.value, bits, qa);
    var b, qb := sb.0, sb.1;
    SymbolsNext(bits, pos, trees, m + 1, d + [a], qa);
    Store16(t, init, d, x, a, b);
    return true, qb, d + [a] + [b];
  }

  /** An 8-bit sample: the difference plus the sample one frame earlier, in 8 bits. */
  method Store8(t: array<byte>, init: seq<byte>, ghost d: seq<byte>, x: nat, a: byte)
    requires 0 < |init| <= x < t.Length && t[..x] == Integrate(init, d, 1)
    modifies t
    ensures t[..x + 1] == Integrate(init, d + [a], 1) && t[x + 1..] == old(t[x + 1..])
  {
    ghost var o := t[..x];
    var m := x - |init|;
    t[x] := (a as int + t[m] as int) % 0x100;
    IntegrateSnoc(init, d, 1, a);
    assert t[..x + 1] == o + [t[x]];
  }

  /**
   * A 16-bit sample: the difference (low byte first) plus the sample one
   * frame earlier, in 16 bits, stored little-endian.
   */
  method Store16(t: array<byte>, init: seq<byte>, ghost d: seq<byte>, x: nat, a: byte, b: byte)
    requires 0 < |init| <= x && x + 2 <= t.Length && !High(2, |init|) && !High(2, x - |init|)
    requires t[..x] == Integrate(init, d, 2)
    modifies t
    ensures t[..x + 2] == Integrate(init, d + [a] + [b], 2) && t[x + 2..] == old(t[x + 2..])
  {
    ghost var o := t[..x];
    var m := x - |init|;
    var delta := Le16(a, b);
    var earlier := Le16(t[m], t[m + 1]);
    var v := (delta + earlier) % 0x1_0000;
    ghost var lowByte, highByte := AddByte(a, t[m], 0), AddByte(b, t[m + 1], Carry(a, t[m]));
    AddBytes(a, b, t[m], t[m + 1], lowByte, highByte);
    DivModUnique(v, 0x100, highByte, lowByte);
    t[x] := v % 0x100;
    t[x + 1] := v / 0x100;
    EvenAtLeastTwo(|init|);
    IntegratePair(init, d, a, b);
    assert t[..x + 2] == o + [lowByte, highByte];
  }

  /** Decoding one more difference byte with the tree it needs. */
  lemma SymbolsNext(bits: seq<bool>, pos: nat, trees: seq<Option<Tree<int>>>, m: nat, d: seq<byte>, q: nat)
    requires pos <= |bits| && |trees| > 0 && TreesOk(trees)
    requires Symbols(bits, pos, trees, m) == Some((d, q)) && trees[m % |trees|].Some?
    ensures var s := Symbol(trees[m % |trees|].value, bits, q);
            Symbols(bits, pos, trees, m + 1) == Some((d + [s.0], s.1))
  {
  }

  /** A needed tree that is missing stops the decode. */
  lemma SymbolsMissing(bits: seq<bool>, pos: nat, trees: seq<Option<Tree<int>>>, m: nat)
    requires pos <= |bits| && |trees| > 0 && TreesOk(trees) && trees[m % |trees|].None?
    ensures Symbols(bits, pos, trees, m + 1).None?
  {
  }
}

