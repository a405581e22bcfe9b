/**
 * The container layer of smacker.c: little-endian 32-bit words, the fixed
 * part of the file header, the audio descriptors, the frame tables, the
 * block holding the four video Huffman trees, and the frame chunks, all
 * decoded from an in-memory copy of the file.
 */
module Container {
  import opened Bits
  import opened BitStream
  import opened Huff16
  import opened HuffTree

  datatype Option<T> = None | Some(value: T)

  /** smk_grab_ui (and smk_read_ui on the file's bytes): four bytes, the first one least significant. */
  function GrabUi(b: seq<byte>, at: nat): (x: u32)
    requires at + 4 <= |b|
    ensures x % 0x100 == b[at] && x / 0x100_0000 == b[at + 3]
  {
    var b0, b1, b2, b3: int := b[at], b[at + 1], b[at + 2], b[at + 3];
    var x := b0 + 0x100 * b1 + 0x1_0000 * b2 + 0x100_0000 * b3;
    DivModUnique(x, 0x100, b1 + 0x100 * b2 + 0x1_0000 * b3, b0);
    DivModUnique(x, 0x100_0000, b3, b0 + 0x100 * b1 + 0x1_0000 * b2);
    x
  }

  /** The four bytes a 32-bit word is stored as, least significant first. */
  function PutUi(x: u32): (b: seq<byte>)
    ensures |b| == 4
  {
    [x % 0x100, (x / 0x100) % 0x100, (x / 0x1_0000) % 0x100, x / 0x100_0000]
  }

  /** Reading back a stored word gives the word. */
  lemma GrabPut(x: u32)
    ensures GrabUi(PutUi(x), 0) == x
  {
    var r0, q1 := x % 0x100, x / 0x100;
    var r1, q2 := q1 % 0x100, q1 / 0x100;
    var r2, q3 := q2 % 0x100, q2 / 0x100;
    assert x == r0 + 0x100 * (r1 + 0x100 * (r2 + 0x100 * q3));
    DivModUnique(x, 0x1_0000, q2, r0 + 0x100 * r1);
    DivModUnique(x, 0x100_0000, q3, r0 + 0x100 * r1 + 0x1_0000 * r2);
  }

  /** Storing a word read from four bytes gives the four bytes. */
  lemma PutGrab(b: seq<byte>, at: nat)
    requires at + 4 <= |b|
    ensures PutUi(GrabUi(b, at)) == b[at..at + 4]
  {
    var x := GrabUi(b, at);
    var b0, b1, b2, b3: int := b[at], b[at + 1], b[at + 2], b[at + 3];
    DivModUnique(x, 0x100, b1 + 0x100 * b2 + 0x1_0000 * b3, b0);
    DivModUnique(x / 0x100, 0x100, b2 + 0x100 * b3, b1);
    DivModUnique(x, 0x1_0000, b2 + 0x100 * b3, b0 + 0x100 * b1);
    DivModUnique(x / 0x1_0000, 0x100, b3, b2);
  }

  /** Bit 0 of a frame-size word flags a keyframe. */
  predicate Keyframe(word: u32)
  {
    word % 2 == 1
  }

  /** The chunk size a frame-size word gives: the word with its two low bits cleared. */
  function ChunkSize(word: u32): (n: u32)
    ensures n % 4 == 0 && n <= word < n + 4
  {
    word - word % 4
  }

  /** A size word made of a chunk size and a keyframe flag gives both back. */
  lemma SizeWordFields(n: u32, key: bool)
    requires n % 4 == 0
    ensures var word := n + (if key then 1 else 0); ChunkSize(word) == n && (Keyframe(word) <==> key)
  {
  }

  /** One audio track's descriptor: compressed, present, bit depth, channels, sample rate. */
  datatype AudioInfo = AudioInfo(compress: bool, present: bool, bitdepth: int, channels: int, rate: int)

  predicate AudioInfoOk(a: AudioInfo)
  {
    (a.bitdepth == 8 || a.bitdepth == 16) && (a.channels == 1 || a.channels == 2) && 0 <= a.rate < 0x100_0000
  }

  /**
   * An audio descriptor word: bit 31 compressed, bit 30 present, bit 29
   * 16-bit samples, bit 28 stereo, the sample rate in the low 24 bits; a
   * set bit 26 or 27 (another codec) makes the open fail.
   */
  function DecodeAudio(word: u32): (r: Option<AudioInfo>)
    ensures r.Some? <==> !BitOf(word, 26) && !BitOf(word, 27)
    ensures r.Some? ==> AudioInfoOk(r.value) && r.value.rate == word % 0x100_0000
  {
    if BitOf(word, 26) || BitOf(word, 27) then None
    else Some(AudioInfo(BitOf(word, 31), BitOf(word, 30), if BitOf(word, 29) then 16 else 8,
                        if BitOf(word, 28) then 2 else 1, word % 0x100_0000))
  }

  /** The descriptor word of a track, with bits 24 to 27 clear. */
  function EncodeAudio(a: AudioInfo): (word: u32)
    requires AudioInfoOk(a)
  {
    (if a.compress then 0x8000_0000 else 0) + (if a.present then 0x4000_0000 else 0)
    + (if a.bitdepth == 16 then 0x2000_0000 else 0) + (if a.channels == 2 then 0x1000_0000 else 0) + a.rate
  }

  /** Decoding an encoded descriptor gives the track's description back. */
  lemma DecodeEncodedAudio(a: AudioInfo)
    requires AudioInfoOk(a)
    ensures DecodeAudio(EncodeAudio(a)) == Some(a)
  {
    var c, e, d, s := (if a.compress then 1 else 0), (if a.present then 1 else 0),
                      (if a.bitdepth == 16 then 1 else 0), (if a.channels == 2 then 1 else 0);
    var word := EncodeAudio(a);
    FlagBits(word, c, e, d, s, a.rate);
  }

  /** The bits of a word assembled from four flags, two clear bits 26 and 27, and a rate. */
  lemma FlagBits(word: nat, c: nat, e: nat, d: nat, s: nat, rate: nat)
    requires c < 2 && e < 2 && d < 2 && s < 2 && rate < 0x100_0000
    requires word == c * 0x8000_0000 + e * 0x4000_0000 + d * 0x2000_0000 + s * 0x1000_0000 + rate
    ensures (BitOf(word, 31) <==> c == 1) && (BitOf(word, 30) <==> e == 1) && (BitOf(word, 29) <==> d == 1)
    ensures (BitOf(word, 28) <==> s == 1) && !BitOf(word, 27) && !BitOf(word, 26) && word % 0x100_0000 == rate
  {
    var top := 8 * c + 4 * e + 2 * d + s;
    assert word == top * 0x1000_0000 + rate;
    assert word == (2 * top) * 0x800_0000 + rate;
    Pow2Values();
    BitAt(word, 27, 0x800_0000, top, 0, rate);
    BitAt(word, 26, 0x400_0000, 2 * top, 0, rate);
    var low28, low29, low30 := s * 0x1000_0000 + rate, d * 0x2000_0000 + s * 0x1000_0000 + rate, e * 0x4000_0000 + d * 0x2000_0000 + s * 0x1000_0000 + rate;
    var high28, high29 := 4 * c + 2 * e + d, 2 * c + e;
    assert word == high28 * 0x2000_0000 + s * 0x1000_0000 + rate;
    assert word == high29 * 0x4000_0000 + d * 0x2000_0000 + low28;
    assert word == c * 0x8000_0000 + e * 0x4000_0000 + low29;
    BitAt(word, 31, 0x8000_0000, 0, c, low30);
    BitAt(word, 30, 0x4000_0000, c, e, low29);
    BitAt(word, 29, 0x2000_0000, high29, d, low28);
    BitAt(word, 28, 0x1000_0000, high28, s, rate);
    DivModUnique(word, 0x100_0000, 16 * top, rate);
  }

  lemma Pow2Values()
    ensures Pow2(26) == 0x400_0000 && Pow2(27) == 0x800_0000 && Pow2(28) == 0x1000_0000
    ensures Pow2(29) == 0x2000_0000 && Pow2(30) == 0x4000_0000 && Pow2(31) == 0x8000_0000
  {
    Pow2Thirty();
    assert Pow2(13) == 0x2000;
    Pow2Add(13, 13);
  }

  /** Bit k of a number made of a high part, bit k, and a part below bit k. */
  lemma BitAt(x: nat, k: nat, m: nat, high: nat, b: nat, low: nat)
    requires m == Pow2(k) && b < 2 && low < m && x == high * (2 * m) + b * m + low
    ensures BitOf(x, k) <==> b == 1
  {
    var q := 2 * high + b;
    assert x == q * m + low;
    DivModUnique(x, m, q, low);
  }

  /**
   * smk_info_audio_tracks: one byte with bit t set when track t is
   * present, for the seven tracks.
   */
  function InfoAudioTracks(audio: seq<AudioInfo>): (r: byte)
    requires |audio| == 7
    ensures forall t :: 0 <= t < 7 ==> (BitOf(r, t) <==> audio[t].present)
  {
    TrackBitsAre(audio);
    TrackBits(audio)
  }

  /** The presence bits of some tracks, the first track in bit 0. */
  function TrackBits(audio: seq<AudioInfo>): (r: nat)
    ensures r < Pow2(|audio|)
  {
    if audio == [] then 0 else (if audio[0].present then 1 else 0) + 2 * TrackBits(audio[1..])
  }

  lemma {:induction false} TrackBitsAre(audio: seq<AudioInfo>)
    ensures forall t :: 0 <= t < |audio| ==> (BitOf(TrackBits(audio), t) <==> audio[t].present)
  {
    if audio != [] {
      TrackBitsAre(audio[1..]);
      var x, rest := TrackBits(audio), TrackBits(audio[1..]);
      forall t | 0 < t < |audio|
        ensures BitOf(x, t) <==> audio[t].present
      {
        assert audio[1..][t - 1] == audio[t];
        BitOfDouble(x, rest, t);
      }
    }
  }

  /** Above bit 0, the bits of b + 2 rest are the bits of rest, one place up. */
  lemma BitOfDouble(x: nat, rest: nat, t: nat)
    requires 0 < t && (x == 2 * rest || x == 2 * rest + 1)
    ensures BitOf(x, t) <==> BitOf(rest, t - 1)
  {
    var m := Pow2(t - 1);
    var b := x - 2 * rest;
    assert Pow2(t) == 2 * m;
    var q, r := rest / m, rest % m;
    assert x == q * (2 * m) + (2 * r + b);
    DivModUnique(x, 2 * m, q, 2 * r + b);
  }

  /** The fixed offsets of the header fields. */
  const SIGNATURE: seq<byte> := [0x53, 0x4D, 0x4B]
  const AUDIO_AT := 72
  const HEADER_END := 100
  const TABLE_AT := 104

  /** The fields of the header the decoder keeps. */
  datatype Header = Header(version: byte, w: u32, h: u32, frames: u32, flags: byte, treeSize: u32, audio: seq<AudioInfo>)

  /** An opened file: header, per-frame keyframe flags, chunk sizes and types, the four video trees, the chunks. */
  datatype SmkFile = SmkFile(header: Header, keyframe: seq<bool>, chunkSize: seq<u32>, frameType: seq<byte>,
                             trees: seq<Option<BigBuilt>>, chunks: seq<seq<byte>>)

  predicate TreeOk(t: Option<BigBuilt>)
  {
    t.Some? ==> BigLeaves(t.value.shape) && CacheOk(t.value.cache)
  }

  /** The shape every opened file has. */
  predicate FileOk(f: SmkFile)
  {
    && (f.header.version == 0x32 || f.header.version == 0x34)
    && |f.header.audio| == 7 && (forall t :: 0 <= t < 7 ==> AudioInfoOk(f.header.audio[t]))
    && |f.keyframe| == |f.chunkSize| == |f.frameType| == |f.chunks| == f.header.frames
    && (forall i :: 0 <= i < |f.chunks| ==> |f.chunks[i]| == f.chunkSize[i])
    && |f.trees| == 4 && (forall t :: 0 <= t < 4 ==> TreeOk(f.trees[t]))
  }

  /** "SMK" followed by version '2' or '4'. */
  predicate Signed(data: seq<byte>)
  {
    |data| >= 4 && data[..3] == SIGNATURE && (data[3] == 0x32 || data[3] == 0x34)
  }

  /** The descriptor word of audio track t. */
  function Descriptor(data: seq<byte>, t: nat): u32
    requires t < 7 && |data| >= HEADER_END
  {
    GrabUi(data, AUDIO_AT + 4 * t)
  }

  /** The frame-size word of frame i. */
  function SizeWord(data: seq<byte>, i: nat): u32
    requires TABLE_AT + 4 * i + 4 <= |data|
  {
    GrabUi(data, TABLE_AT + 4 * i)
  }

  /** fread of n bytes at offset at: the bytes, or nothing on a short read. Reading nothing always succeeds. */
  function Bytes(data: seq<byte>, at: nat, n: nat): (r: Option<seq<byte>>)
    ensures r.Some? <==> n == 0 || at + n <= |data|
    ensures r.Some? ==> |r.value| == n && forall k :: 0 <= k < n ==> r.value[k] == data[at + k]
  {
    if n == 0 then Some([]) else if at + n <= |data| then Some(data[at..at + n]) else None
  }

  /** Where chunk i starts, relative to the first: the sum of the first i sizes. */
  function Offset(sizes: seq<u32>, i: nat): nat
    requires i <= |sizes|
  {
    if i == 0 then 0 else sizes[0] + Offset(sizes[1..], i - 1)
  }

  /** Every non-empty chunk, laid out from at, ends within the file. */
  ghost predicate ChunksFit(data: seq<byte>, at: nat, sizes: seq<u32>)
  {
    forall i :: 0 <= i < |sizes| && sizes[i] > 0 ==> at + Offset(sizes, i) + sizes[i] <= |data|
  }

  /** Chunk i is as long as its size and, when not empty, holds the file's bytes from at + Offset(sizes, i) on. */
  ghost predicate ChunksAt(data: seq<byte>, at: nat, sizes: seq<u32>, chunks: seq<seq<byte>>)
  {
    && |chunks| == |sizes|
    && forall i :: 0 <= i < |sizes| ==>
         && |chunks[i]| == sizes[i]
         && (sizes[i] > 0 ==> at + Offset(sizes, i) + sizes[i] <= |data|
                              && chunks[i] == data[at + Offset(sizes, i)..at + Offset(sizes, i) + sizes[i]])
  }

  /** The frame chunks, one after another from offset at, each as long as its table entry says. */
  function ReadChunks(data: seq<byte>, at: nat, sizes: seq<u32>): (r: Option<seq<seq<byte>>>)
    ensures r.Some? ==> |r.value| == |sizes| && forall i :: 0 <= i < |sizes| ==> |r.value[i]| == sizes[i]
    decreases |sizes|
  {
    if sizes == [] then Some([])
    else
      match Bytes(data, at, sizes[0])
      case None => None
      case Some(c) =>
        match ReadChunks(data, at + sizes[0], sizes[1..])
        case None => None
        case Some(cs) => Some([c] + cs)
  }

  /** The chunks are read exactly when they all fit, and each holds the bytes at its offset. */
  lemma {:induction false} ChunksRead(data: seq<byte>, at: nat, sizes: seq<u32>)
    ensures ReadChunks(data, at, sizes).Some? <==> ChunksFit(data, at, sizes)
    ensures ReadChunks(data, at, sizes).Some? ==> ChunksAt(data, at, sizes, ReadChunks(data, at, sizes).value)
    decreases |sizes|
  {
    if sizes != [] {
      ChunksRead(data, at + sizes[0], sizes[1..]);
      FitsCons(data, at, sizes);
      var b := Bytes(data, at, sizes[0]);
      var rest := ReadChunks(data, at + sizes[0], sizes[1..]);
      if b.Some? && rest.Some? {
        if sizes[0] > 0 {
          assert b.value == data[at..at + sizes[0]];
        }
        ChunksCons(data, at, sizes, b.value, rest.value);
      }
    }
  }

  /** Chunk i + 1 starts where chunk i of the sizes after the first starts, shifted by the first size. */
  lemma OffsetTail(sizes: seq<u32>, i: nat)
    requires 0 < i <= |sizes|
    ensures Offset(sizes, i) == sizes[0] + Offset(sizes[1..], i - 1) && (i < |sizes| ==> sizes[i] == sizes[1..][i - 1])
  {
  }

  /** The chunks fit exactly when the first fits and the rest fit after it. */
  lemma FitsCons(data: seq<byte>, at: nat, sizes: seq<u32>)
    requires |sizes| > 0
    ensures ChunksFit(data, at, sizes)
            <==> (sizes[0] > 0 ==> at + sizes[0] <= |data|) && ChunksFit(data, at + sizes[0], sizes[1..])
  {
    if ChunksFit(data, at, sizes) {
      forall j | 0 <= j < |sizes| - 1 && sizes[1..][j] > 0
        ensures at + sizes[0] + Offset(sizes[1..], j) + sizes[1..][j] <= |data|
      {
        OffsetTail(sizes, j + 1);
      }
    }
    if (sizes[0] > 0 ==> at + sizes[0] <= |data|) && ChunksFit(data, at + sizes[0], sizes[1..]) {
      forall i | 0 <= i < |sizes| && sizes[i] > 0
        ensures at + Offset(sizes, i) + sizes[i] <= |data|
      {
        if i > 0 {
          OffsetTail(sizes, i);
        }
      }
    }
  }

  /** A first chunk at at, followed by chunks laid out after it, is a layout from at. */
  lemma ChunksCons(data: seq<byte>, at: nat, sizes: seq<u32>, c: seq<byte>, cs: seq<seq<byte>>)
    requires |sizes| > 0 && |c| == sizes[0]
    requires sizes[0] > 0 ==> at + sizes[0] <= |data| && c == data[at..at + sizes[0]]
    requires ChunksAt(data, at + sizes[0], sizes[1..], cs)
    ensures ChunksAt(data, at, sizes, [c] + cs)
  {
    forall i | 0 < i < |sizes|
      ensures |([c] + cs)[i]| == sizes[i]
      ensures sizes[i] > 0 ==> at + Offset(sizes, i) + sizes[i] <= |data|
                               && ([c] + cs)[i] == data[at + Offset(sizes, i)..at + Offset(sizes, i) + sizes[i]]
    {
      OffsetTail(sizes, i);
      assert ([c] + cs)[i] == cs[i - 1];
    }
  }

  /** n big trees built one after another; a failed build gives no tree and the next build goes on from where it stopped. */
  function BigTrees(bits: seq<bool>, pos: nat, n: nat): (r: seq<Option<BigBuilt>>)
    requires pos <= |bits|
    ensures |r| == n && forall t :: 0 <= t < n ==> TreeOk(r[t])
    decreases n
  {
    if n == 0 then []
    else
      match BuildBig(bits, pos)
      case Ok(b, next) => [Some(b)] + BigTrees(bits, next, n - 1)
      case Fail(at) => [None] + BigTrees(bits, at, n - 1)
  }

  /** The header fields as the file stores them. */
  ghost predicate HeaderFrom(data: seq<byte>, h: Header)
    requires |data| >= HEADER_END
  {
    && h.version == data[3] && h.w == GrabUi(data, 4) && h.h == GrabUi(data, 8)
    && h.frames == GrabUi(data, 12) && h.flags == GrabUi(data, 20) % 0x100 && h.treeSize == GrabUi(data, 52)
    && |h.audio| == 7 && forall t :: 0 <= t < 7 ==> DecodeAudio(Descriptor(data, t)) == Some(h.audio[t])
  }

  /** The frame tables: per frame, the keyframe flag, the chunk size and the type byte. */
  datatype Tables = Tables(keyframe: seq<bool>, chunkSize: seq<u32>, frameType: seq<byte>)

  /** The frame tables as the file stores them: n size words from TABLE_AT, then n type bytes. */
  ghost predicate TablesAt(data: seq<byte>, n: nat, tb: Tables)
  {
    && |tb.chunkSize| == |tb.keyframe| == |tb.frameType| == n
    && (n > 0 ==> TABLE_AT + 5 * n <= |data|)
    && (forall i :: 0 <= i < n ==> tb.chunkSize[i] == ChunkSize(SizeWord(data, i)) && (tb.keyframe[i] <==> Keyframe(SizeWord(data, i))))
    && (forall i :: 0 <= i < n ==> tb.frameType[i] == data[TABLE_AT + 4 * n + i])
  }

  ghost predicate TablesFrom(data: seq<byte>, f: SmkFile)
  {
    TablesAt(data, f.header.frames, Tables(f.keyframe, f.chunkSize, f.frameType))
  }

  /** The frame-size table (keyframe flag and chunk size per frame), then the frame-type table. */
  function ReadTables(data: seq<byte>, n: nat): (r: Option<Tables>)
    ensures r.Some? <==> n == 0 || TABLE_AT + 5 * n <= |data|
    ensures r.Some? ==> TablesAt(data, n, r.value)
  {
    if n > 0 && TABLE_AT + 5 * n > |data| then None
    else
      var words := seq(n, i requires 0 <= i < n => SizeWord(data, i));
      Some(Tables(seq(n, i requires 0 <= i < n => Keyframe(words[i])),
                  seq(n, i requires 0 <= i < n => ChunkSize(words[i])),
                  seq(n, i requires 0 <= i < n => data[TABLE_AT + 4 * n + i])))
  }

  /**
   * smk_open_file on the file's bytes, in memory mode: signature and
   * version, the header, the frame tables, the tree block and the chunks.
   * A short read or an unsupported audio codec fails.
   */
  function OpenFile(data: seq<byte>): (r: Option<SmkFile>)
    ensures r.Some? ==> && FileOk(r.value) && Signed(data) && |data| >= HEADER_END
                        && HeaderFrom(data, r.value.header) && TablesFrom(data, r.value)
    ensures !Signed(data) || |data| < HEADER_END ==> r.None?
    ensures Signed(data) && |data| >= HEADER_END && (exists t :: 0 <= t < 7 && DecodeAudio(Descriptor(data, t)).None?) ==> r.None?
  {
    if !Signed(data) || |data| < HEADER_END then None
    else
      match ReadHeader(data)
      case None => None
      case Some(header) => OpenTables(data, header)
  }

  /**
   * The header: width, height, frame count, a frame-rate word, the flags
   * word (its low byte kept), 28 skipped bytes, the tree block size, 16
   * skipped bytes and the seven audio descriptors.
   */
  function ReadHeader(data: seq<byte>): (r: Option<Header>)
    requires Signed(data) && |data| >= HEADER_END
    ensures r.Some? <==> forall t :: 0 <= t < 7 ==> DecodeAudio(Descriptor(data, t)).Some?
    ensures r.Some? ==> HeaderFrom(data, r.value) && (forall t :: 0 <= t < 7 ==> AudioInfoOk(r.value.audio[t]))
    ensures r.Some? ==> r.value.version == 0x32 || r.value.version == 0x34
  {
    match Audios(data)
    case None => None
    case Some(audio) =>
      Some(Header(data[3], GrabUi(data, 4), GrabUi(data, 8), GrabUi(data, 12), GrabUi(data, 20) % 0x100,
                  GrabUi(data, 52), audio))
  }

  /** The seven audio descriptors, each decoded, or nothing when one names another codec. */
  function Audios(data: seq<byte>): (r: Option<seq<AudioInfo>>)
    requires |data| >= HEADER_END
    ensures r.Some? <==> forall t :: 0 <= t < 7 ==> DecodeAudio(Descriptor(data, t)).Some?
    ensures r.Some? ==> |r.value| == 7 && forall t :: 0 <= t < 7 ==> DecodeAudio(Descriptor(data, t)) == Some(r.value[t])
  {
    if exists t :: 0 <= t < 7 && DecodeAudio(Descriptor(data, t)).None? then None
    else Some(seq(7, t requires 0 <= t < 7 => DecodeAudio(Descriptor(data, t)).value))
  }

  /**
   * After 4 skipped bytes: the frame-size table (keyframe flag and chunk
   * size per frame), the frame-type table, the tree block with the four
   * big trees MMAP, MCLR, FULL and TYPE, and the chunks.
   */
  function OpenTables(data: seq<byte>, header: Header): (r: Option<SmkFile>)
    requires |header.audio| == 7 && (forall t :: 0 <= t < 7 ==> AudioInfoOk(header.audio[t]))
    requires header.version == 0x32 || header.version == 0x34
    ensures r.Some? ==> FileOk(r.value) && r.value.header == header && TablesFrom(data, r.value)
    ensures r.Some? ==> var c := Contents(data, TABLE_AT + 5 * header.frames, header.treeSize, r.value.chunkSize);
                        c.Some? && c.value.0 == r.value.trees && c.value.1 == r.value.chunks
  {
    match ReadTables(data, header.frames)
    case None => None
    case Some(tb) =>
      var c := Contents(data, TABLE_AT + 5 * header.frames, header.treeSize, tb.chunkSize);
      if c.None? then None
      else Some(SmkFile(header, tb.keyframe, tb.chunkSize, tb.frameType, c.value.0, c.value.1))
  }

  /** The four big trees MMAP, MCLR, FULL and TYPE, built one after another from a tree block. */
  function TreeBlock(block: seq<byte>): (r: seq<Option<BigBuilt>>)
    ensures |r| == 4 && forall t :: 0 <= t < 4 ==> TreeOk(r[t])
  {
    BigTrees(BitView(block), 0, 4)
  }

  /**
   * What follows the frame tables at blockAt: the tree block of treeSize
   * bytes, from which the four big trees are built, then the chunks laid
   * out one after another.
   */
  function Contents(data: seq<byte>, blockAt: nat, treeSize: nat, sizes: seq<u32>): (r: Option<(seq<Option<BigBuilt>>, seq<seq<byte>>)>)
    ensures r.Some? <==> (treeSize == 0 || blockAt + treeSize <= |data|) && ReadChunks(data, blockAt + treeSize, sizes).Some?
    ensures r.Some? ==>
              && (treeSize > 0 ==> r.value.0 == TreeBlock(data[blockAt..blockAt + treeSize]))
              && (treeSize == 0 ==> r.value.0 == TreeBlock([]))
              && Some(r.value.1) == ReadChunks(data, blockAt + treeSize, sizes)
  {
    match Bytes(data, blockAt, treeSize)
    case None => None
    case Some(block) =>
      assert treeSize > 0 ==> block == data[blockAt..blockAt + treeSize];
      match ReadChunks(data, blockAt + treeSize, sizes)
      case None => None
      case Some(chunks) => Some((TreeBlock(block), chunks))
  }
}
