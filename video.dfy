/**
 * The video record of a frame (smk_render_video): a bit stream of
 * block-type words, each giving a block type and a run of 4x4 blocks
 * painted one after another in raster order, the blocks' contents coded
 * with the MMAP, MCLR and FULL trees.
 */
module Video {
  import opened Bits
  import opened BitStream
  import opened CodeTree
  import opened Huff16
  import opened HuffTree
  import opened Container

  // ---------------------------------------------------------------------
  // Block-type words
  // ---------------------------------------------------------------------

  /** The four big trees, in the order the file stores them. */
  const MMAP := 0
  const MCLR := 1
  const FULL := 2
  const TYPE := 3

  /** The block types; DOUBLE and HALF exist in version 4 files only. */
  const MONO_BLOCK := 0
  const FULL_BLOCK := 1
  const VOID_BLOCK := 2
  const SOLID_BLOCK := 3
  const DOUBLE_BLOCK := 4
  const HALF_BLOCK := 5

  /** The fields of a block-type word: the type, the run-length index and the payload byte. */
  datatype TypeWord = TypeWord(kind: nat, len: nat, data: byte)

  predicate TypeWordOk(t: TypeWord)
  {
    t.kind < 4 && t.len < 64
  }

  /**
   * A block-type word split into its fields: type in bits 0-1, run-length
   * index in bits 2-7, payload in the high byte. The fields together give
   * the word back.
   */
  function SplitType(unpack: u16): (t: TypeWord)
    ensures TypeWordOk(t)
    ensures unpack == t.kind + 4 * t.len + 0x100 * t.data
  {
    var low := unpack % 0x100;
    DivModUnique(unpack, 4, 64 * (unpack / 0x100) + low / 4, low % 4);
    TypeWord(unpack % 4, low / 4, unpack / 0x100)
  }

  /** The word with the given fields. */
  function JoinType(t: TypeWord): (unpack: u16)
    requires TypeWordOk(t)
  {
    t.kind + 4 * t.len + 0x100 * t.data
  }

  /** Every combination of fields is the split of exactly one word. */
  lemma SplitJoin(t: TypeWord)
    requires TypeWordOk(t)
    ensures SplitType(JoinType(t)) == t
  {
    var u := JoinType(t);
    DivModUnique(u, 0x100, t.data, t.kind + 4 * t.len);
    DivModUnique(u, 4, t.len + 64 * t.data, t.kind);
    DivModUnique(u % 0x100, 4, t.len, t.kind);
  }

  /** The run lengths the run-length index selects. */
  const SIZETABLE: seq<nat> :=
    [1, 2, 3, 4, 5, 6, 7, 8] +
    [9, 10, 11, 12, 13, 14, 15, 16] +
    [17, 18, 19, 20, 21, 22, 23, 24] +
    [25, 26, 27, 28, 29, 30, 31, 32] +
    [33, 34, 35, 36, 37, 38, 39, 40] +
    [41, 42, 43, 44, 45, 46, 47, 48] +
    [49, 50, 51, 52, 53, 54, 55, 56] +
    [57, 58, 59, 128, 256, 512, 1024, 2048]

  /** The run length as arithmetic: one more than the index up to 58, then the powers of two from 128 to 2048. */
  function RunLength(len: nat): (n: nat)
    requires len < 64
    ensures 1 <= n <= 2048
  {
    if len < 59 then len + 1
    else if len == 59 then 128
    else if len == 60 then 256
    else if len == 61 then 512
    else if len == 62 then 1024
    else 2048
  }

  /** The table is the arithmetic, entry by entry; so every run has at least one block. */
  lemma SizeTableRuns()
    ensures |SIZETABLE| == 64
    ensures forall i :: 0 <= i < 64 ==> SIZETABLE[i] == RunLength(i)
  {
    RunsFrom16();
    assert RunsFrom(SIZETABLE, 8);
    assert RunsFrom(SIZETABLE, 0);
    RunsAbove(SIZETABLE, 0);
  }

  lemma RunsFrom16()
    ensures |SIZETABLE| == 64 && RunsFrom(SIZETABLE, 16)
  {
    RunsFrom32();
    assert RunsFrom(SIZETABLE, 24);
    assert RunsFrom(SIZETABLE, 16);
  }

  lemma RunsFrom32()
    ensures |SIZETABLE| == 64 && RunsFrom(SIZETABLE, 32)
  {
    RunsFrom48();
    assert RunsFrom(SIZETABLE, 40);
    assert RunsFrom(SIZETABLE, 32);
  }

  lemma RunsFrom48()
    ensures |SIZETABLE| == 64 && RunsFrom(SIZETABLE, 48)
  {
    assert RunsFrom(SIZETABLE, 56);
    assert RunsFrom(SIZETABLE, 48);
  }

  /** Entries n onwards of a 64-entry table are the run lengths. */
  predicate RunsFrom(s: seq<nat>, n: nat)
    requires |s| == 64
    decreases 64 - n
  {
    n >= 64 || (s[n] == RunLength(n) && RunsFrom(s, n + 1))
  }

  lemma {:induction false} RunsAbove(s: seq<nat>, n: nat)
    requires |s| == 64 && RunsFrom(s, n)
    ensures forall x :: n <= x < 64 ==> s[x] == RunLength(x)
    decreases 64 - n
  {
    if n < 64 {
      RunsAbove(s, n + 1);
    }
  }

  /** smk_bs_1 as an `if` condition: a set bit, or a failed read, whose -1 counts as true. */
  function Test1(bits: seq<bool>, pos: nat): (r: (bool, nat))
    ensures pos <= r.1 <= pos + 1 && (pos <= |bits| ==> r.1 <= |bits|)
  {
    match Read1(bits, pos)
    case Ok(b, next) => (b, next)
    case Fail(at) => (true, at)
  }

  /**
   * The block type of a word: in version 4 files a FULL word is followed by
   * a bit that makes it DOUBLE, or else one that makes it HALF.
   */
  function BlockType(word: TypeWord, v4: bool, bits: seq<bool>, pos: nat): (r: (nat, nat))
    requires TypeWordOk(word)
    ensures r.0 < 6 && pos <= r.1 <= pos + 2 && (pos <= |bits| ==> r.1 <= |bits|)
  {
    if word.kind == FULL_BLOCK && v4 then
      var (double, p1) := Test1(bits, pos);
      if double then (DOUBLE_BLOCK, p1)
      else
        var (half, p2) := Test1(bits, p1);
        if half then (HALF_BLOCK, p2) else (FULL_BLOCK, p2)
    else (word.kind, pos)
  }

  /**
   * Version 4 FULL words: DOUBLE when the next bit is set (or missing),
   * else HALF when the one after is set (or missing), else FULL. Every
   * other word keeps its type and reads nothing.
   */
  lemma BlockTypes(word: TypeWord, v4: bool, bits: seq<bool>, pos: nat)
    requires TypeWordOk(word)
    ensures var (kind, next) := BlockType(word, v4, bits, pos);
            && (!(word.kind == FULL_BLOCK && v4) ==> kind == word.kind < 4 && next == pos)
            && (word.kind == FULL_BLOCK && v4 ==>
                  && (kind == DOUBLE_BLOCK <==> pos >= |bits| || bits[pos])
                  && (kind == HALF_BLOCK <==> pos < |bits| && !bits[pos] && (pos + 1 >= |bits| || bits[pos + 1]))
                  && (kind == FULL_BLOCK <==> pos + 1 < |bits| && !bits[pos] && !bits[pos + 1]))
  {
  }

  // ---------------------------------------------------------------------
  // The trees
  // ---------------------------------------------------------------------

  /** The four trees and their caches, well formed. */
  predicate Coders(trees: seq<Tree<BigLeaf>>, caches: seq<seq<int>>)
  {
    && |trees| == 4 && |caches| == 4
    && forall i :: 0 <= i < 4 ==> BigLeaves(trees[i]) && CacheOk(caches[i])
  }

  /** The caches smk_bigtree_reset leaves: all zero. */
  function Reset(): (caches: seq<seq<int>>)
    ensures |caches| == 4 && forall i :: 0 <= i < 4 ==> caches[i] == [0, 0, 0]
  {
    [[0, 0, 0], [0, 0, 0], [0, 0, 0], [0, 0, 0]]
  }

  /**
   * smk_bigtree_lookup on tree i as the decoder stores it in an unsigned
   * short: the value, or 0xFFFF (the -1 of a failed lookup). Only tree i's
   * cache changes.
   */
  function Lookup(trees: seq<Tree<BigLeaf>>, caches: seq<seq<int>>, i: nat, bits: seq<bool>, pos: nat)
    : (r: (u16, seq<seq<int>>, nat))
    requires Coders(trees, caches) && i < 4 && pos <= |bits|
    ensures Coders(trees, r.1) && pos <= r.2 <= |bits|
    ensures forall k :: 0 <= k < 4 && k != i ==> r.1[k] == caches[k]
  {
    match BigLookup(trees[i], caches[i], bits, pos)
    case Ok(Looked(v, c), next) => (v, caches[i := c], next)
    case Fail(at) => (0xFFFF, caches, at)
  }

  /** n lookups on tree i, one after another. */
  function Lookups(trees: seq<Tree<BigLeaf>>, caches: seq<seq<int>>, i: nat, n: nat, bits: seq<bool>, pos: nat)
    : (r: (seq<u16>, seq<seq<int>>, nat))
    requires Coders(trees, caches) && i < 4 && pos <= |bits|
    ensures |r.0| == n && Coders(trees, r.1) && pos <= r.2 <= |bits|
    decreases n
  {
    if n == 0 then ([], caches, pos)
    else
      var (u, c1, p1) := Lookup(trees, caches, i, bits, pos);
      var (us, c2, p2) := Lookups(trees, c1, i, n - 1, bits, p1);
      ([u] + us, c2, p2)
  }

  // ---------------------------------------------------------------------
  // Cells: the 16 pixels of a block, row by row
  // ---------------------------------------------------------------------

  function Lo(u: u16): byte
  {
    u % 0x100
  }

  function Hi(u: u16): byte
  {
    u / 0x100
  }

  /** MONO: pixel k takes the high byte of the colour pair where bit k of the mask is set, the low byte elsewhere. */
  function MonoCell(colors: u16, mask: u16): (cell: seq<byte>)
    ensures |cell| == 16
  {
    seq(16, k requires 0 <= k < 16 => if BitOf(mask, k) then Hi(colors) else Lo(colors))
  }

  /** A row from two words a then b: b's low and high byte, then a's low and high byte. */
  function PairRow(a: u16, b: u16): (row: seq<byte>)
    ensures |row| == 4
  {
    [Lo(b), Hi(b), Lo(a), Hi(a)]
  }

  /** FULL: each row from its own two words. */
  function FullCell(u: seq<u16>): (cell: seq<byte>)
    requires |u| == 8
    ensures |cell| == 16
  {
    PairRow(u[0], u[1]) + PairRow(u[2], u[3]) + PairRow(u[4], u[5]) + PairRow(u[6], u[7])
  }

  /** DOUBLE: each pair of rows from one word, its low byte on the left half, its high byte on the right. */
  function DoubleCell(u: seq<u16>): (cell: seq<byte>)
    requires |u| == 2
    ensures |cell| == 16
  {
    var top := [Lo(u[0]), Lo(u[0]), Hi(u[0]), Hi(u[0])];
    var bottom := [Lo(u[1]), Lo(u[1]), Hi(u[1]), Hi(u[1])];
    top + top + bottom + bottom
  }

  /** HALF: each pair of rows from two words, the same row twice. */
  function HalfCell(u: seq<u16>): (cell: seq<byte>)
    requires |u| == 4
    ensures |cell| == 16
  {
    var top := PairRow(u[0], u[1]);
    var bottom := PairRow(u[2], u[3]);
    top + top + bottom + bottom
  }

  /** SOLID: one colour. */
  function SolidCell(v: byte): (cell: seq<byte>)
    ensures |cell| == 16
  {
    seq(16, k => v)
  }

  // ---------------------------------------------------------------------
  // Frames: w x h bytes, row by row; blocks are painted a row at a time
  // ---------------------------------------------------------------------

  /** A 4x4 block at (row, col) lies inside a w x h frame. */
  predicate Fits(w: nat, h: nat, row: nat, col: nat)
  {
    col + 4 <= w && row + 4 <= h
  }

  lemma MulLe(a: nat, b: nat, w: nat)
    requires a <= b
    ensures a * w <= b * w
  {
  }

  /** Row r of a block that fits lies inside the frame. */
  lemma RowInFrame(w: nat, h: nat, row: nat, col: nat, r: nat)
    requires Fits(w, h, row, col) && r < 4
    ensures (row + r) * w + col + 4 <= w * h
  {
    MulLe(row + r + 1, h, w);
  }

  /** The frame with four bytes replaced from at. */
  function SetRow(f: seq<byte>, at: nat, four: seq<byte>): (g: seq<byte>)
    requires |four| == 4 && at + 4 <= |f|
    ensures |g| == |f|
  {
    f[..at] + four + f[at + 4..]
  }

  /** Pixel i after SetRow: from the four bytes inside them, unchanged outside. */
  lemma SetRowAt(f: seq<byte>, at: nat, four: seq<byte>, i: nat)
    requires |four| == 4 && at + 4 <= |f| && i < |f|
    ensures SetRow(f, at, four)[i] == if at <= i < at + 4 then four[i - at] else f[i]
  {
  }

  /** The first n rows of a cell painted at (row, col). */
  function PaintRows(f: seq<byte>, w: nat, h: nat, row: nat, col: nat, cell: seq<byte>, n: nat): (g: seq<byte>)
    requires |f| == w * h && Fits(w, h, row, col) && |cell| == 16 && n <= 4
    ensures |g| == |f|
  {
    if n == 0 then f
    else
      RowInFrame(w, h, row, col, n - 1);
      SetRow(PaintRows(f, w, h, row, col, cell, n - 1), (row + n - 1) * w + col, cell[4 * (n - 1)..4 * n])
  }

  /** Painting one more row of a block sets the four pixels of that row. */
  lemma PaintRowsNext(f: seq<byte>, w: nat, h: nat, row: nat, col: nat, cell: seq<byte>, r: nat, at: nat)
    requires |f| == w * h && Fits(w, h, row, col) && |cell| == 16 && r < 4 && at == (row + r) * w + col
    ensures at + 4 <= |f|
    ensures PaintRows(f, w, h, row, col, cell, r + 1) == SetRow(PaintRows(f, w, h, row, col, cell, r), at, cell[4 * r..4 * r + 4])
  {
    RowInFrame(w, h, row, col, r);
  }

  /** A cell painted at (row, col). */
  function PaintCell(f: seq<byte>, w: nat, h: nat, row: nat, col: nat, cell: seq<byte>): (g: seq<byte>)
    requires |f| == w * h && Fits(w, h, row, col) && |cell| == 16
    ensures |g| == |f|
  {
    PaintRows(f, w, h, row, col, cell, 4)
  }

  /** Pixel x lies in the first n rows of the block at (row, col). */
  predicate InRows(x: nat, w: nat, row: nat, col: nat, n: nat)
    requires w > 0
  {
    row <= x / w < row + n && col <= x % w < col + 4
  }

  /** The pixel of a cell that lands on pixel x of the frame. */
  function CellPixel(x: nat, w: nat, row: nat, col: nat): (k: nat)
    requires w > 0 && InRows(x, w, row, col, 4)
    ensures k < 16
  {
    4 * (x / w - row) + (x % w - col)
  }

  /**
   * Painting a block writes exactly the 16 pixels of its 4x4 block, each
   * from its place in the cell, and leaves every other pixel as it was.
   */
  lemma {:induction false} PaintedPixel(f: seq<byte>, w: nat, h: nat, row: nat, col: nat, cell: seq<byte>, n: nat, x: nat)
    requires |f| == w * h && Fits(w, h, row, col) && |cell| == 16 && n <= 4 && x < |f|
    ensures PaintRows(f, w, h, row, col, cell, n)[x] == if InRows(x, w, row, col, n) then cell[CellPixel(x, w, row, col)] else f[x]
  {
    if n > 0 {
      PaintedPixel(f, w, h, row, col, cell, n - 1, x);
      var at := (row + n - 1) * w + col;
      RowStep(x, w, row, col, n, at);
      PaintStep(f, w, h, row, col, cell, n, x, at);
    }
  }

  /** Painting row n - 1 of a block writes its four pixels from the cell and leaves the others. */
  lemma PaintStep(f: seq<byte>, w: nat, h: nat, row: nat, col: nat, cell: seq<byte>, n: nat, x: nat, at: nat)
    requires |f| == w * h && Fits(w, h, row, col) && |cell| == 16 && 0 < n <= 4 && x < |f|
    requires at == (row + n - 1) * w + col
    ensures PaintRows(f, w, h, row, col, cell, n)[x]
         == if at <= x < at + 4 then cell[4 * (n - 1) + (x - at)] else PaintRows(f, w, h, row, col, cell, n - 1)[x]
  {
    PaintRowsNext(f, w, h, row, col, cell, n - 1, at);
    SetRowAt(PaintRows(f, w, h, row, col, cell, n - 1), at, cell[4 * (n - 1)..4 * n], x);
  }

  /** The first n rows of a block are its first n - 1 rows and the four pixels of row n - 1. */
  lemma RowStep(x: nat, w: nat, row: nat, col: nat, n: nat, at: nat)
    requires col + 4 <= w && 0 < n <= 4 && at == (row + n - 1) * w + col
    ensures InRows(x, w, row, col, n) <==> InRows(x, w, row, col, n - 1) || at <= x < at + 4
    ensures at <= x < at + 4 ==> CellPixel(x, w, row, col) == 4 * (n - 1) + (x - at)
  {
    RowPixel(x, w, row + n - 1, col);
  }

  /** Pixel x is in the four bytes from (r, col) exactly when it is on row r between col and col + 3. */
  lemma RowPixel(x: nat, w: nat, r: nat, col: nat)
    requires col + 4 <= w
    ensures r * w + col <= x < r * w + col + 4 <==> x / w == r && col <= x % w < col + 4
    ensures r * w + col <= x < r * w + col + 4 ==> x - (r * w + col) == x % w - col
  {
    if r * w + col <= x < r * w + col + 4 {
      DivModUnique(x, w, r, x - r * w);
    } else if x / w == r && col <= x % w < col + 4 {
      DivModUnique(x, w, x / w, x % w);
    }
  }

  /** The pixel at (row + r, col + c) of a frame w wide. */
  lemma PixelAt(w: nat, row: nat, col: nat, r: nat, c: nat, x: nat)
    requires col + 4 <= w && r < 4 && c < 4 && x == (row + r) * w + col + c
    ensures InRows(x, w, row, col, 4) && CellPixel(x, w, row, col) == 4 * r + c
  {
    DivModUnique(x, w, row + r, col + c);
  }

  /** The offset of the pixel in row y and column x of a frame w wide. */
  function Pixel(w: nat, y: nat, x: nat): nat
  {
    y * w + x
  }

  /** The pixel at (row + r, col + c) of the painted frame is pixel 4 r + c of the cell. */
  lemma PaintedAt(f: seq<byte>, w: nat, h: nat, row: nat, col: nat, cell: seq<byte>, r: nat, c: nat)
    requires |f| == w * h && Fits(w, h, row, col) && |cell| == 16 && r < 4 && c < 4
    ensures var x := Pixel(w, row + r, col + c);
            x < |f| && PaintCell(f, w, h, row, col, cell)[x] == cell[4 * r + c]
  {
    var x := Pixel(w, row + r, col + c);
    RowInFrame(w, h, row, col, r);
    PixelAt(w, row, col, r, c, x);
    PaintedPixel(f, w, h, row, col, cell, 4, x);
  }

  /** MONO: bit k of the mask sets pixel (row + k / 4, col + k % 4) to the high colour byte, a clear bit to the low one. */
  lemma MonoPixels(f: seq<byte>, w: nat, h: nat, row: nat, col: nat, colors: u16, mask: u16, k: nat)
    requires |f| == w * h && Fits(w, h, row, col) && k < 16
    ensures var x := Pixel(w, row + k / 4, col + k % 4);
            x < |f| && PaintCell(f, w, h, row, col, MonoCell(colors, mask))[x] == if BitOf(mask, k) then Hi(colors) else Lo(colors)
  {
    PaintedAt(f, w, h, row, col, MonoCell(colors, mask), k / 4, k % 4);
  }

  /** The cell of the block at (row, col) of a frame: its 16 pixels, row by row. */
  function CellOf(f: seq<byte>, w: nat, h: nat, row: nat, col: nat): (cell: seq<byte>)
    requires |f| == w * h && Fits(w, h, row, col)
    ensures |cell| == 16
  {
    seq(16, k requires 0 <= k < 16 => RowInFrame(w, h, row, col, k / 4); f[Pixel(w, row + k / 4, col + k % 4)])
  }

  /** VOID: pixel (row + r, col + c) of the painted frame is the same pixel of the previous frame. */
  lemma VoidPixels(f: seq<byte>, prev: seq<byte>, w: nat, h: nat, row: nat, col: nat, r: nat, c: nat)
    requires |f| == w * h == |prev| && Fits(w, h, row, col) && r < 4 && c < 4
    ensures var x := Pixel(w, row + r, col + c);
            x < |f| && PaintCell(f, w, h, row, col, CellOf(prev, w, h, row, col))[x] == prev[x]
  {
    PaintedAt(f, w, h, row, col, CellOf(prev, w, h, row, col), r, c);
    CellOfAt(prev, w, h, row, col, r, c);
  }

  /** Pixel 4 r + c of a block's cell is the frame's pixel r rows and c columns into the block. */
  lemma CellOfAt(f: seq<byte>, w: nat, h: nat, row: nat, col: nat, r: nat, c: nat)
    requires |f| == w * h && Fits(w, h, row, col) && r < 4 && c < 4
    ensures var x := Pixel(w, row + r, col + c);
            x < |f| && CellOf(f, w, h, row, col)[4 * r + c] == f[x]
  {
    RowInFrame(w, h, row, col, r);
    DivModUnique(4 * r + c, 4, r, c);
  }

  /** SOLID: every pixel of the block is the payload byte. */
  lemma SolidPixels(f: seq<byte>, w: nat, h: nat, row: nat, col: nat, v: byte, r: nat, c: nat)
    requires |f| == w * h && Fits(w, h, row, col) && r < 4 && c < 4
    ensures var x := Pixel(w, row + r, col + c);
            x < |f| && PaintCell(f, w, h, row, col, SolidCell(v))[x] == v
  {
    PaintedAt(f, w, h, row, col, SolidCell(v), r, c);
  }

  /** Byte c of a row built from the words a then b: columns 0 and 1 from b, columns 2 and 3 from a, each low byte first. */
  lemma PairRowAt(a: u16, b: u16, c: nat)
    requires c < 4
    ensures var word := if c < 2 then b else a;
            PairRow(a, b)[c] == if c % 2 == 0 then Lo(word) else Hi(word)
  {
  }

  /** FULL: row r is built from words 2 r and 2 r + 1, the first one on the right half. */
  lemma FullPixels(f: seq<byte>, w: nat, h: nat, row: nat, col: nat, u: seq<u16>, r: nat, c: nat)
    requires |f| == w * h && Fits(w, h, row, col) && |u| == 8 && r < 4 && c < 4
    ensures var x := Pixel(w, row + r, col + c);
            var word := if c < 2 then u[2 * r + 1] else u[2 * r];
            x < |f| && PaintCell(f, w, h, row, col, FullCell(u))[x] == if c % 2 == 0 then Lo(word) else Hi(word)
  {
    PaintedAt(f, w, h, row, col, FullCell(u), r, c);
    var rows := [PairRow(u[0], u[1]), PairRow(u[2], u[3]), PairRow(u[4], u[5]), PairRow(u[6], u[7])];
    assert FullCell(u)[4 * r + c] == rows[r][c];
    PairRowAt(u[2 * r], u[2 * r + 1], c);
  }

  /** DOUBLE: rows 2 k and 2 k + 1 both come from word k, its low byte on the left half and its high byte on the right. */
  lemma DoublePixels(f: seq<byte>, w: nat, h: nat, row: nat, col: nat, u: seq<u16>, r: nat, c: nat)
    requires |f| == w * h && Fits(w, h, row, col) && |u| == 2 && r < 4 && c < 4
    ensures var x := Pixel(w, row + r, col + c);
            x < |f| && PaintCell(f, w, h, row, col, DoubleCell(u))[x] == if c < 2 then Lo(u[r / 2]) else Hi(u[r / 2])
  {
    PaintedAt(f, w, h, row, col, DoubleCell(u), r, c);
  }

  /** HALF: rows 2 k and 2 k + 1 are the same row, built from words 2 k and 2 k + 1 as a FULL row is. */
  lemma HalfPixels(f: seq<byte>, w: nat, h: nat, row: nat, col: nat, u: seq<u16>, r: nat, c: nat)
    requires |f| == w * h && Fits(w, h, row, col) && |u| == 4 && r < 4 && c < 4
    ensures var x := Pixel(w, row + r, col + c);
            var word := if c < 2 then u[2 * (r / 2) + 1] else u[2 * (r / 2)];
            x < |f| && PaintCell(f, w, h, row, col, HalfCell(u))[x] == if c % 2 == 0 then Lo(word) else Hi(word)
  {
    PaintedAt(f, w, h, row, col, HalfCell(u), r, c);
    var top := PairRow(u[0], u[1]);
    var bottom := PairRow(u[2], u[3]);
    var rows := [top, top, bottom, bottom];
    assert HalfCell(u)[4 * r + c] == rows[r][c];
    PairRowAt(u[2 * (r / 2)], u[2 * (r / 2) + 1], c);
  }

  // ---------------------------------------------------------------------
  // The cursor
  // ---------------------------------------------------------------------

  /** The cursor after a block: four columns on, or the start of the next band of four rows. */
  function Advance(w: nat, row: nat, col: nat): (r: (nat, nat))
  {
    if col + 4 >= w then (row + 4, 0) else (row, col + 4)
  }

  /** The number of blocks before the one at (row, col), in raster order. */
  function Index(w: nat, row: nat, col: nat): nat
  {
    (row / 4) * (w / 4) + col / 4
  }

  /** The number of blocks of a frame. */
  function Blocks(w: nat, h: nat): nat
  {
    (h / 4) * (w / 4)
  }

  /** The cursor moves to the next block in raster order. */
  lemma AdvanceRaster(w: nat, row: nat, col: nat)
    requires w % 4 == 0 && row % 4 == 0 && col % 4 == 0 && col < w
    ensures var (row2, col2) := Advance(w, row, col);
            row2 % 4 == 0 && col2 % 4 == 0 && col2 < w && Index(w, row2, col2) == Index(w, row, col) + 1
  {
    var a, b, m := row / 4, col / 4, w / 4;
    if col + 4 >= w {
      assert b == m - 1;
      assert (row + 4) / 4 == a + 1;
      assert (a + 1) * m == a * m + m;
    } else {
      assert (col + 4) / 4 == b + 1;
    }
  }

  /** The cursor lies on a block boundary of the frame, and past the last block only at the very end. */
  predicate OnGrid(w: nat, h: nat, row: nat, col: nat)
  {
    w > 0 && w % 4 == 0 && h % 4 == 0 && row % 4 == 0 && col % 4 == 0 && col < w && row <= h && (row == h ==> col == 0)
  }

  /**
   * A cursor on a block of the frame has the whole block inside the frame,
   * and its raster index is below the number of blocks; past the end the
   * index is the number of blocks.
   */
  lemma Cursor(w: nat, h: nat, row: nat, col: nat)
    requires OnGrid(w, h, row, col)
    ensures row < h ==> Fits(w, h, row, col) && Index(w, row, col) < Blocks(w, h)
    ensures row >= h ==> Index(w, row, col) == Blocks(w, h)
  {
    if row < h {
      NextBand(row, h);
      NextBand(col, w);
      RasterBelow(row / 4, col / 4, w / 4, h / 4);
    }
  }

  /** The loop test of smk_render_video, row * w + col < w * h, holds exactly while the cursor is on a block of the frame. */
  lemma LoopTest(w: nat, h: nat, row: nat, col: nat)
    requires OnGrid(w, h, row, col)
    ensures row * w + col < w * h <==> row < h
  {
    if row < h {
      RasterBelow(row, col, w, h);
    } else {
      assert row * w == w * h;
    }
  }

  /** A position inside a raster of k rows of m cells has an offset below k * m. */
  lemma RasterBelow(a: nat, b: nat, m: nat, k: nat)
    requires a < k && b < m
    ensures a * m + b < k * m && a * m + b < m * k
  {
    MulLe(a + 1, k, m);
    assert (a + 1) * m == a * m + m;
  }

  /** A multiple of four below another lies at least four below it. */
  lemma NextBand(a: nat, b: nat)
    requires a % 4 == 0 && b % 4 == 0 && a < b
    ensures a + 4 <= b && a / 4 + 1 <= b / 4
  {
    DivModUnique(a, 4, a / 4, 0);
    DivModUnique(b, 4, b / 4, 0);
  }

  // ---------------------------------------------------------------------
  // Decoding a frame
  // ---------------------------------------------------------------------

  /** The previous frame, when there is one, has the frame's size. */
  predicate FrameOk(prev: Option<seq<byte>>, w: nat, h: nat)
  {
    prev.Some? ==> |prev.value| == w * h
  }

  /**
   * The cell of one block of the given type, with its lookups: MONO the
   * colour pair from MCLR then the mask from MMAP; FULL, DOUBLE and HALF
   * 8, 2 and 4 words from FULL; VOID the block of the previous frame, and
   * nothing when there is none; SOLID the payload byte.
   */
  function Cell(kind: nat, data: byte, trees: seq<Tree<BigLeaf>>, caches: seq<seq<int>>, bits: seq<bool>, pos: nat,
                prev: Option<seq<byte>>, w: nat, h: nat, row: nat, col: nat): (r: Option<(seq<byte>, seq<seq<int>>, nat)>)
    requires kind < 6 && Coders(trees, caches) && pos <= |bits| && Fits(w, h, row, col) && FrameOk(prev, w, h)
    ensures r.None? <==> kind == VOID_BLOCK && prev.None?
    ensures r.Some? ==> |r.value.0| == 16 && Coders(trees, r.value.1) && pos <= r.value.2 <= |bits|
  {
    if kind == MONO_BLOCK then
      var (colors, c1, p1) := Lookup(trees, caches, MCLR, bits, pos);
      var (mask, c2, p2) := Lookup(trees, c1, MMAP, bits, p1);
      Some((MonoCell(colors, mask), c2, p2))
    else if kind == FULL_BLOCK then
      var (u, c1, p1) := Lookups(trees, caches, FULL, 8, bits, pos);
      Some((FullCell(u), c1, p1))
    else if kind == VOID_BLOCK then
      if prev.None? then None else Some((CellOf(prev.value, w, h, row, col), caches, pos))
    else if kind == SOLID_BLOCK then
      Some((SolidCell(data), caches, pos))
    else if kind == DOUBLE_BLOCK then
      var (u, c1, p1) := Lookups(trees, caches, FULL, 2, bits, pos);
      Some((DoubleCell(u), c1, p1))
    else
      var (u, c1, p1) := Lookups(trees, caches, FULL, 4, bits, pos);
      Some((HalfCell(u), c1, p1))
  }

  /** The decoder's state: bit position, tree caches, cursor and the frame being drawn. */
  datatype VState = VState(pos: nat, caches: seq<seq<int>>, row: nat, col: nat, frame: seq<byte>)

  predicate Wf(w: nat, h: nat, trees: seq<Tree<BigLeaf>>, bits: seq<bool>, s: VState)
  {
    OnGrid(w, h, s.row, s.col) && Coders(trees, s.caches) && s.pos <= |bits| && |s.frame| == w * h
  }

  /** One block at the cursor: its cell painted, the cursor on the next block. */
  function Block(w: nat, h: nat, trees: seq<Tree<BigLeaf>>, bits: seq<bool>, prev: Option<seq<byte>>,
                 kind: nat, data: byte, s: VState): (r: Option<VState>)
    requires Wf(w, h, trees, bits, s) && s.row < h && kind < 6 && FrameOk(prev, w, h)
    ensures r.None? <==> kind == VOID_BLOCK && prev.None?
    ensures r.Some? ==> Wf(w, h, trees, bits, r.value) && s.pos <= r.value.pos
    ensures r.Some? ==> Index(w, r.value.row, r.value.col) == Index(w, s.row, s.col) + 1
  {
    Cursor(w, h, s.row, s.col);
    match Cell(kind, data, trees, s.caches, bits, s.pos, prev, w, h, s.row, s.col)
    case None => None
    case Some((cell, caches, pos)) =>
      AdvanceRaster(w, s.row, s.col);
      var (row, col) := Advance(w, s.row, s.col);
      Some(VState(pos, caches, row, col, PaintCell(s.frame, w, h, s.row, s.col, cell)))
  }

  function Min(a: nat, b: nat): nat
  {
    if a < b then a else b
  }

  /**
   * A run of n blocks of one type (the inner loop of smk_render_video): it
   * covers exactly n blocks, or stops at the end of the frame.
   */
  function Run(w: nat, h: nat, trees: seq<Tree<BigLeaf>>, bits: seq<bool>, prev: Option<seq<byte>>,
               kind: nat, data: byte, n: nat, s: VState): (r: Option<VState>)
    requires Wf(w, h, trees, bits, s) && kind < 6 && FrameOk(prev, w, h)
    ensures r.Some? ==> Wf(w, h, trees, bits, r.value) && s.pos <= r.value.pos
    decreases n
  {
    Cursor(w, h, s.row, s.col);
    if n == 0 || s.row >= h then Some(s)
    else
      match Block(w, h, trees, bits, prev, kind, data, s)
      case None => None
      case Some(s2) => Run(w, h, trees, bits, prev, kind, data, n - 1, s2)
  }

  /** A run of n blocks covers exactly n blocks, or stops at the end of the frame. */
  lemma {:induction false} RunIndex(w: nat, h: nat, trees: seq<Tree<BigLeaf>>, bits: seq<bool>, prev: Option<seq<byte>>,
                                    kind: nat, data: byte, n: nat, s: VState)
    requires Wf(w, h, trees, bits, s) && kind < 6 && FrameOk(prev, w, h)
    requires Run(w, h, trees, bits, prev, kind, data, n, s).Some?
    ensures var e := Run(w, h, trees, bits, prev, kind, data, n, s).value;
            Index(w, e.row, e.col) == Min(Index(w, s.row, s.col) + n, Blocks(w, h))
    decreases n
  {
    Cursor(w, h, s.row, s.col);
    if n > 0 && s.row < h {
      RunStep(w, h, trees, bits, prev, kind, data, n, s);
      RunIndex(w, h, trees, bits, prev, kind, data, n - 1, Block(w, h, trees, bits, prev, kind, data, s).value);
    }
  }

  /** A run with no blocks left, or with the cursor past the frame, leaves the state as it is. */
  lemma RunDone(w: nat, h: nat, trees: seq<Tree<BigLeaf>>, bits: seq<bool>, prev: Option<seq<byte>>,
                kind: nat, data: byte, n: nat, s: VState)
    requires Wf(w, h, trees, bits, s) && kind < 6 && FrameOk(prev, w, h) && (n == 0 || s.row >= h)
    ensures Run(w, h, trees, bits, prev, kind, data, n, s) == Some(s)
  {
  }

  /** A run with blocks left and the cursor in the frame is its first block, then the rest of the run. */
  lemma RunStep(w: nat, h: nat, trees: seq<Tree<BigLeaf>>, bits: seq<bool>, prev: Option<seq<byte>>,
                kind: nat, data: byte, n: nat, s: VState)
    requires Wf(w, h, trees, bits, s) && kind < 6 && FrameOk(prev, w, h) && n > 0 && s.row < h
    ensures var b := Block(w, h, trees, bits, prev, kind, data, s);
            && (b.None? ==> Run(w, h, trees, bits, prev, kind, data, n, s).None?)
            && (b.Some? ==> Run(w, h, trees, bits, prev, kind, data, n, s) == Run(w, h, trees, bits, prev, kind, data, n - 1, b.value))
  {
  }

  /** How a frame's decoding ends: out of bits before a block-type word, or with every block drawn. */
  datatype Outcome = Kept | Drawn(frame: seq<byte>)

  /**
   * The outer loop of smk_render_video: while blocks remain, a block-type
   * word from the TYPE tree (after checking that bits remain), then its
   * run.
   */
  function Frame(w: nat, h: nat, trees: seq<Tree<BigLeaf>>, bits: seq<bool>, prev: Option<seq<byte>>, v4: bool, s: VState)
    : (r: Option<Outcome>)
    requires Wf(w, h, trees, bits, s) && FrameOk(prev, w, h)
    ensures r.Some? && r.value.Drawn? ==> |r.value.frame| == w * h
    decreases Blocks(w, h) - Index(w, s.row, s.col)
  {
    Cursor(w, h, s.row, s.col);
    if s.row >= h then Some(Drawn(s.frame))
    else if s.pos >= |bits| then Some(Kept)
    else
      var (u, caches, p1) := Lookup(trees, s.caches, TYPE, bits, s.pos);
      var word := SplitType(u);
      var (kind, p2) := BlockType(word, v4, bits, p1);
      var s1 := VState(p2, caches, s.row, s.col, s.frame);
      match Run(w, h, trees, bits, prev, kind, word.data, RunLength(word.len), s1)
      case None => None
      case Some(s2) =>
        RunIndex(w, h, trees, bits, prev, kind, word.data, RunLength(word.len), s1);
        Frame(w, h, trees, bits, prev, v4, s2)
  }

  /** The state a frame's decoding starts from: bit 0, reset caches, the top-left block, a zeroed buffer. */
  function Start(w: nat, h: nat): (s: VState)
    ensures s.caches == Reset() && s.row == 0 && s.col == 0 && |s.frame| == w * h
  {
    VState(0, Reset(), 0, 0, seq(w * h, x => 0))
  }

  /**
   * smk_render_video on the video record at offset p of a chunk, as the
   * new video buffer. Disabled, the buffer stays. Enabled, every tree must
   * exist (each is reset), and the buffer is replaced only when every
   * block was drawn; running out of bits before a block-type word keeps
   * it. No result for the cases the model does not cover: a missing
   * tree, a VOID block without a previous frame, a frame of 2^32 pixels
   * or more, or sides that are not multiples of 4.
   */
  function RenderVideoSpec(chunk: seq<byte>, p: nat, enabled: bool, v4: bool, w: nat, h: nat,
                           trees: seq<Option<BigBuilt>>, prev: Option<seq<byte>>): (r: Option<Option<seq<byte>>>)
    requires p <= |chunk| && |trees| == 4 && (forall i :: 0 <= i < 4 ==> TreeOk(trees[i])) && FrameOk(prev, w, h)
    ensures !enabled ==> r == Some(prev)
    ensures r.Some? ==> FrameOk(r.value, w, h)
    ensures enabled && (exists i :: 0 <= i < 4 && trees[i].None?) ==> r.None?
  {
    if !enabled then Some(prev)
    else match Shapes(trees)
      case None => None
      case Some(coders) =>
        if w * h >= 0x1_0000_0000 || w % 4 != 0 || h % 4 != 0 then None
        else if w == 0 then Some(Some([]))
        else
          match Frame(w, h, coders, BitView(chunk[p..]), prev, v4, Start(w, h))
          case None => None
          case Some(Kept) => Some(prev)
          case Some(Drawn(f)) => Some(Some(f))
  }

  /** The shapes of the four trees, when all of them exist. */
  function Shapes(trees: seq<Option<BigBuilt>>): (r: Option<seq<Tree<BigLeaf>>>)
    requires |trees| == 4 && forall i :: 0 <= i < 4 ==> TreeOk(trees[i])
    ensures r.None? <==> exists i :: 0 <= i < 4 && trees[i].None?
    ensures r.Some? ==> Coders(r.value, Reset()) && forall i :: 0 <= i < 4 ==> r.value[i] == trees[i].value.shape
  {
    if trees[0].None? || trees[1].None? || trees[2].None? || trees[3].None? then None
    else
      assert TreeOk(trees[0]) && TreeOk(trees[1]) && TreeOk(trees[2]) && TreeOk(trees[3]);
      Some([trees[0].value.shape, trees[1].value.shape, trees[2].value.shape, trees[3].value.shape])
  }

  /**
   * A video record whose bits are all used up before the first block-type
   * word keeps the previous frame, even when there is none.
   */
  lemma OutOfBitsKeeps(chunk: seq<byte>, v4: bool, w: nat, h: nat, trees: seq<Option<BigBuilt>>, prev: Option<seq<byte>>)
    requires |trees| == 4 && (forall i :: 0 <= i < 4 ==> TreeOk(trees[i]) && trees[i].Some?) && FrameOk(prev, w, h)
    requires w > 0 && h > 0 && w % 4 == 0 && h % 4 == 0 && w * h < 0x1_0000_0000
    ensures RenderVideoSpec(chunk, |chunk|, true, v4, w, h, trees, prev) == Some(prev)
  {
    assert BitView(chunk[|chunk|..]) == [];
  }

  // ---------------------------------------------------------------------
  // The decoder
  // ---------------------------------------------------------------------

  /** smk_render_video's steps, with the frame drawn in a fresh buffer. */
  method RenderVideo(chunk: seq<byte>, p: nat, enabled: bool, v4: bool, w: nat, h: nat,
                     trees: seq<Option<BigBuilt>>, prev: Option<seq<byte>>) returns (r: Option<Option<seq<byte>>>)
    requires p <= |chunk| && |trees| == 4 && (forall i :: 0 <= i < 4 ==> TreeOk(trees[i])) && FrameOk(prev, w, h)
    ensures r == RenderVideoSpec(chunk, p, enabled, v4, w, h, trees, prev)
  {
    if !enabled {
      return Some(prev);
    }
    var shapes := Shapes(trees);
    if shapes.None? {
      return None;
    }
    var coders := shapes.value;
    if w * h >= 0x1_0000_0000 || w % 4 != 0 || h % 4 != 0 {
      return None;
    }
    if w == 0 {
      return Some(Some([]));
    }
    var f := DecodeFrame(w, h, coders, BitView(chunk[p..]), prev, v4);
    r := match f
         case None => None
         case Some(Kept) => Some(prev)
         case Some(Drawn(frame)) => Some(Some(frame));
  }

  /** The outer loop: a block-type word per run, until the cursor leaves the frame or the bits run out. */
  method DecodeFrame(w: nat, h: nat, trees: seq<Tree<BigLeaf>>, bits: seq<bool>, prev: Option<seq<byte>>, v4: bool)
      returns (r: Option<Outcome>)
    requires OnGrid(w, h, 0, 0) && Coders(trees, Reset()) && FrameOk(prev, w, h)
    ensures r == Frame(w, h, trees, bits, prev, v4, Start(w, h))
  {
    var t := new byte[w * h](x => 0);
    var pos: nat, caches, row: nat, col: nat := 0, Reset(), 0, 0;
    assert t[..] == Start(w, h).frame;
    while row * w + col < w * h
      invariant Wf(w, h, trees, bits, VState(pos, caches, row, col, t[..])) && t.Length == w * h
      invariant Frame(w, h, trees, bits, prev, v4, VState(pos, caches, row, col, t[..])) == Frame(w, h, trees, bits, prev, v4, Start(w, h))
      decreases Blocks(w, h) - Index(w, row, col)
    {
      LoopTest(w, h, row, col);
      Cursor(w, h, row, col);
      if pos >= |bits| {
        return Some(Kept);
      }
      var (u, c1, p1) := Lookup(trees, caches, TYPE, bits, pos);
      var word := SplitType(u);
      var (kind, p2) := BlockType(word, v4, bits, p1);
      var ok;
      ghost var s1 := VState(p2, c1, row, col, t[..]);
      ok, pos, caches, row, col := DecodeRun(t, w, h, trees, bits, prev, kind, word.data, RunLength(word.len), p2, c1, row, col);
      if !ok {
        return None;
      }
      RunIndex(w, h, trees, bits, prev, kind, word.data, RunLength(word.len), s1);
    }
    LoopTest(w, h, row, col);
    Cursor(w, h, row, col);
    return Some(Drawn(t[..]));
  }

  /** The inner loop: up to n blocks of one type, each painted into the buffer. */
  method DecodeRun(t: array<byte>, w: nat, h: nat, trees: seq<Tree<BigLeaf>>, bits: seq<bool>, prev: Option<seq<byte>>,
                   kind: nat, data: byte, n: nat, pos0: nat, caches0: seq<seq<int>>, row0: nat, col0: nat)
      returns (ok: bool, pos: nat, caches: seq<seq<int>>, row: nat, col: nat)
    requires t.Length == w * h && Wf(w, h, trees, bits, VState(pos0, caches0, row0, col0, t[..]))
    requires kind < 6 && FrameOk(prev, w, h)
    modifies t
    ensures var r := Run(w, h, trees, bits, prev, kind, data, n, VState(pos0, caches0, row0, col0, old(t[..])));
            (ok <==> r.Some?) && (ok ==> r.value == VState(pos, caches, row, col, t[..]))
  {
    pos, caches, row, col := pos0, caches0, row0, col0;
    ghost var start := VState(pos0, caches0, row0, col0, t[..]);
    var j := 0;
    ghost var left, cur := n, start;
    // row < h is the source's test row * w + col < w * h, by LoopTest
    while j < n && row < h
      invariant j <= n && left == n - j && cur == VState(pos, caches, row, col, t[..]) && Wf(w, h, trees, bits, cur)
      invariant Run(w, h, trees, bits, prev, kind, data, n, start) == Run(w, h, trees, bits, prev, kind, data, left, cur)
      decreases n - j
    {
      ghost var next;
      ok, pos, caches, row, col, next := RunBlock(t, w, h, trees, bits, prev, kind, data, left, cur, pos, caches, row, col);
      if !ok {
        return;
      }
      j, left, cur := j + 1, left - 1, next;
    }
    RunDone(w, h, trees, bits, prev, kind, data, left, cur);
    return true, pos, caches, row, col;
  }

  /** One pass of the inner loop: the first block of a run of n, leaving the rest of the run. */
  method RunBlock(t: array<byte>, w: nat, h: nat, trees: seq<Tree<BigLeaf>>, bits: seq<bool>, prev: Option<seq<byte>>,
                  kind: nat, data: byte, ghost n: nat, ghost s: VState, pos0: nat, caches0: seq<seq<int>>, row0: nat, col0: nat)
      returns (ok: bool, pos: nat, caches: seq<seq<int>>, row: nat, col: nat, ghost s2: VState)
    requires s == VState(pos0, caches0, row0, col0, t[..]) && t.Length == w * h && Wf(w, h, trees, bits, s) && row0 < h
    requires kind < 6 && FrameOk(prev, w, h) && n > 0
    modifies t
    ensures s2 == VState(pos, caches, row, col, t[..])
    ensures !ok ==> Run(w, h, trees, bits, prev, kind, data, n, s).None?
    ensures ok ==> Wf(w, h, trees, bits, s2) && Run(w, h, trees, bits, prev, kind, data, n, s) == Run(w, h, trees, bits, prev, kind, data, n - 1, s2)
  {
    ok, pos, caches, row, col := DecodeBlock(t, w, h, trees, bits, prev, kind, data, pos0, caches0, row0, col0);
    RunStep(w, h, trees, bits, prev, kind, data, n, s);
    s2 := VState(pos, caches, row, col, t[..]);
  }


  /** One block: its cell decoded and painted, the cursor moved on (the body of the inner loop). */
  method DecodeBlock(t: array<byte>, w: nat, h: nat, trees: seq<Tree<BigLeaf>>, bits: seq<bool>, prev: Option<seq<byte>>,
                     kind: nat, data: byte, pos0: nat, caches0: seq<seq<int>>, row0: nat, col0: nat)
      returns (ok: bool, pos: nat, caches: seq<seq<int>>, row: nat, col: nat)
    requires t.Length == w * h && Wf(w, h, trees, bits, VState(pos0, caches0, row0, col0, t[..])) && row0 < h
    requires kind < 6 && FrameOk(prev, w, h)
    modifies t
    ensures var r := Block(w, h, trees, bits, prev, kind, data, VState(pos0, caches0, row0, col0, old(t[..])));
            (ok <==> r.Some?) && (ok ==> r.value == VState(pos, caches, row, col, t[..]))
  {
    Cursor(w, h, row0, col0);
    var cell := Cell(kind, data, trees, caches0, bits, pos0, prev, w, h, row0, col0);
    if cell.None? {
      return false, pos0, caches0, row0, col0;
    }
    var (c, cs, p) := cell.value;
    Paint(t, w, h, row0, col0, c);
    pos, caches, row, col := p, cs, row0, col0 + 4;
    if col >= w {
      col := 0;
      row := row + 4;
    }
    ok := true;
  }

  /** One block's cell written into the buffer, a row of four pixels at a time. */
  method Paint(t: array<byte>, w: nat, h: nat, row: nat, col: nat, cell: seq<byte>)
    requires t.Length == w * h && Fits(w, h, row, col) && |cell| == 16
    modifies t
    ensures t[..] == PaintCell(old(t[..]), w, h, row, col, cell)
  {
    for r := 0 to 4
      invariant t[..] == PaintRows(old(t[..]), w, h, row, col, cell, r)
    {
      var at := (row + r) * w + col;
      PaintRowsNext(old(t[..]), w, h, row, col, cell, r, at);
      PutRow(t, at, cell[4 * r..4 * r + 4]);
    }
  }

  /** Four pixels from at. */
  method PutRow(t: array<byte>, at: nat, four: seq<byte>)
    requires |four| == 4 && at + 4 <= t.Length
    modifies t
    ensures t[..] == SetRow(old(t[..]), at, four)
  {
    t[at] := four[0];
    t[at + 1] := four[1];
    t[at + 2] := four[2];
    t[at + 3] := four[3];
  }
}
