/**
 * The 16-bit ("big") Huffman tree of smk_huff16.c: two 8-bit trees decode
 * the two bytes of each leaf, three seed values fill a cache of recently
 * used values, and a leaf equal to a seed is stored as an escape to its
 * cache slot. The tree is flattened into a slot array exactly as the 8-bit
 * tree is, with 32-bit slots.
 */
module Huff16 {
  import opened Bits
  import opened BitStream
  import opened CodeTree
  import Huff8

  /** SMK_HUFF16_BRANCH: a branch slot; its low 30 bits (SMK_HUFF16_LEAF_MASK) index the right child. */
  const BRANCH := 0x8000_0000

  /** SMK_HUFF16_CACHE: an escape slot; its low 30 bits give the cache slot. */
  const CACHE := 0x4000_0000

  /** The cache of struct smk_huff16_t: three 16-bit values. */
  predicate CacheOk(c: seq<int>)
  {
    |c| == 3 && forall i :: 0 <= i < 3 ==> 0 <= c[i] < 0x1_0000
  }

  /** The two bytes of a value joined as `lo | (hi << 8)`: the order the cache seeds are read in. */
  function Join(lo: int, hi: int): int
  {
    lo + 256 * hi
  }

  /** The leaf value as _smk_huff16_build_rec joins it: `(low-tree value << 8) | high-tree value`. */
  function JoinAsWritten(lo: int, hi: int): int
  {
    256 * lo + hi
  }

  /** A slot that ends a walk: a 16-bit literal, or an escape to cache slot 0, 1 or 2. */
  predicate IsLeafSlot(s: int)
  {
    0 <= s < 0x1_0000 || CACHE <= s < CACHE + 3
  }

  predicate LeafSlots(t: Tree<int>)
  {
    match t
    case Leaf(s) => IsLeafSlot(s)
    case Node(l, r) => LeafSlots(l) && LeafSlots(r)
  }

  /** The value a leaf slot stands for under the current cache. */
  function Resolve(s: int, cache: seq<int>): (v: int)
    requires IsLeafSlot(s) && CacheOk(cache)
    ensures 0 <= v < 0x1_0000
  {
    if s >= CACHE then cache[s - CACHE] else s
  }

  /**
   * The slot a leaf value is stored as: an escape to the first cache slot
   * holding it, checked in the order 0, 1, 2, or the value itself. Under the
   * cache it was built with, the slot stands for the value again.
   */
  function LeafSlot(v: int, cache: seq<int>): (s: int)
    requires 0 <= v < 0x1_0000 && CacheOk(cache)
    ensures IsLeafSlot(s) && Resolve(s, cache) == v
    ensures s >= CACHE <==> v in cache
  {
    if v == cache[0] then CACHE
    else if v == cache[1] then CACHE + 1
    else if v == cache[2] then CACHE + 2
    else v
  }

  /**
   * The cache after a lookup returned v: unchanged when v is already in
   * front, otherwise v goes in front and the older values move back one
   * slot, the last one being dropped.
   */
  function Promote(cache: seq<int>, v: int): (c: seq<int>)
    requires CacheOk(cache) && 0 <= v < 0x1_0000
    ensures CacheOk(c) && c[0] == v
  {
    if cache[0] == v then cache else [v, cache[0], cache[1]]
  }

  /** Promotion keeps the two most recent values and, when v was in front already, the whole cache. */
  lemma PromoteKeepsRecent(cache: seq<int>, v: int)
    requires CacheOk(cache) && 0 <= v < 0x1_0000
    ensures cache[0] in Promote(cache, v) && cache[1] in Promote(cache, v)
    ensures cache[0] == v <==> Promote(cache, v) == cache
    ensures cache[0] != v ==> Promote(cache, v)[1..] == cache[..2]
  {
    if cache[0] != v {
      assert Promote(cache, v)[1] == cache[0];
    }
  }

  /** Three seeds read as the build reads them: per seed, the low byte then the high byte. */
  function ReadSeeds(bits: seq<bool>, pos: nat, n: nat): (r: Parsed<seq<int>>)
    requires pos <= |bits|
    ensures r.Ok? ==> |r.value| == n && r.next == pos + 16 * n && r.next <= |bits|
    ensures r.Ok? ==> forall i :: 0 <= i < n ==> 0 <= r.value[i] < 0x1_0000
    ensures r.Fail? ==> pos <= r.at <= |bits|
  {
    if n == 0 then Ok([], pos)
    else
      match ReadSeeds(bits, pos, n - 1)
      case Fail(at) => Fail(at)
      case Ok(s, p) =>
        match Read8(bits, p)
        case Fail(at) => Fail(at)
        case Ok(lo, p1) =>
          match Read8(bits, p1)
          case Fail(at) => Fail(at)
          case Ok(hi, p2) => Ok(s + [Join(lo, hi)], p2)
  }

  /** A seed that cannot be read fails every longer run of seeds. */
  lemma {:induction false} SeedsFailLater(bits: seq<bool>, pos: nat, n: nat, m: nat)
    requires pos <= |bits| && n <= m && ReadSeeds(bits, pos, n).Fail?
    ensures ReadSeeds(bits, pos, m).Fail?
  {
    if n < m {
      SeedsFailLater(bits, pos, n, m - 1);
    }
  }

  /** One more seed after i of them. */
  lemma SeedStep(bits: seq<bool>, pos: nat, i: nat, s: seq<int>, p: nat, lo: int, p1: nat, hi: int, p2: nat)
    requires pos <= |bits| && ReadSeeds(bits, pos, i) == Ok(s, p)
    requires Read8(bits, p) == Ok(lo, p1) && Read8(bits, p1) == Ok(hi, p2)
    ensures ReadSeeds(bits, pos, i + 1) == Ok(s + [Join(lo, hi)], p2)
  {
  }

  /** A seed whose low or high byte is missing fails the three seeds. */
  lemma SeedFails(bits: seq<bool>, pos: nat, i: nat, s: seq<int>, p: nat)
    requires pos <= |bits| && i < 3 && ReadSeeds(bits, pos, i) == Ok(s, p)
    requires Read8(bits, p).Fail? || Read8(bits, p + 8).Fail?
    ensures ReadSeeds(bits, pos, 3).Fail?
  {
    SeedsFailLater(bits, pos, i + 1, 3);
  }

  /**
   * The tree body: a 1 bit is a branch followed by its left then its right
   * subtree; a 0 bit is a leaf whose low byte the low tree decodes and whose
   * high byte the high tree decodes, stored as LeafSlot of the joined value.
   * The body can only fail by running out of bits, so a failure always sits
   * at the end of the stream.
   */
  function ParseBigBody(bits: seq<bool>, pos: nat, low: Tree<int>, high: Tree<int>, cache: seq<int>): (r: Parsed<Tree<int>>)
    requires pos <= |bits| && LeavesBelow(low, 0x100) && LeavesBelow(high, 0x100) && CacheOk(cache)
    ensures r.Ok? ==> pos < r.next <= |bits| && LeafSlots(r.value)
    ensures r.Fail? ==> r.at == |bits|
    decreases |bits| - pos
  {
    match Read1(bits, pos)
    case Fail(at) => Fail(at)
    case Ok(b, p1) =>
      if b then
        match ParseBigBody(bits, p1, low, high, cache)
        case Fail(at) => Fail(at)
        case Ok(l, p2) =>
          match ParseBigBody(bits, p2, low, high, cache)
          case Fail(at) => Fail(at)
          case Ok(rt, p3) => Ok(Node(l, rt), p3)
      else
        match Walk(low, bits, p1)
        case Fail(at) => Fail(at)
        case Ok(lo, p2) =>
          match Walk(high, bits, p2)
          case Fail(at) => Fail(at)
          case Ok(hi, p3) =>
            WalkBelow(low, bits, p1, 0x100);
            WalkBelow(high, bits, p2, 0x100);
            Ok(Leaf(LeafSlot(Join(lo, hi), cache)), p3)
  }

  /** A 1 bit: a branch whose subtrees follow. */
  lemma BodyBranchBit(bits: seq<bool>, pos: nat, low: Tree<int>, high: Tree<int>, cache: seq<int>)
    requires pos < |bits| && bits[pos]
    requires LeavesBelow(low, 0x100) && LeavesBelow(high, 0x100) && CacheOk(cache)
    ensures var pl := ParseBigBody(bits, pos + 1, low, high, cache);
      && (pl.Fail? ==> ParseBigBody(bits, pos, low, high, cache).Fail?)
      && (pl.Ok? ==>
            var pr := ParseBigBody(bits, pl.next, low, high, cache);
            && (pr.Fail? ==> ParseBigBody(bits, pos, low, high, cache).Fail?)
            && (pr.Ok? ==> ParseBigBody(bits, pos, low, high, cache) == Ok(Node(pl.value, pr.value), pr.next)))
  {
  }

  /** A 0 bit: a leaf decoded through the low tree, then the high tree. */
  lemma BodyLeafBit(bits: seq<bool>, pos: nat, low: Tree<int>, high: Tree<int>, cache: seq<int>)
    requires pos < |bits| && !bits[pos]
    requires LeavesBelow(low, 0x100) && LeavesBelow(high, 0x100) && CacheOk(cache)
    ensures var wl := Walk(low, bits, pos + 1);
      && (wl.Fail? ==> ParseBigBody(bits, pos, low, high, cache).Fail?)
      && (wl.Ok? ==>
            var wh := Walk(high, bits, wl.next);
            && (wh.Fail? ==> ParseBigBody(bits, pos, low, high, cache).Fail?)
            && (wh.Ok? ==>
                  && 0 <= Join(wl.value, wh.value) < 0x1_0000
                  && ParseBigBody(bits, pos, low, high, cache)
                     == Ok(Leaf(LeafSlot(Join(wl.value, wh.value), cache)), wh.next)))
  {
    var wl := Walk(low, bits, pos + 1);
    WalkBelow(low, bits, pos + 1, 0x100);
    if wl.Ok? {
      WalkBelow(high, bits, wl.next, 0x100);
    }
  }

  /** What the build yields: the tree the slots hold and the seeded cache. */
  datatype Built = Built(shape: Tree<int>, cache: seq<int>)

  /**
   * The number of slots smk_huff16_build allocates: (alloc_size - 12) / 4
   * in unsigned 32-bit arithmetic, so that an alloc_size below 12 wraps.
   */
  function Capacity(allocSize: u32): (n: nat)
    ensures n < 0x4000_0000
  {
    ((allocSize - 12) % 0x1_0000_0000) / 4
  }

  /**
   * smk_huff16_build: a presence bit; when it is 1, the tree ParsePresent
   * reads; when it is 0, the single leaf 0 with an all-zero cache. Either
   * way a closing 0 bit follows.
   */
  function BuildBigTree(bits: seq<bool>, pos: nat, capacity: nat): (r: Parsed<Built>)
    requires pos <= |bits|
    ensures r.Ok? ==> && pos + 2 <= r.next <= |bits|
                      && LeafSlots(r.value.shape) && CacheOk(r.value.cache)
                      && (r.value.shape.Node? ==> Size(r.value.shape) <= capacity)
  {
    match Read1(bits, pos)
    case Fail(at) => Fail(at)
    case Ok(present, p1) =>
      var body := if present then ParsePresent(bits, p1, capacity) else Ok(Built(Leaf(0), [0, 0, 0]), p1);
      match body
      case Fail(at) => Fail(at)
      case Ok(b, p) => Closing(bits, p, b)
  }

  /** A present tree: the low and the high 8-bit trees, then the seeds and the body ParseSlots reads. */
  function ParsePresent(bits: seq<bool>, pos: nat, capacity: nat): (r: Parsed<Built>)
    requires pos <= |bits|
    ensures r.Ok? ==> && pos < r.next <= |bits|
                      && LeafSlots(r.value.shape) && CacheOk(r.value.cache)
                      && Size(r.value.shape) <= capacity
  {
    match Huff8.BuildSmallTree(bits, pos)
    case Fail(at) => Fail(at)
    case Ok(low, p2) =>
      match Huff8.BuildSmallTree(bits, p2)
      case Fail(at) => Fail(at)
      case Ok(high, p3) => ParseSlots(bits, p3, low, high, capacity)
  }

  /** Three seeds, then the tree body, which must fit in the allocated slots. */
  function ParseSlots(bits: seq<bool>, pos: nat, low: Tree<int>, high: Tree<int>, capacity: nat): (r: Parsed<Built>)
    requires pos <= |bits| && LeavesBelow(low, 0x100) && LeavesBelow(high, 0x100)
    ensures r.Ok? ==> && pos < r.next <= |bits|
                      && LeafSlots(r.value.shape) && CacheOk(r.value.cache)
                      && Size(r.value.shape) <= capacity
  {
    match ReadSeeds(bits, pos, 3)
    case Fail(at) => Fail(at)
    case Ok(seeds, p4) =>
      match ParseBigBody(bits, p4, low, high, seeds)
      case Fail(at) => Fail(at)
      case Ok(t, p5) =>
        if Size(t) > capacity then Fail(p4)
        else Ok(Built(t, seeds), p5)
  }

  /** With the presence bit 0 the tree is the single leaf 0, which decodes 0 without reading a bit and leaves the cache as it is. */
  lemma AbsentBigTree(bits: seq<bool>, pos: nat, capacity: nat, at: nat)
    requires pos + 2 <= |bits| && !bits[pos] && !bits[pos + 1] && at <= |bits|
    ensures BuildBigTree(bits, pos, capacity) == Ok(Built(Leaf(0), [0, 0, 0]), pos + 2)
    ensures Walk(Leaf(0), bits, at) == Ok(0, at)
    ensures Resolve(0, [0, 0, 0]) == 0 && Promote([0, 0, 0], 0) == [0, 0, 0]
  {
  }

  /** The joined value holds the low tree's byte in its low half and the high tree's byte in its high half. */
  lemma JoinBytes(lo: byte, hi: byte)
    ensures 0 <= Join(lo, hi) < 0x1_0000
    ensures Join(lo, hi) % 256 == lo && Join(lo, hi) / 256 == hi
  {
    DivModUnique(Join(lo, hi), 256, hi, lo);
  }

  /** The leaf join of the source puts the low tree's byte in the high half, the reverse of the seeds. */
  lemma JoinAsWrittenSwaps(lo: byte, hi: byte)
    ensures JoinAsWritten(lo, hi) % 256 == hi && JoinAsWritten(lo, hi) / 256 == lo
    ensures JoinAsWritten(lo, hi) == Join(hi, lo)
  {
    DivModUnique(JoinAsWritten(lo, hi), 256, lo, hi);
  }

  /**
   * With seeds read from the byte pairs (1, 0), (2, 0), (3, 0), a leaf whose
   * low tree gives 1 and high tree gives 0 has the bytes of seed 0, yet the
   * source's join stores it as the literal 256; the seeds' order makes it
   * the escape to slot 0, which stands for 1.
   */
  lemma SeedMissedAsWritten()
    ensures var c := [Join(1, 0), Join(2, 0), Join(3, 0)];
      && CacheOk(c)
      && LeafSlot(JoinAsWritten(1, 0), c) == 256
      && LeafSlot(Join(1, 0), c) == CACHE && Resolve(CACHE, c) == 1
  {
  }

  /**
   * The slot count (alloc_size - 12) / 4 does not bound the tree the body
   * describes: with both 8-bit trees absent and three zero seeds, the three
   * bits 1, 0, 0 describe a branch over two leaves, three slots, while an
   * alloc_size of 16 allocates one.
   */
  lemma BodyOverrunsAllocation()
    ensures var body := ParseBigBody([true, false, false], 0, Leaf(0), Leaf(0), [0, 0, 0]);
      && body == Ok(Node(Leaf(CACHE), Leaf(CACHE)), 3)
      && Size(body.value) > Capacity(16)
  {
    var bits := [true, false, false];
    var c := [0, 0, 0];
    assert ParseBigBody(bits, 2, Leaf(0), Leaf(0), c) == Ok(Leaf(CACHE), 3);
    assert ParseBigBody(bits, 1, Leaf(0), Leaf(0), c) == Ok(Leaf(CACHE), 2);
  }

  /** A slot holding a placed subtree: bit 31 tells a branch, whose low 30 bits index its right child; bit 30 tells an escape. */
  lemma SlotTest(a: seq<int>, sub: Tree<int>, index: nat)
    requires index + Size(sub) <= CACHE && LeafSlots(sub) && Placed(a, sub, index, BRANCH)
    ensures 0 <= a[index] < 0x1_0000_0000
    ensures BitOf(a[index], 31) <==> sub.Node?
    ensures sub.Node? ==> a[index] % CACHE == index + 1 + Size(sub.left)
    ensures sub.Leaf? ==> && (BitOf(a[index], 30) <==> a[index] >= CACHE)
                          && (a[index] >= CACHE ==> a[index] % CACHE == a[index] - CACHE)
  {
    match sub
    case Leaf(s) =>
      Bit31(s);
      Bit30(s);
      if s >= CACHE {
        DivModUnique(s, CACHE, 1, s - CACHE);
      }
    case Node(l, _) =>
      var k := index + 1 + Size(l);
      Bit31(BRANCH + k);
      DivModUnique(BRANCH + k, CACHE, 2, k);
  }

  /** struct smk_huff16_t. `shape` is the tree the slots hold. */
  class BigTree {
    const tree: array<int>
    var treeSize: nat
    const cache: array<int>
    ghost var shape: Tree<int>

    ghost predicate Valid()
      reads this, tree, cache
    {
      && tree != cache
      && cache.Length == 3 && CacheOk(cache[..])
      && Size(shape) <= tree.Length < CACHE
      && treeSize <= tree.Length
      && LeafSlots(shape)
      && Placed(tree[..], shape, 0, BRANCH)
    }

    /** A fresh structure with `slots` tree slots, tree_size = 0, nothing written yet. */
    constructor (slots: nat)
      ensures tree.Length == slots && cache.Length == 3 && treeSize == 0
      ensures fresh(tree) && fresh(cache) && tree != cache
    {
      tree := new int[slots];
      cache := new int[3];
      treeSize := 0;
      shape := Leaf(0);
    }

    /**
     * _smk_huff16_build_rec: parse one subtree into the slots from tree_size
     * on, decoding leaves through the two 8-bit trees. Unlike the source, a
     * slot index at or past the allocated slots fails the build.
     */
    method BuildRec(rd: BitReader, low: Huff8.SmallTree, high: Huff8.SmallTree, ghost seeds: seq<int>)
      returns (ok: bool, ghost t: Tree<int>)
      requires rd.Valid() && low.Valid() && high.Valid() && low.tree != tree && high.tree != tree
      requires tree.Length < CACHE && treeSize <= tree.Length && CacheOk(seeds)
      requires cache.Length == 3 && cache[..] == seeds && cache != tree
      modifies this, tree, rd
      ensures rd.Valid() && treeSize <= tree.Length
      ensures ok ==> && ParseBigBody(rd.Bits(), old(rd.Pos()), low.shape, high.shape, seeds) == Ok(t, rd.Pos())
                     && treeSize == old(treeSize) + Size(t)
                     && Placed(tree[..], t, old(treeSize), BRANCH)
      ensures !ok ==> Unfit(ParseBigBody(rd.Bits(), old(rd.Pos()), low.shape, high.shape, seeds), old(treeSize), tree.Length)
      ensures tree[..old(treeSize)] == old(tree[..treeSize])
      decreases |rd.Bits()| - rd.Pos(), 0
    {
      ghost var p0 := rd.Pos();
      var bit := rd.ReadBit();
      if bit < 0 {
        return false, Leaf(0);
      }
      if bit == 1 {
        ok, t := BuildBranch(rd, low, high, seeds, p0);
      } else {
        ok, t := BuildLeaf(rd, low, high, seeds, p0);
      }
    }

    /** The branch case of _smk_huff16_build_rec, entered after its 1 bit at p0. */
    method BuildBranch(rd: BitReader, low: Huff8.SmallTree, high: Huff8.SmallTree, ghost seeds: seq<int>, ghost p0: nat)
      returns (ok: bool, ghost t: Tree<int>)
      requires rd.Valid() && low.Valid() && high.Valid() && low.tree != tree && high.tree != tree
      requires tree.Length < CACHE && treeSize <= tree.Length && CacheOk(seeds)
      requires cache.Length == 3 && cache[..] == seeds && cache != tree
      requires p0 < |rd.Bits()| && rd.Bits()[p0] && rd.Pos() == p0 + 1
      modifies this, tree, rd
      ensures rd.Valid() && treeSize <= tree.Length
      ensures ok ==> && ParseBigBody(rd.Bits(), p0, low.shape, high.shape, seeds) == Ok(t, rd.Pos())
                     && treeSize == old(treeSize) + Size(t)
                     && Placed(tree[..], t, old(treeSize), BRANCH)
      ensures !ok ==> Unfit(ParseBigBody(rd.Bits(), p0, low.shape, high.shape, seeds), old(treeSize), tree.Length)
      ensures tree[..old(treeSize)] == old(tree[..treeSize])
      decreases |rd.Bits()| - rd.Pos(), 2
    {
      if treeSize >= tree.Length {
        return false, Leaf(0);
      }
      var value := treeSize;
      treeSize := treeSize + 1;
      ghost var original := tree[..];
      ghost var l;
      ok, l := BuildRec(rd, low, high, seeds);
      PrefixShrink(tree[..], original, value, value + 1);
      if !ok {
        BodyBranchBit(rd.Bits(), p0, low.shape, high.shape, seeds);
        return false, Leaf(0);
      }
      ok, t := BuildRight(rd, low, high, seeds, p0, value, l);
    }

    /** The rest of the branch case: patch slot `value` with the right child's index, then build the right subtree. */
    method BuildRight(rd: BitReader, low: Huff8.SmallTree, high: Huff8.SmallTree, ghost seeds: seq<int>, ghost p0: nat,
                      value: nat, ghost l: Tree<int>)
      returns (ok: bool, ghost t: Tree<int>)
      requires rd.Valid() && low.Valid() && high.Valid() && low.tree != tree && high.tree != tree
      requires tree.Length < CACHE && treeSize <= tree.Length && CacheOk(seeds)
      requires cache.Length == 3 && cache[..] == seeds && cache != tree
      requires p0 < |rd.Bits()| && rd.Bits()[p0]
      requires ParseBigBody(rd.Bits(), p0 + 1, low.shape, high.shape, seeds) == Ok(l, rd.Pos())
      requires treeSize == value + 1 + Size(l)
      requires Placed(tree[..], l, value + 1, BRANCH)
      modifies this, tree, rd
      ensures rd.Valid() && treeSize <= tree.Length
      ensures ok ==> && ParseBigBody(rd.Bits(), p0, low.shape, high.shape, seeds) == Ok(t, rd.Pos())
                     && treeSize == value + Size(t)
                     && Placed(tree[..], t, value, BRANCH)
      ensures !ok ==> Unfit(ParseBigBody(rd.Bits(), p0, low.shape, high.shape, seeds), value, tree.Length)
      ensures tree[..value] == old(tree[..value])
      decreases |rd.Bits()| - rd.Pos(), 1
    {
      ghost var afterLeft := tree[..];
      ghost var rightAt := treeSize;
      Patch(value, BRANCH + treeSize);
      ghost var patched := tree[..];
      ghost var r;
      ok, r := BuildRec(rd, low, high, seeds);
      PatchedSlots(afterLeft, patched, tree[..], value, BRANCH + rightAt, rightAt);
      BodyBranchBit(rd.Bits(), p0, low.shape, high.shape, seeds);
      if !ok {
        return false, Leaf(0);
      }
      PlacedBranch(afterLeft, tree[..], l, r, value, rightAt, BRANCH);
      t := Node(l, r);
    }

    /**
     * smk_huff16_build: the structure for the tree BuildBigTree parses at the
     * reader's position, with (alloc_size - 12) / 4 slots, or null when that
     * parse fails; the reader stops after the closing bit.
     */
    static method Build(rd: BitReader, allocSize: u32) returns (h: BigTree?)
      requires rd.Valid()
      modifies rd
      ensures rd.Valid()
      ensures match BuildBigTree(rd.Bits(), old(rd.Pos()), Capacity(allocSize))
        case Ok(b, next) => && h != null && fresh(h) && fresh(h.tree) && fresh(h.cache) && h.Valid()
                            && h.shape == b.shape && h.cache[..] == b.cache && rd.Pos() == next
        case Fail(_) => h == null
    {
      var bit := rd.ReadBit();
      if bit < 0 {
        return null;
      }
      if bit == 1 {
        h := BuildPresent(rd, allocSize);
        if h == null {
          return null;
        }
      } else {
        h := new BigTree.Absent();
      }
      bit := rd.ReadBit();
      if bit != 0 {
        return null;
      }
    }

    /** The absent-tree part of smk_huff16_build: one slot holding the leaf 0, and an all-zero cache. */
    constructor Absent()
      ensures fresh(tree) && fresh(cache) && Valid()
      ensures shape == Leaf(0) && cache[..] == [0, 0, 0]
    {
      tree := new int[1](_ => 0);
      cache := new int[3](_ => 0);
      treeSize := 0;
      shape := Leaf(0);
      new;
      assert cache[..] == [0, 0, 0];
    }

    /** The present-tree part of smk_huff16_build: the two 8-bit trees, the seeds, then the slots. */
    static method BuildPresent(rd: BitReader, allocSize: u32) returns (h: BigTree?)
      requires rd.Valid()
      modifies rd
      ensures rd.Valid()
      ensures match ParsePresent(rd.Bits(), old(rd.Pos()), Capacity(allocSize))
        case Ok(b, next) => && h != null && fresh(h) && fresh(h.tree) && fresh(h.cache) && h.Valid()
                            && h.shape == b.shape && h.cache[..] == b.cache && rd.Pos() == next
        case Fail(_) => h == null
    {
      var low := Huff8.SmallTree.Build(rd);
      if low == null {
        return null;
      }
      var high := Huff8.SmallTree.Build(rd);
      if high == null {
        return null;
      }
      h := BuildSlots(rd, low, high, allocSize);
    }

    /** The seeds and the slots of smk_huff16_build, once both 8-bit trees are built. */
    static method BuildSlots(rd: BitReader, low: Huff8.SmallTree, high: Huff8.SmallTree, allocSize: u32) returns (h: BigTree?)
      requires rd.Valid() && low.Valid() && high.Valid()
      modifies rd
      ensures rd.Valid()
      ensures match ParseSlots(rd.Bits(), old(rd.Pos()), low.shape, high.shape, Capacity(allocSize))
        case Ok(b, next) => && h != null && fresh(h) && fresh(h.tree) && fresh(h.cache) && h.Valid()
                            && h.shape == b.shape && h.cache[..] == b.cache && rd.Pos() == next
        case Fail(_) => h == null
    {
      h := new BigTree(Capacity(allocSize));
      var ok := h.ReadCache(rd);
      if !ok {
        return null;
      }
      ghost var t;
      ok, t := h.BuildRec(rd, low, high, h.cache[..]);
      if !ok {
        return null;
      }
      h.shape := t;
    }

    /** The seed loop of smk_huff16_build: three values, each its low byte then its high byte. */
    method ReadCache(rd: BitReader) returns (ok: bool)
      requires rd.Valid() && cache.Length == 3
      modifies rd, cache
      ensures rd.Valid()
      ensures ok ==> ReadSeeds(rd.Bits(), old(rd.Pos()), 3) == Ok(cache[..], rd.Pos())
      ensures !ok ==> ReadSeeds(rd.Bits(), old(rd.Pos()), 3).Fail?
    {
      ghost var p0 := rd.Pos();
      ghost var bits := rd.Bits();
      for i := 0 to 3
        invariant rd.Valid() && rd.Bits() == bits && p0 <= rd.Pos()
        invariant ReadSeeds(bits, p0, i) == Ok(cache[..i], rd.Pos())
      {
        ghost var p := rd.Pos();
        var lo := rd.ReadByte();
        if lo < 0 {
          SeedFails(bits, p0, i, cache[..i], p);
          return false;
        }
        ghost var p1 := rd.Pos();
        var hi := rd.ReadByte();
        if hi < 0 {
          SeedFails(bits, p0, i, cache[..i], p);
          return false;
        }
        SeedStep(bits, p0, i, cache[..i], p, lo, p1, hi, rd.Pos());
        cache[i] := Join(lo, hi);
        assert cache[..i + 1] == cache[..i] + [Join(lo, hi)];
      }
      assert cache[..3] == cache[..];
      return true;
    }

    /**
     * smk_huff16_lookup: walk the slots from slot 0 as the 8-bit lookup does;
     * an escape slot stands for the cached value it names. The value found is
     * then moved to the front of the cache unless it is there already. When
     * the stream runs out the result is -1 and the cache is untouched.
     */
    method Lookup(rd: BitReader) returns (r: int)
      requires Valid() && rd.Valid()
      modifies rd, cache
      ensures rd.Valid() && Valid()
      ensures match Walk(shape, rd.Bits(), old(rd.Pos()))
        case Ok(s, next) => && IsLeafSlot(s) && r == Resolve(s, old(cache[..])) && rd.Pos() == next
                            && cache[..] == Promote(old(cache[..]), r)
        case Fail(at) => r == -1 && rd.Pos() == at && cache[..] == old(cache[..])
    {
      var index := FindSlot(rd);
      if index < 0 {
        return -1;
      }
      var value;
      if BitOf(tree[index], 30) {
        value := cache[tree[index] % CACHE];
      } else {
        value := tree[index];
      }
      if cache[0] != value {
        cache[2] := cache[1];
        cache[1] := cache[0];
        cache[0] := value;
      }
      r := value;
    }

    /** The walk of smk_huff16_lookup: the index of the leaf slot the bits lead to, or -1. */
    method FindSlot(rd: BitReader) returns (index: int)
      requires Valid() && rd.Valid()
      modifies rd
      ensures rd.Valid()
      ensures match Walk(shape, rd.Bits(), old(rd.Pos()))
        case Ok(s, next) => && 0 <= index < tree.Length && tree[index] == s && IsLeafSlot(s) && rd.Pos() == next
                            && (BitOf(s, 30) <==> s >= CACHE) && (s >= CACHE ==> s % CACHE == s - CACHE)
        case Fail(at) => index == -1 && rd.Pos() == at
    {
      index := 0;
      ghost var sub := shape;
      while BitOf(tree[index], 31)
        invariant rd.Valid() && 0 <= index && index + Size(sub) <= tree.Length
        invariant LeafSlots(sub) && Placed(tree[..], sub, index, BRANCH)
        invariant Walk(shape, rd.Bits(), old(rd.Pos())) == Walk(sub, rd.Bits(), rd.Pos())
        decreases Size(sub)
      {
        SlotTest(tree[..], sub, index);
        var bit := rd.ReadBit();
        if bit < 0 {
          return -1;
        }
        if bit == 1 {
          index := tree[index] % CACHE;
          sub := sub.right;
        } else {
          index := index + 1;
          sub := sub.left;
        }
      }
      SlotTest(tree[..], sub, index);
    }

    /** smk_huff16_reset: every cache slot back to 0. */
    method Reset()
      requires Valid()
      modifies cache
      ensures Valid() && cache[..] == [0, 0, 0]
    {
      cache[0], cache[1], cache[2] := 0, 0, 0;
    }

    /** The back-patch `tree[value] = SMK_HUFF16_BRANCH | tree_size`. */
    method Patch(slot: nat, v: int)
      requires slot < tree.Length
      modifies tree
      ensures tree[..] == old(tree[..])[slot := v]
    {
      tree[slot] := v;
    }

    /**
     * The leaf case of _smk_huff16_build_rec, entered after its 0 bit at p0:
     * the low byte from the low tree, the high byte from the high tree, the
     * joined value compared with cache[0], cache[1], cache[2] in turn.
     */
    method BuildLeaf(rd: BitReader, low: Huff8.SmallTree, high: Huff8.SmallTree, ghost seeds: seq<int>, ghost p0: nat)
      returns (ok: bool, ghost t: Tree<int>)
      requires rd.Valid() && low.Valid() && high.Valid() && low.tree != tree && high.tree != tree
      requires tree.Length < CACHE && treeSize <= tree.Length && CacheOk(seeds)
      requires cache.Length == 3 && cache[..] == seeds && cache != tree
      requires p0 < |rd.Bits()| && !rd.Bits()[p0] && rd.Pos() == p0 + 1
      modifies this, tree, rd
      ensures rd.Valid() && treeSize <= tree.Length
      ensures ok ==> && ParseBigBody(rd.Bits(), p0, low.shape, high.shape, seeds) == Ok(t, rd.Pos())
                     && treeSize == old(treeSize) + Size(t)
                     && Placed(tree[..], t, old(treeSize), BRANCH)
      ensures !ok ==> Unfit(ParseBigBody(rd.Bits(), p0, low.shape, high.shape, seeds), old(treeSize), tree.Length)
      ensures tree[..old(treeSize)] == old(tree[..treeSize])
    {
      var v := ReadLeaf(rd, low, high, seeds, p0);
      if v < 0 {
        return false, Leaf(0);
      }
      if treeSize >= tree.Length {
        return false, Leaf(0);
      }
      var s := StoreLeaf(v, seeds);
      return true, Leaf(s);
    }

    /** The two lookups of the leaf case: the low byte, then the high byte, joined; -1 when either lookup fails. */
    static method ReadLeaf(rd: BitReader, low: Huff8.SmallTree, high: Huff8.SmallTree, ghost seeds: seq<int>, ghost p0: nat)
      returns (v: int)
      requires rd.Valid() && low.Valid() && high.Valid() && CacheOk(seeds)
      requires p0 < |rd.Bits()| && !rd.Bits()[p0] && rd.Pos() == p0 + 1
      modifies rd
      ensures rd.Valid() && v < 0x1_0000
      ensures v >= 0 ==> ParseBigBody(rd.Bits(), p0, low.shape, high.shape, seeds) == Ok(Leaf(LeafSlot(v, seeds)), rd.Pos())
      ensures v < 0 ==> ParseBigBody(rd.Bits(), p0, low.shape, high.shape, seeds).Fail?
    {
      BodyLeafBit(rd.Bits(), p0, low.shape, high.shape, seeds);
      WalkBelow(low.shape, rd.Bits(), p0 + 1, 0x100);
      var lo := low.Lookup(rd);
      if lo < 0 {
        return -1;
      }
      WalkBelow(high.shape, rd.Bits(), rd.Pos(), 0x100);
      var hi := high.Lookup(rd);
      if hi < 0 {
        return -1;
      }
      v := lo + 256 * hi;
      assert v == Join(lo, hi);
    }

    /** Append one leaf slot: the value, or the escape to the cache slot already holding it. */
    method StoreLeaf(v: int, ghost seeds: seq<int>) returns (s: int)
      requires 0 <= v < 0x1_0000 && CacheOk(seeds) && cache.Length == 3 && cache[..] == seeds && cache != tree
      requires treeSize < tree.Length
      modifies this, tree
      ensures s == LeafSlot(v, seeds) && treeSize == old(treeSize) + 1
      ensures tree[..old(treeSize)] == old(tree[..treeSize])
      ensures Placed(tree[..], Leaf(s), old(treeSize), BRANCH)
    {
      s := v;
      if v == cache[0] {
        s := CACHE;
      } else if v == cache[1] {
        s := CACHE + 1;
      } else if v == cache[2] {
        s := CACHE + 2;
      }
      tree[treeSize] := s;
      treeSize := treeSize + 1;
    }
  }
}
