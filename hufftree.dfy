/**
 * The pointer-linked Huffman trees of smk_hufftree.c, the trees the frame
 * decoders use. The tree format is the one the array trees read, with
 * three differences: a tree must be present (a leading 0 bit fails), a
 * 16-bit leaf is `low | (high << 8)` with its cache slot kept in a separate
 * escape code, and the recently-used cache handles a hit in slot 1 by a swap.
 */
module HuffTree {
  import opened Bits
  import opened BitStream
  import opened CodeTree
  import opened Huff16

  /** The escape code of a leaf that holds its value directly. */
  const NO_ESCAPE := 0xFF

  /**
   * smk_huff_build: a leading 1 bit (a 0 fails), the tree read by
   * smk_huff_build_rec (a 1 bit is a branch, a 0 bit a leaf holding the
   * next 8 bits), then a closing 0 bit.
   */
  function BuildTree(bits: seq<bool>, pos: nat): (r: Parsed<Tree<int>>)
    requires pos <= |bits|
    ensures r.Ok? ==> && pos + 11 <= r.next <= |bits| && LeavesBelow(r.value, 0x100)
                      && bits[pos] && !bits[r.next - 1]
    ensures r.Fail? ==> pos <= r.at <= |bits|
  {
    match Read1(bits, pos)
    case Fail(at) => Fail(at)
    case Ok(present, p1) =>
      if !present then Fail(p1)
      else
        match ParseByteTree(bits, p1)
        case Fail(at) => Fail(at)
        case Ok(t, p2) =>
          assert p2 >= p1 + 9 by { ByteTreeLength(bits, p1); }
          Closing(bits, p2, t)
  }

  /** A tree body takes at least the nine bits of a leaf. */
  lemma {:induction false} ByteTreeLength(bits: seq<bool>, pos: nat)
    requires pos <= |bits| && ParseByteTree(bits, pos).Ok?
    ensures ParseByteTree(bits, pos).next >= pos + 9
    decreases |bits| - pos
  {
    if bits[pos] {
      ParseBranchBit(bits, pos);
      ByteTreeLength(bits, pos + 1);
    } else {
      ParseLeafBit(bits, pos);
    }
  }

  /** The bits a tree is written as: the leading 1, the pre-order body, the closing 0. */
  function EncodeTree(t: Tree<int>): (s: seq<bool>)
    requires LeavesBelow(t, 0x100)
    ensures |s| == |EncodeByteTree(t)| + 2 && s[0] && !s[|s| - 1]
  {
    [true] + EncodeByteTree(t) + [false]
  }

  /** Building a written tree gives the tree back and stops right after it. */
  lemma TreeRoundTrip(t: Tree<int>, bits: seq<bool>, pos: nat)
    requires LeavesBelow(t, 0x100)
    requires pos + |EncodeTree(t)| <= |bits| && bits[pos..pos + |EncodeTree(t)|] == EncodeTree(t)
    ensures BuildTree(bits, pos) == Ok(t, pos + |EncodeTree(t)|)
  {
    var e := EncodeByteTree(t);
    var p1, p2 := pos + 1, pos + 1 + |e|;
    Framed(bits, pos, e, p1, p2);
    ParseEncodedByteTree(t, bits, p1);
    BuildTreeOk(bits, pos, t, p1, p2);
  }

  /** A leading 1, a body that parses, and a closing 0. */
  lemma BuildTreeOk(bits: seq<bool>, pos: nat, t: Tree<int>, p1: nat, p2: nat)
    requires pos < |bits| && bits[pos] && p1 == pos + 1 && ParseByteTree(bits, p1) == Ok(t, p2)
    requires p2 < |bits| && !bits[p2]
    ensures BuildTree(bits, pos) == Ok(t, p2 + 1)
  {
  }

  /** The parts of a stretch of bits that reads 1, then e, then 0. */
  lemma Framed(bits: seq<bool>, pos: nat, e: seq<bool>, p1: nat, p2: nat)
    requires p1 == pos + 1 && p2 == p1 + |e| && p2 < |bits|
    requires bits[pos..p2 + 1] == [true] + e + [false]
    ensures bits[pos] && !bits[p2] && bits[p1..p2] == e
  {
    var s := bits[pos..p2 + 1];
    assert bits[pos] == s[0];
    assert bits[p2] == s[|e| + 1];
    SliceOfSlice(bits, pos, p2 + 1, 1, |e| + 1);
    assert s[1..|e| + 1] == e;
  }

  /** A 16-bit leaf: its value and its escape code, 0, 1 or 2 for a cache slot or NO_ESCAPE. */
  datatype BigLeaf = BigLeaf(value: int, escape: int)

  predicate BigLeafOk(leaf: BigLeaf)
  {
    0 <= leaf.value < 0x1_0000 && (0 <= leaf.escape < 3 || leaf.escape == NO_ESCAPE)
  }

  predicate BigLeaves(t: Tree<BigLeaf>)
  {
    match t
    case Leaf(leaf) => BigLeafOk(leaf)
    case Node(l, r) => BigLeaves(l) && BigLeaves(r)
  }

  /** The value a leaf stands for: the cache slot its escape code names, or its own value. */
  function LeafValue(leaf: BigLeaf, cache: seq<int>): (v: int)
    requires BigLeafOk(leaf) && CacheOk(cache)
    ensures 0 <= v < 0x1_0000
  {
    if leaf.escape != NO_ESCAPE then cache[leaf.escape] else leaf.value
  }

  /**
   * The leaf smk_huff_big_build_rec makes for a value: the escape code is the
   * first cache slot holding the value, in the order 0, 1, 2, or NO_ESCAPE.
   * Under the cache it was made with, the leaf stands for the value.
   */
  function MakeLeaf(v: int, cache: seq<int>): (leaf: BigLeaf)
    requires 0 <= v < 0x1_0000 && CacheOk(cache)
    ensures BigLeafOk(leaf) && leaf.value == v && LeafValue(leaf, cache) == v
    ensures leaf.escape == NO_ESCAPE <==> v !in cache
    ensures leaf.escape != NO_ESCAPE ==> forall j :: 0 <= j < leaf.escape ==> cache[j] != v
  {
    var e := if v == cache[0] then 0 else if v == cache[1] then 1 else if v == cache[2] then 2 else NO_ESCAPE;
    BigLeaf(v, e)
  }

  /**
   * smk_huff_big_build_rec: a 1 bit is a branch, its left then its right
   * subtree; a 0 bit is a leaf whose low byte the low tree decodes and whose
   * high byte the high tree decodes. The build can only fail by running out
   * of bits.
   */
  function ParseBigRec(bits: seq<bool>, pos: nat, low: Tree<int>, high: Tree<int>, cache: seq<int>): (r: Parsed<Tree<BigLeaf>>)
    requires pos <= |bits| && LeavesBelow(low, 0x100) && LeavesBelow(high, 0x100) && CacheOk(cache)
    ensures r.Ok? ==> pos < r.next <= |bits| && BigLeaves(r.value)
    ensures r.Fail? ==> r.at == |bits|
    decreases |bits| - pos
  {
    match Read1(bits, pos)
    case Fail(at) => Fail(at)
    case Ok(b, p1) =>
      if b then
        match ParseBigRec(bits, p1, low, high, cache)
        case Fail(at) => Fail(at)
        case Ok(l, p2) =>
          match ParseBigRec(bits, p2, low, high, cache)
          case Fail(at) => Fail(at)
          case Ok(rt, p3) => Ok(Node(l, rt), p3)
      else
        match Walk(low, bits, p1)
        case Fail(at) => Fail(at)
        case Ok(lo, p2) =>
          match Walk(high, bits, p2)
          case Fail(at) => Fail(at)
          case Ok(hi, p3) =>
            WalkBelow(low, bits, p1, 0x100);
            WalkBelow(high, bits, p2, 0x100);
            Ok(Leaf(MakeLeaf(Join(lo, hi), cache)), p3)
  }

  /** The byte a reader at bit position pos (pos >= 1) last read from: its byte_num. */
  function ByteNum(pos: nat): int
  {
    (pos - 1) / 8
  }

  /** The guard of smk_huff_big_build before the seeds: it goes on only when byte_num + 7 < size. */
  predicate SeedGuardAsWritten(byteNum: int, size: nat)
  {
    byteNum + 7 < size
  }

  /** The guard the seeds need: six whole bytes after the current one, byte_num + 6 < size. */
  predicate SeedRoom(byteNum: int, size: nat)
  {
    byteNum + 6 < size
  }

  /** SeedRoom holds exactly when the 48 bits of the three seeds remain. */
  lemma SeedRoomExact(bits: seq<bool>, pos: nat)
    requires 1 <= pos <= |bits| && |bits| % 8 == 0
    ensures SeedRoom(ByteNum(pos), |bits| / 8) <==> pos + 48 <= |bits|
    ensures ReadSeeds(bits, pos, 3).Ok? <==> pos + 48 <= |bits|
  {
    var b, size := ByteNum(pos), |bits| / 8;
    assert 8 * b <= pos - 1 < 8 * b + 8;
    assert |bits| == 8 * size;
    SeedsLength(bits, pos, 3);
  }

  /** n seeds can be read exactly when 16 n bits remain. */
  lemma {:induction false} SeedsLength(bits: seq<bool>, pos: nat, n: nat)
    requires pos <= |bits|
    ensures ReadSeeds(bits, pos, n).Ok? <==> pos + 16 * n <= |bits|
  {
    if n > 0 {
      SeedsLength(bits, pos, n - 1);
    }
  }

  /**
   * An 11-byte stream holding a whole big tree: the leading 1, a low tree with
   * two leaves, a high tree with one leaf, three zero seeds, a leaf of the
   * body, the closing 0 and four bits of padding.
   */
  function GuardStream(): (bits: seq<bool>)
    ensures |bits| == 88
  {
    [true] + EncodeTree(Node(Leaf(0), Leaf(0))) + EncodeTree(Leaf(0)) + seq(48, _ => false) + [false, false, false] + seq(4, _ => false)
  }

  /**
   * The guard as written turns that stream away: after the two 8-bit trees
   * the reader is at bit 33, in byte 4, and 4 + 7 is not below 11, although
   * the seeds, the body and the closing bit all fit and the build succeeds.
   */
  lemma SeedGuardTooStrict()
    ensures BuildTree(GuardStream(), 1) == Ok(Node(Leaf(0), Leaf(0)), 22)
    ensures BuildTree(GuardStream(), 22) == Ok(Leaf(0), 33)
    ensures !SeedGuardAsWritten(ByteNum(33), |GuardStream()| / 8)
    ensures BuildBig(GuardStream(), 0).Ok? && BuildBig(GuardStream(), 0).next == 84
  {
    GuardTrees();
    GuardBody();
    SeedRoomExact(GuardStream(), 33);
  }

  /** The two 8-bit trees of the guard stream, read back. */
  lemma GuardTrees()
    ensures BuildTree(GuardStream(), 1) == Ok(Node(Leaf(0), Leaf(0)), 22)
    ensures BuildTree(GuardStream(), 22) == Ok(Leaf(0), 33)
  {
    var bits := GuardStream();
    var low, high: Tree<int> := Node(Leaf(0), Leaf(0)), Leaf(0);
    var el, eh := EncodeTree(low), EncodeTree(high);
    assert |el| == 21 && |eh| == 11;
    assert bits[1..22] == el;
    assert bits[22..33] == eh;
    TreeRoundTrip(low, bits, 1);
    TreeRoundTrip(high, bits, 22);
  }

  /** The seeds, the one-leaf body and the closing bit of the guard stream. */
  lemma GuardBody()
    ensures BigBody(GuardStream(), 33, Node(Leaf(0), Leaf(0)), Leaf(0)).Ok?
    ensures BigBody(GuardStream(), 33, Node(Leaf(0), Leaf(0)), Leaf(0)).next == 84
  {
    var bits := GuardStream();
    var low, high: Tree<int> := Node(Leaf(0), Leaf(0)), Leaf(0);
    SeedsLength(bits, 33, 3);
    var seeds := ReadSeeds(bits, 33, 3).value;
    assert !bits[81] && !bits[82] && !bits[83];
    assert ParseBigRec(bits, 81, low, high, seeds) == Ok(Leaf(MakeLeaf(Join(0, 0), seeds)), 83);
  }

  /** What smk_huff_big_build yields: the tree and the seeded cache. */
  datatype BigBuilt = BigBuilt(shape: Tree<BigLeaf>, cache: seq<int>)

  /**
   * smk_huff_big_build: a leading 1 bit (a 0 fails), the low and the high
   * 8-bit trees, room for the seeds, three seeds (each low byte then high
   * byte), the tree body and a closing 0 bit.
   */
  function BuildBig(bits: seq<bool>, pos: nat): (r: Parsed<BigBuilt>)
    requires pos <= |bits|
    ensures r.Ok? ==> && pos < r.next <= |bits| && bits[pos]
                      && BigLeaves(r.value.shape) && CacheOk(r.value.cache)
    ensures r.Fail? ==> pos <= r.at <= |bits|
  {
    match Read1(bits, pos)
    case Fail(at) => Fail(at)
    case Ok(present, p1) =>
      if !present then Fail(p1)
      else
        match BuildTree(bits, p1)
        case Fail(at) => Fail(at)
        case Ok(low, p2) =>
          match BuildTree(bits, p2)
          case Fail(at) => Fail(at)
          case Ok(high, p3) =>
            if !SeedRoom(ByteNum(p3), |bits| / 8) then Fail(p3)
            else BigBody(bits, p3, low, high)
  }

  /** The seeds, the tree body and the closing bit of a big tree. */
  function BigBody(bits: seq<bool>, pos: nat, low: Tree<int>, high: Tree<int>): (r: Parsed<BigBuilt>)
    requires pos <= |bits| && LeavesBelow(low, 0x100) && LeavesBelow(high, 0x100)
    ensures r.Ok? ==> && pos < r.next <= |bits|
                      && BigLeaves(r.value.shape) && CacheOk(r.value.cache)
    ensures r.Fail? ==> pos <= r.at <= |bits|
  {
    match ReadSeeds(bits, pos, 3)
    case Fail(at) => Fail(at)
    case Ok(seeds, p4) =>
      match ParseBigRec(bits, p4, low, high, seeds)
      case Fail(at) => Fail(at)
      case Ok(t, p5) => Closing(bits, p5, BigBuilt(t, seeds))
  }

  /**
   * The cache after a lookup returned v, as smk_huff_big_lookup_rec shuffles
   * it: unchanged when v is in slot 0; slots 0 and 1 swapped when v is in
   * slot 1; otherwise v in front and the others one slot back, the last one
   * dropped. v ends up in front, and a value already cached is only moved.
   */
  function MoveToFront(cache: seq<int>, v: int): (c: seq<int>)
    requires CacheOk(cache) && 0 <= v < 0x1_0000
    ensures CacheOk(c) && c[0] == v
    ensures v !in cache ==> c[1..] == cache[..2]
  {
    if cache[0] == v then cache
    else if cache[1] == v then [v, cache[0], cache[2]]
    else [v, cache[0], cache[1]]
  }

  /** A lookup of a value already cached only reorders the cache. */
  lemma MoveToFrontPermutes(cache: seq<int>, v: int)
    requires CacheOk(cache) && 0 <= v < 0x1_0000 && v in cache
    ensures multiset(MoveToFront(cache, v)) == multiset(cache)
  {
    var a, b, c := cache[0], cache[1], cache[2];
    assert cache == [a, b, c];
    Rotations(a, b, c);
  }

  lemma Rotations(a: int, b: int, c: int)
    ensures multiset([b, a, c]) == multiset([a, b, c]) && multiset([c, a, b]) == multiset([a, b, c])
  {
    SwapFront(a, b, c);
    RotateBack(a, b, c);
  }

  lemma SwapFront(a: int, b: int, c: int)
    ensures multiset([b, a, c]) == multiset([a, b, c])
  {
  }

  lemma RotateBack(a: int, b: int, c: int)
    ensures multiset([c, a, b]) == multiset([a, b, c])
  {
  }

  /**
   * The shuffle of smk_huff16_lookup differs from this one only in slot 2,
   * and only when the value sat in slot 1 behind a different slot 0 and
   * in front of a different slot 2: there it duplicates the value and drops
   * the old slot 2.
   */
  lemma MoveToFrontVsPromote(cache: seq<int>, v: int)
    requires CacheOk(cache) && 0 <= v < 0x1_0000
    ensures MoveToFront(cache, v)[..2] == Promote(cache, v)[..2]
    ensures MoveToFront(cache, v) != Promote(cache, v) <==> cache[0] != v && cache[1] == v && cache[2] != v
  {
    var m, p := MoveToFront(cache, v), Promote(cache, v);
    if cache[0] != v && cache[1] == v && cache[2] != v {
      assert m[2] != p[2];
    }
  }

  /** A walk of a tree of well-formed leaves ends at a well-formed leaf. */
  lemma {:induction false} WalkBigLeaf(t: Tree<BigLeaf>, bits: seq<bool>, pos: nat)
    requires pos <= |bits| && BigLeaves(t)
    ensures Walk(t, bits, pos).Ok? ==> BigLeafOk(Walk(t, bits, pos).value)
    decreases t
  {
    match t
    case Leaf(_) =>
    case Node(l, r) =>
      if pos < |bits| {
        if bits[pos] {
          WalkBigLeaf(r, bits, pos + 1);
        } else {
          WalkBigLeaf(l, bits, pos + 1);
        }
      }
  }

  /** The outcome of a big-tree lookup: the value and the cache after it. */
  datatype Looked = Looked(value: int, cache: seq<int>)

  /**
   * smk_huff_big_lookup: walk to a leaf, take the value it stands for under
   * the current cache, then move that value to the front of the cache.
   */
  function BigLookup(t: Tree<BigLeaf>, cache: seq<int>, bits: seq<bool>, pos: nat): (r: Parsed<Looked>)
    requires pos <= |bits| && BigLeaves(t) && CacheOk(cache)
    ensures r.Ok? ==> && 0 <= r.value.value < 0x1_0000 && CacheOk(r.value.cache)
                      && r.value.cache[0] == r.value.value && pos <= r.next <= |bits|
    ensures r.Fail? ==> r.at == |bits|
  {
    match Walk(t, bits, pos)
    case Fail(at) => Fail(at)
    case Ok(leaf, next) =>
      WalkBigLeaf(t, bits, pos);
      var v := LeafValue(leaf, cache);
      Ok(Looked(v, MoveToFront(cache, v)), next)
  }

  /**
   * A leaf built under a cache decodes to the value it was built from as long
   * as the lookup sees that same cache: the escape codes are a faithful
   * stand-in for the cached values.
   */
  lemma LookupBuiltLeaf(v: int, cache: seq<int>, bits: seq<bool>, pos: nat)
    requires 0 <= v < 0x1_0000 && CacheOk(cache) && pos <= |bits|
    ensures BigLookup(Leaf(MakeLeaf(v, cache)), cache, bits, pos) == Ok(Looked(v, MoveToFront(cache, v)), pos)
  {
  }

  /** struct smk_huff_big_t: the tree and the three-slot cache its lookups update in place. */
  class HuffBig {
    const t: Tree<BigLeaf>
    const cache: array<int>

    ghost predicate Valid()
      reads this, cache
    {
      cache.Length == 3 && CacheOk(cache[..]) && BigLeaves(t)
    }

    /** The structure smk_huff_big_build returns for a successful build. */
    constructor (b: BigBuilt)
      requires BigLeaves(b.shape) && CacheOk(b.cache)
      ensures Valid() && fresh(cache) && t == b.shape && cache[..] == b.cache
    {
      t := b.shape;
      cache := new int[3](i requires 0 <= i < 3 => b.cache[i]);
      new;
      assert cache[..] == b.cache;
    }

    /** smk_huff_big_lookup: BigLookup, with the cache updated in place. */
    method Lookup(rd: BitReader) returns (r: int)
      requires Valid() && rd.Valid()
      modifies rd, cache
      ensures rd.Valid() && Valid()
      ensures match BigLookup(t, old(cache[..]), rd.Bits(), old(rd.Pos()))
        case Ok(lk, next) => r == lk.value && cache[..] == lk.cache && rd.Pos() == next
        case Fail(at) => r == -1 && rd.Pos() == at && cache[..] == old(cache[..])
    {
      WalkBigLeaf(t, rd.Bits(), rd.Pos());
      r := LookupRec(rd, t);
    }

    /**
     * smk_huff_big_lookup_rec: at a leaf, the value it stands for, moved to
     * the front of the cache; at a branch, read a bit and go on in the right
     * (1) or left (0) subtree, or give -1 when no bit is left.
     */
    method LookupRec(rd: BitReader, node: Tree<BigLeaf>) returns (r: int)
      requires Valid() && rd.Valid() && BigLeaves(node)
      modifies rd, cache
      ensures rd.Valid() && Valid()
      ensures match Walk(node, rd.Bits(), old(rd.Pos()))
        case Ok(leaf, next) => && BigLeafOk(leaf) && r == LeafValue(leaf, old(cache[..]))
                               && cache[..] == MoveToFront(old(cache[..]), r) && rd.Pos() == next
        case Fail(at) => r == -1 && rd.Pos() == at && cache[..] == old(cache[..])
      decreases node
    {
      match node
      case Leaf(leaf) =>
        r := Hit(leaf);
      case Node(left, right) =>
        var bit := rd.ReadBit();
        if bit < 0 {
          return -1;
        }
        if bit == 1 {
          r := LookupRec(rd, right);
        } else {
          r := LookupRec(rd, left);
        }
    }

    /** The leaf case of smk_huff_big_lookup_rec: the value the leaf stands for, moved to the front of the cache. */
    method Hit(leaf: BigLeaf) returns (val: int)
      requires Valid() && BigLeafOk(leaf)
      modifies cache
      ensures Valid()
      ensures val == LeafValue(leaf, old(cache[..])) && cache[..] == MoveToFront(old(cache[..]), val)
    {
      ghost var c := cache[..];
      if leaf.escape != NO_ESCAPE {
        val := cache[leaf.escape];
      } else {
        val := leaf.value;
      }
      if cache[0] != val {
        if cache[1] == val {
          cache[1] := cache[0];
          cache[0] := val;
          assert cache[..] == [val, c[0], c[2]];
        } else {
          cache[2] := cache[1];
          cache[1] := cache[0];
          cache[0] := val;
          assert cache[..] == [val, c[0], c[1]];
        }
      }
    }

    /** smk_huff_big_reset: every cache slot back to 0, the tree untouched. */
    method Reset()
      requires Valid()
      modifies cache
      ensures Valid() && cache[..] == [0, 0, 0]
    {
      cache[0] := 0;
      cache[1] := 0;
      cache[2] := 0;
    }
  }
}
