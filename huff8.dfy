/**
 * The 8-bit Huffman tree of smk_huff8.c: the pre-order tree format parsed
 * into a fixed array of 511 slots, where a branch slot is back-patched with
 * the index of its right child once its left subtree is in place.
 */
module Huff8 {
  import opened Bits
  import opened BitStream
  import opened CodeTree

  /** SMK_HUFF8_BRANCH; the low 15 bits of a branch slot (SMK_HUFF8_LEAF_MASK) hold the right child's index. */
  const BRANCH := 0x8000

  /** The fixed storage of struct smk_huff8_t: 256 leaves and 255 branches. */
  const CAPACITY := 511

  /**
   * What _smk_huff8_build reads: a presence bit, then the tree body when it
   * is 1 (an absent tree behaves as a single leaf holding 0), then a closing
   * bit that must be 0. No bound on the tree's size is applied here.
   */
  function ParseSmallTree(bits: seq<bool>, pos: nat): (r: Parsed<Tree<int>>)
    requires pos <= |bits|
    ensures r.Ok? ==> pos + 2 <= r.next <= |bits| && LeavesBelow(r.value, 0x100)
  {
    match Read1(bits, pos)
    case Fail(at) => Fail(at)
    case Ok(present, p1) =>
      var body := if present then ParseByteTree(bits, p1) else Ok(Leaf(0), p1);
      match body
      case Fail(at) => Fail(at)
      case Ok(t, p2) => Closing(bits, p2, t)
  }

  /**
   * What _smk_huff8_build yields once its storage bound is enforced: the
   * parsed tree when it fits in the 511 slots, a failure otherwise.
   */
  function BuildSmallTree(bits: seq<bool>, pos: nat): (r: Parsed<Tree<int>>)
    requires pos <= |bits|
    ensures r.Ok? ==> && pos + 2 <= r.next <= |bits| && LeavesBelow(r.value, 0x100)
                      && Size(r.value) <= CAPACITY
    ensures r.Ok? <==> ParseSmallTree(bits, pos).Ok? && Size(ParseSmallTree(bits, pos).value) <= CAPACITY
  {
    match ParseSmallTree(bits, pos)
    case Fail(at) => Fail(at)
    case Ok(t, next) => if Size(t) <= CAPACITY then Ok(t, next) else Fail(pos)
  }

  /** A leading 0 bit and the closing 0 bit give the absent tree, which decodes 0 from any stream without reading. */
  lemma AbsentTree(bits: seq<bool>, pos: nat, at: nat)
    requires pos + 2 <= |bits| && !bits[pos] && !bits[pos + 1]
    requires at <= |bits|
    ensures ParseSmallTree(bits, pos) == Ok(Leaf(0), pos + 2)
    ensures Walk(Leaf(0), bits, at) == Ok(0, at)
  {
  }

  /** A tree that is a chain of n branches, each with a leaf on its left. */
  function Comb(n: nat): (t: Tree<int>)
    ensures LeavesBelow(t, 0x100) && Size(t) == 2 * n + 1
  {
    if n == 0 then Leaf(0) else Node(Leaf(0), Comb(n - 1))
  }

  /**
   * The format admits trees larger than the 511-slot storage: a chain of
   * 256 branches, properly opened and closed, parses successfully yet needs
   * 513 slots.
   */
  lemma OversizedTreeParses()
    ensures var bits := [true] + EncodeByteTree(Comb(256)) + [false];
      && ParseSmallTree(bits, 0) == Ok(Comb(256), |bits|)
      && Size(Comb(256)) > CAPACITY
  {
    var e := EncodeByteTree(Comb(256));
    var bits := [true] + e + [false];
    assert bits[1..1 + |e|] == e;
    ParseEncodedByteTree(Comb(256), bits, 1);
    assert bits[1 + |e|] == false;
  }

  /** struct smk_huff8_t. `shape` is the tree the slots hold. */
  class SmallTree {
    const tree: array<int>
    var treeSize: nat
    ghost var shape: Tree<int>

    ghost predicate Valid()
      reads this, tree
    {
      && tree.Length == CAPACITY
      && treeSize <= CAPACITY
      && LeavesBelow(shape, 0x100)
      && Placed(tree[..], shape, 0, BRANCH)
    }

    /** The freshly allocated structure: tree_size = 0, slots not yet written. */
    constructor ()
      ensures tree.Length == CAPACITY && treeSize == 0 && fresh(tree)
    {
      tree := new int[CAPACITY];
      treeSize := 0;
      shape := Leaf(0);
    }

    /**
     * _smk_huff8_build_rec: parse one subtree into the slots from tree_size
     * on. Unlike the source, a slot index at or past the storage fails the
     * build instead of writing outside the array. `t` is the subtree built.
     */
    method BuildRec(rd: BitReader) returns (ok: bool, ghost t: Tree<int>)
      requires rd.Valid() && tree.Length == CAPACITY && treeSize <= CAPACITY
      modifies this, tree, rd
      ensures rd.Valid() && treeSize <= CAPACITY
      ensures ok ==> && ParseByteTree(rd.Bits(), old(rd.Pos())) == Ok(t, rd.Pos())
                     && treeSize == old(treeSize) + Size(t)
                     && Placed(tree[..], t, old(treeSize), BRANCH)
      ensures !ok ==> Unfit(ParseByteTree(rd.Bits(), old(rd.Pos())), old(treeSize), CAPACITY)
      ensures tree[..old(treeSize)] == old(tree[..treeSize])
      decreases |rd.Bits()| - rd.Pos(), 0
    {
      ghost var p0 := rd.Pos();
      var bit := rd.ReadBit();
      if bit < 0 {
        return false, Leaf(0);
      }
      if bit == 1 {
        ok, t := BuildBranch(rd, p0);
      } else {
        ok, t := BuildLeaf(rd, p0);
      }
    }

    /** The branch case of _smk_huff8_build_rec, entered after its 1 bit at p0. */
    method BuildBranch(rd: BitReader, ghost p0: nat) returns (ok: bool, ghost t: Tree<int>)
      requires rd.Valid() && tree.Length == CAPACITY && treeSize <= CAPACITY
      requires p0 < |rd.Bits()| && rd.Bits()[p0] && rd.Pos() == p0 + 1
      modifies this, tree, rd
      ensures rd.Valid() && treeSize <= CAPACITY
      ensures ok ==> && ParseByteTree(rd.Bits(), p0) == Ok(t, rd.Pos())
                     && treeSize == old(treeSize) + Size(t)
                     && Placed(tree[..], t, old(treeSize), BRANCH)
      ensures !ok ==> Unfit(ParseByteTree(rd.Bits(), p0), old(treeSize), CAPACITY)
      ensures tree[..old(treeSize)] == old(tree[..treeSize])
      decreases |rd.Bits()| - rd.Pos(), 2
    {
      if treeSize >= CAPACITY {
        return false, Leaf(0);
      }
      var value := treeSize;
      treeSize := treeSize + 1;
      ghost var original := tree[..];
      ghost var l;
      ok, l := BuildRec(rd);
      PrefixShrink(tree[..], original, value, value + 1);
      if !ok {
        ParseBranchBit(rd.Bits(), p0);
        return false, Leaf(0);
      }
      ok, t := BuildRight(rd, p0, value, l);
    }

    /**
     * The rest of the branch case, once the left subtree is in place: patch
     * the branch slot `value` with the right child's index, then build the
     * right subtree.
     */
    method BuildRight(rd: BitReader, ghost p0: nat, value: nat, ghost l: Tree<int>) returns (ok: bool, ghost t: Tree<int>)
      requires rd.Valid() && tree.Length == CAPACITY && treeSize <= CAPACITY
      requires p0 < |rd.Bits()| && rd.Bits()[p0]
      requires ParseByteTree(rd.Bits(), p0 + 1) == Ok(l, rd.Pos())
      requires treeSize == value + 1 + Size(l)
      requires Placed(tree[..], l, value + 1, BRANCH)
      modifies this, tree, rd
      ensures rd.Valid() && treeSize <= CAPACITY
      ensures ok ==> && ParseByteTree(rd.Bits(), p0) == Ok(t, rd.Pos())
                     && treeSize == value + Size(t)
                     && Placed(tree[..], t, value, BRANCH)
      ensures !ok ==> Unfit(ParseByteTree(rd.Bits(), p0), value, CAPACITY)
      ensures tree[..value] == old(tree[..value])
      decreases |rd.Bits()| - rd.Pos(), 1
    {
      ghost var afterLeft := tree[..];
      ghost var rightAt := treeSize;
      Patch(value, BRANCH + treeSize);
      ghost var patched := tree[..];
      ghost var r;
      ok, r := BuildRec(rd);
      PatchedSlots(afterLeft, patched, tree[..], value, BRANCH + rightAt, rightAt);
      ParseBranchBit(rd.Bits(), p0);
      if !ok {
        return false, Leaf(0);
      }
      PlacedBranch(afterLeft, tree[..], l, r, value, rightAt, BRANCH);
      t := Node(l, r);
    }

    /** The back-patch of a branch slot with the index of its right child. */
    method Patch(slot: nat, v: int)
      requires slot < tree.Length
      modifies tree
      ensures tree[..] == old(tree[..])[slot := v]
    {
      tree[slot] := v;
    }

    /** The leaf case of _smk_huff8_build_rec, entered after its 0 bit at p0. */
    method BuildLeaf(rd: BitReader, ghost p0: nat) returns (ok: bool, ghost t: Tree<int>)
      requires rd.Valid() && tree.Length == CAPACITY && treeSize <= CAPACITY
      requires p0 < |rd.Bits()| && !rd.Bits()[p0] && rd.Pos() == p0 + 1
      modifies this, tree, rd
      ensures rd.Valid() && treeSize <= CAPACITY
      ensures ok ==> && ParseByteTree(rd.Bits(), p0) == Ok(t, rd.Pos())
                     && treeSize == old(treeSize) + Size(t)
                     && Placed(tree[..], t, old(treeSize), BRANCH)
      ensures !ok ==> Unfit(ParseByteTree(rd.Bits(), p0), old(treeSize), CAPACITY)
      ensures tree[..old(treeSize)] == old(tree[..treeSize])
    {
      ParseLeafBit(rd.Bits(), p0);
      var v := rd.ReadByte();
      if v < 0 {
        return false, Leaf(0);
      }
      if treeSize >= CAPACITY {
        return false, Leaf(0);
      }
      tree[treeSize] := v;
      treeSize := treeSize + 1;
      return true, Leaf(v);
    }

    /**
     * _smk_huff8_build: read the presence bit, build the tree when it is 1
     * (tree_size starts at 0) or store the single leaf 0 when it is 0, then
     * read the closing bit. A tree that needs more than the 511 slots fails
     * the build here; the source writes past its storage instead.
     */
    static method Build(rd: BitReader) returns (h: SmallTree?)
      requires rd.Valid()
      modifies rd
      ensures rd.Valid()
      ensures match BuildSmallTree(rd.Bits(), old(rd.Pos()))
        case Ok(t, next) => && h != null && fresh(h) && fresh(h.tree) && h.Valid()
                            && h.shape == t && rd.Pos() == next
        case Fail(_) => h == null
    {
      ghost var p0 := rd.Pos();
      var bit := rd.ReadBit();
      if bit < 0 {
        return null;
      }
      h := new SmallTree();
      ghost var t;
      if bit == 1 {
        var ok;
        ok, t := h.BuildRec(rd);
        if !ok {
          return null;
        }
      } else {
        h.tree[0] := 0;
        t := Leaf(0);
      }
      h.shape := t;
      bit := rd.ReadBit();
      if bit != 0 {
        return null;
      }
    }

    /**
     * _smk_huff8_lookup: from slot 0, while the slot is a branch read a bit
     * and go to the right child's slot (1) or the next slot (0); return the
     * leaf slot's value, or -1 when the stream runs out. This is the walk of
     * the tree the slots hold.
     */
    method Lookup(rd: BitReader) returns (r: int)
      requires Valid() && rd.Valid()
      modifies rd
      ensures rd.Valid()
      ensures match Walk(shape, rd.Bits(), old(rd.Pos()))
        case Ok(v, next) => r == v && rd.Pos() == next
        case Fail(at) => r == -1 && rd.Pos() == at
    {
      var index: nat := 0;
      ghost var sub := shape;
      while BitOf(tree[index], 15)
        invariant rd.Valid() && index + Size(sub) <= CAPACITY
        invariant LeavesBelow(sub, 0x100) && Placed(tree[..], sub, index, BRANCH)
        invariant Walk(shape, rd.Bits(), old(rd.Pos())) == Walk(sub, rd.Bits(), rd.Pos())
        decreases Size(sub)
      {
        SlotTest(tree[..], sub, index);
        var bit := rd.ReadBit();
        if bit < 0 {
          return -1;
        }
        if bit == 1 {
          index := tree[index] % BRANCH;
          sub := sub.right;
        } else {
          index := index + 1;
          sub := sub.left;
        }
      }
      SlotTest(tree[..], sub, index);
      r := tree[index];
    }
  }

  /** A slot holding a placed subtree has bit 15 set exactly when the subtree is a branch, whose low 15 bits then index its right child. */
  lemma SlotTest(a: seq<int>, sub: Tree<int>, index: nat)
    requires index + Size(sub) <= CAPACITY && LeavesBelow(sub, 0x100) && Placed(a, sub, index, BRANCH)
    ensures 0 <= a[index] < 0x1_0000
    ensures BitOf(a[index], 15) <==> sub.Node?
    ensures sub.Node? ==> a[index] % BRANCH == index + 1 + Size(sub.left)
  {
    match sub
    case Leaf(v) =>
      Bit15(v);
    case Node(l, _) =>
      var k := index + 1 + Size(l);
      Bit15(BRANCH + k);
      DivModUnique(BRANCH + k, BRANCH, 1, k);
  }
}
