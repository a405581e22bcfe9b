/**
 * The Smacker Huffman tree shape shared by every tree implementation of
 * the decoder: a binary tree read in pre-order from the bit stream, walked
 * by following 1 bits to the right child and 0 bits to the left child, and
 * (in the array implementations) flattened in pre-order into slots.
 */
module CodeTree {
  import opened Bits
  import opened BitStream

  datatype Tree<L> = Leaf(value: L) | Node(left: Tree<L>, right: Tree<L>)

  /**
   * The closing bit every tree ends with: a 0, or the build fails, with the
   * offending 1 bit consumed.
   */
  function Closing<T>(bits: seq<bool>, pos: nat, v: T): (r: Parsed<T>)
    requires pos <= |bits|
    ensures r.Ok? <==> pos < |bits| && !bits[pos]
    ensures r.Ok? ==> r.value == v && r.next == pos + 1
    ensures r.Fail? ==> r.at == if pos < |bits| then pos + 1 else pos
  {
    match Read1(bits, pos)
    case Fail(at) => Fail(at)
    case Ok(b, next) => if b then Fail(next) else Ok(v, next)
  }

  /** Number of nodes, which is also the number of array slots the flattened tree occupies. */
  function Size<L>(t: Tree<L>): (n: nat)
    ensures n >= 1
  {
    match t
    case Leaf(_) => 1
    case Node(l, r) => 1 + Size(l) + Size(r)
  }

  /** Every leaf value lies in [0, bound). */
  predicate LeavesBelow(t: Tree<int>, bound: int)
  {
    match t
    case Leaf(v) => 0 <= v < bound
    case Node(l, r) => LeavesBelow(l, bound) && LeavesBelow(r, bound)
  }

  /**
   * Decoding one symbol: from the root, each bit read picks the right child
   * (1) or the left child (0) until a leaf is reached. A leaf root reads no
   * bit. Running out of bits fails at the end of the stream.
   */
  function Walk<L>(t: Tree<L>, bits: seq<bool>, pos: nat): (r: Parsed<L>)
    requires pos <= |bits|
    ensures r.Ok? ==> pos <= r.next <= |bits|
    ensures r.Fail? ==> r.at == |bits|
  {
    match t
    case Leaf(v) => Ok(v, pos)
    case Node(l, rt) =>
      match Read1(bits, pos)
      case Fail(at) => Fail(at)
      case Ok(b, next) => Walk(if b then rt else l, bits, next)
  }

  /** A walk ends at one of the tree's leaves, so it returns a value within the leaves' bound. */
  lemma {:induction false} WalkBelow(t: Tree<int>, bits: seq<bool>, pos: nat, bound: int)
    requires pos <= |bits| && LeavesBelow(t, bound)
    ensures Walk(t, bits, pos).Ok? ==> 0 <= Walk(t, bits, pos).value < bound
  {
    match t
    case Leaf(_) =>
    case Node(l, r) =>
      if pos < |bits| {
        WalkBelow(if bits[pos] then r else l, bits, pos + 1, bound);
      }
  }

  /** The bit string `path` leads from the root of t to a leaf holding v. */
  ghost predicate LeadsTo<L>(t: Tree<L>, path: seq<bool>, v: L)
  {
    match t
    case Leaf(x) => path == [] && x == v
    case Node(l, r) => |path| > 0 && LeadsTo(if path[0] then r else l, path[1..], v)
  }

  /** Feeding a leaf's path to the walk returns that leaf's value and consumes exactly the path. */
  lemma {:induction false} WalkFollowsPath<L>(t: Tree<L>, path: seq<bool>, v: L, bits: seq<bool>, pos: nat)
    requires LeadsTo(t, path, v)
    requires pos + |path| <= |bits| && bits[pos..pos + |path|] == path
    ensures Walk(t, bits, pos) == Ok(v, pos + |path|)
  {
    match t
    case Leaf(_) =>
    case Node(l, r) =>
      assert bits[pos] == path[0];
      assert bits[pos + 1..pos + 1 + |path[1..]|] == path[1..];
      WalkFollowsPath(if path[0] then r else l, path[1..], v, bits, pos + 1);
  }

  /** Conversely, every successful walk followed the path of the leaf it returns. */
  lemma {:induction false} WalkTakesPath<L>(t: Tree<L>, bits: seq<bool>, pos: nat)
    requires pos <= |bits| && Walk(t, bits, pos).Ok?
    ensures LeadsTo(t, bits[pos..Walk(t, bits, pos).next], Walk(t, bits, pos).value)
  {
    match t
    case Leaf(_) =>
    case Node(l, r) =>
      var sub := if bits[pos] then r else l;
      var w := Walk(t, bits, pos);
      WalkTakesPath(sub, bits, pos + 1);
      assert bits[pos..w.next][1..] == bits[pos + 1..w.next];
  }

  /**
   * The pre-order tree format with byte leaves: a 1 bit is a branch followed
   * by its left then its right subtree; a 0 bit is a leaf followed by its
   * eight value bits. Any read failure fails the whole parse.
   */
  function ParseByteTree(bits: seq<bool>, pos: nat): (r: Parsed<Tree<int>>)
    requires pos <= |bits|
    ensures r.Ok? ==> pos < r.next <= |bits| && LeavesBelow(r.value, 0x100)
    ensures r.Fail? ==> pos <= r.at <= |bits|
    decreases |bits| - pos
  {
    match Read1(bits, pos)
    case Fail(at) => Fail(at)
    case Ok(b, p1) =>
      if b then
        match ParseByteTree(bits, p1)
        case Fail(at) => Fail(at)
        case Ok(l, p2) =>
          match ParseByteTree(bits, p2)
          case Fail(at) => Fail(at)
          case Ok(rt, p3) => Ok(Node(l, rt), p3)
      else
        match Read8(bits, p1)
        case Fail(at) => Fail(at)
        case Ok(v, p2) => Ok(Leaf(v), p2)
  }

  /** A 1 bit: a branch whose left subtree starts right after the bit and whose right subtree follows the left. */
  lemma ParseBranchBit(bits: seq<bool>, pos: nat)
    requires pos < |bits| && bits[pos]
    ensures var pl := ParseByteTree(bits, pos + 1);
      && (pl.Fail? ==> ParseByteTree(bits, pos).Fail?)
      && (pl.Ok? ==>
            var pr := ParseByteTree(bits, pl.next);
            && (pr.Fail? ==> ParseByteTree(bits, pos).Fail?)
            && (pr.Ok? ==> ParseByteTree(bits, pos) == Ok(Node(pl.value, pr.value), pr.next)))
  {
  }

  /** A 1 bit followed by two successfully parsed subtrees is a branch holding them. */
  lemma ParseBranchOk(bits: seq<bool>, pos: nat, l: Tree<int>, p2: nat, r: Tree<int>, p3: nat)
    requires pos < |bits| && bits[pos]
    requires ParseByteTree(bits, pos + 1) == Ok(l, p2)
    requires p2 <= |bits| && ParseByteTree(bits, p2) == Ok(r, p3)
    ensures ParseByteTree(bits, pos) == Ok(Node(l, r), p3)
  {
    assert Read1(bits, pos) == Ok(true, pos + 1);
  }

  /** A 0 bit: a leaf holding the next eight bits. */
  lemma ParseLeafBit(bits: seq<bool>, pos: nat)
    requires pos < |bits| && !bits[pos]
    ensures var v := Read8(bits, pos + 1);
      && (v.Fail? ==> ParseByteTree(bits, pos).Fail?)
      && (v.Ok? ==> ParseByteTree(bits, pos) == Ok(Leaf(v.value), pos + 9))
  {
  }

  /** The encoder the format implies: the inverse of ParseByteTree. */
  function EncodeByteTree(t: Tree<int>): (s: seq<bool>)
    requires LeavesBelow(t, 0x100)
    ensures |s| >= 9
  {
    match t
    case Leaf(v) => [false] + LowBits(v, 8)
    case Node(l, r) => [true] + EncodeByteTree(l) + EncodeByteTree(r)
  }

  /** Round trip: parsing an encoded tree, wherever it sits in the stream, gives the tree back and stops right after it. */
  lemma {:induction false} ParseEncodedByteTree(t: Tree<int>, bits: seq<bool>, pos: nat)
    requires LeavesBelow(t, 0x100)
    requires pos + |EncodeByteTree(t)| <= |bits| && bits[pos..pos + |EncodeByteTree(t)|] == EncodeByteTree(t)
    ensures ParseByteTree(bits, pos) == Ok(t, pos + |EncodeByteTree(t)|)
  {
    match t
    case Leaf(v) => ParseEncodedLeaf(v, bits, pos);
    case Node(l, r) =>
      var el, er := EncodeByteTree(l), EncodeByteTree(r);
      SplitEncoding(bits, pos, el, er);
      ParseEncodedByteTree(l, bits, pos + 1);
      var p2 := pos + 1 + |el|;
      ParseEncodedByteTree(r, bits, p2);
      ParseBranchOk(bits, pos, l, p2, r, p2 + |er|);
  }

  /** Where a branch's encoding sits, its 1 bit comes first, then its left and right encodings. */
  lemma SplitEncoding(bits: seq<bool>, pos: nat, el: seq<bool>, er: seq<bool>)
    requires pos + 1 + |el| + |er| <= |bits| && bits[pos..pos + 1 + |el| + |er|] == [true] + el + er
    ensures bits[pos]
    ensures bits[pos + 1..pos + 1 + |el|] == el
    ensures var p2 := pos + 1 + |el|; bits[p2..p2 + |er|] == er
  {
    var e := [true] + el + er;
    assert bits[pos] == bits[pos..pos + |e|][0];
    SliceOfSlice(bits, pos, pos + |e|, 1, 1 + |el|);
    assert e[1..1 + |el|] == el;
    SliceOfSlice(bits, pos, pos + |e|, 1 + |el|, |e|);
    assert e[1 + |el|..|e|] == er;
  }

  /** A slice of a slice is a slice of the whole. */
  lemma SliceOfSlice<T>(s: seq<T>, a: nat, b: nat, c: nat, d: nat)
    requires a <= b <= |s| && c <= d <= b - a
    ensures s[a..b][c..d] == s[a + c..a + d]
  {
    forall i | 0 <= i < d - c
      ensures s[a..b][c..d][i] == s[a + c..a + d][i]
    {
      assert s[a..b][c..d][i] == s[a..b][c + i] == s[a + c + i];
    }
  }

  /** The leaf case of the round trip. */
  lemma ParseEncodedLeaf(v: int, bits: seq<bool>, pos: nat)
    requires 0 <= v < 0x100
    requires pos + 9 <= |bits| && bits[pos..pos + 9] == EncodeByteTree(Leaf(v))
    ensures ParseByteTree(bits, pos) == Ok(Leaf(v), pos + 9)
  {
    assert !bits[pos] by { assert bits[pos] == bits[pos..pos + 9][0]; }
    assert bits[pos + 1..pos + 9] == LowBits(v, 8) by { assert bits[pos + 1..pos + 9] == bits[pos..pos + 9][1..]; }
    ByteBitsRoundTrip(v);
    ParseLeafBit(bits, pos);
  }

  /**
   * The flattened form: t occupies slots [base, base + Size(t)) of a in
   * pre-order. A leaf slot holds the leaf's value; a branch slot holds tag
   * plus the index of its right child, and its left child is the next slot.
   */
  ghost predicate Placed(a: seq<int>, t: Tree<int>, base: nat, tag: nat)
  {
    base + Size(t) <= |a| &&
    match t
    case Leaf(v) => a[base] == v
    case Node(l, r) =>
      && a[base] == tag + (base + 1 + Size(l))
      && Placed(a, l, base + 1, tag)
      && Placed(a, r, base + 1 + Size(l), tag)
  }

  /** A parse that failed, or produced a tree that does not fit in the slots [base, capacity). */
  predicate Unfit(p: Parsed<Tree<int>>, base: nat, capacity: nat)
  {
    p.Fail? || base + Size(p.value) > capacity
  }

  /** A placed tree depends only on its own slots. */
  lemma {:induction false} PlacedFrame(a: seq<int>, b: seq<int>, t: Tree<int>, base: nat, tag: nat)
    requires Placed(a, t, base, tag)
    requires base + Size(t) <= |b|
    requires forall i :: base <= i < base + Size(t) ==> a[i] == b[i]
    ensures Placed(b, t, base, tag)
  {
    match t
    case Leaf(_) =>
    case Node(l, r) =>
      PlacedFrame(a, b, l, base + 1, tag);
      PlacedFrame(a, b, r, base + 1 + Size(l), tag);
  }

  /**
   * Slot i of before was patched to v; a later state that keeps the first
   * k > i slots of the patched one holds v at i and agrees with before on
   * every other slot below k.
   */
  lemma PatchedSlots(before: seq<int>, patched: seq<int>, after: seq<int>, i: nat, v: int, k: nat)
    requires i < k <= |before| && k <= |after|
    requires patched == before[i := v] && after[..k] == patched[..k]
    ensures after[..i] == before[..i]
    ensures after[i] == v
    ensures forall j :: i < j < k ==> after[j] == before[j]
  {
    assert after[..i] == after[..k][..i];
    assert before[..i] == patched[..k][..i];
    assert after[i] == after[..k][i];
    forall j | i < j < k
      ensures after[j] == before[j]
    {
      assert after[j] == after[..k][j];
    }
  }

  /** A branch is in place once its slot holds the right child's index, its left subtree follows it and its right subtree follows that. */
  lemma PlacedBranch(before: seq<int>, after: seq<int>, l: Tree<int>, r: Tree<int>, base: nat, mid: nat, tag: nat)
    requires mid == base + 1 + Size(l)
    requires Placed(before, l, base + 1, tag) && |after| == |before|
    requires after[base] == tag + mid
    requires forall j :: base < j < mid ==> after[j] == before[j]
    requires Placed(after, r, mid, tag)
    ensures Placed(after, Node(l, r), base, tag)
  {
    PlacedFrame(before, after, l, base + 1, tag);
  }

  /** Two sequences that agree on a prefix agree on every shorter prefix. */
  lemma PrefixShrink(a: seq<int>, b: seq<int>, j: nat, k: nat)
    requires j <= k <= |a| && k <= |b| && a[..k] == b[..k]
    ensures a[..j] == b[..j]
  {
    assert a[..j] == a[..k][..j];
    assert b[..j] == b[..k][..j];
  }

}
