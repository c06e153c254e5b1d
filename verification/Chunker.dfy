/** Proving and verifying single pieces of a file (crates/chorrent/src/chunker.rs).

    A file's blocks are the leaves of a hash tree.  An outboard stores the tree's
    inner hash pairs in pre-order.  Hashes are terms, so distinct inputs have
    distinct hashes; `Raw` stands for hash values that are not the hash of
    anything known, such as the zeros of a fresh outboard. */
module Chunker {
  import opened Blocks
  import opened Wrappers

  datatype Hash = Raw(id: nat) | Leaf(bytes: seq<byte>) | Parent(left: Hash, right: Hash)

  type HashPair = (Hash, Hash)

  /** Pairs with the offset they are stored at. */
  type ProofNodes = seq<(nat, HashPair)>

  const ZERO_PAIR: HashPair := (Raw(0), Raw(0))

  // ---- The shape of the tree ----

  /** How many of `n` leaves are in the left subtree: the largest power of two
      below `n`, found by doubling from `k`. */
  function LeftLeaves(n: nat, k: nat := 1): (r: nat)
    requires 0 < k < n
    ensures 0 < r < n <= 2 * r
    decreases n - k
  {
    if 2 * k < n then LeftLeaves(n, 2 * k) else k
  }

  /** 1, 2, 4, ... */
  predicate PowerOfTwo(n: nat) {
    n == 1 || (n > 1 && n % 2 == 0 && PowerOfTwo(n / 2))
  }

  /** It is the only power of two from half of `n` up to below `n`. */
  lemma {:induction false} LeftLeavesIsPowerOfTwo(n: nat, k: nat)
    requires 0 < k < n && PowerOfTwo(k)
    ensures PowerOfTwo(LeftLeaves(n, k))
    decreases n - k
  {
    if 2 * k < n {
      assert 2 * k / 2 == k;
      LeftLeavesIsPowerOfTwo(n, 2 * k);
    }
  }

  lemma {:induction false} OnePowerBetween(a: nat, b: nat)
    requires PowerOfTwo(a) && PowerOfTwo(b) && a <= b < 2 * a
    ensures a == b
  {
    if a > 1 {
      OnePowerBetween(a / 2, b / 2);
    }
  }

  /** The left subtree has the largest power of two of leaves that leaves some over. */
  lemma LeftLeavesIff(n: nat, k: nat)
    requires n > 1
    ensures PowerOfTwo(k) && k < n <= 2 * k <==> k == LeftLeaves(n)
  {
    LeftLeavesIsPowerOfTwo(n, 1);
    if PowerOfTwo(k) && k < n <= 2 * k {
      var l := LeftLeaves(n);
      OnePowerBetween(if k <= l then k else l, if k <= l then l else k);
    }
  }

  /** The subtree over the `n` leaves from `lo`; its pairs are stored from `off`. */
  datatype Node = Node(off: nat, lo: nat, n: nat) {
    predicate Has(i: nat) {
      lo <= i < lo + n
    }

    function Left(): (c: Node)
      requires n > 1
      ensures 0 < c.n < n && c.off + c.n - 1 == Right().off && off < c.off
    {
      Node(off + 1, lo, LeftLeaves(n))
    }

    function Right(): (c: Node)
      requires n > 1
      ensures 0 < c.n < n && c.off + c.n == off + n && c.lo + c.n == lo + n
    {
      Node(off + LeftLeaves(n), lo + LeftLeaves(n), n - LeftLeaves(n))
    }

    function Child(i: nat): (c: Node)
      requires n > 1 && Has(i)
      ensures c.Has(i) && 0 < c.n < n
    {
      if i < Right().lo then Left() else Right()
    }
  }

  function Top(n: nat): Node {
    Node(0, 0, n)
  }

  // ---- Hashes ----

  function Root(blocks: seq<seq<byte>>, t: Node): Hash
    requires 0 < t.n && t.lo + t.n <= |blocks|
    decreases t.n
  {
    if t.n == 1 then Leaf(blocks[t.lo]) else Parent(Root(blocks, t.Left()), Root(blocks, t.Right()))
  }

  function TruePair(blocks: seq<seq<byte>>, t: Node): HashPair
    requires 1 < t.n && t.lo + t.n <= |blocks|
  {
    (Root(blocks, t.Left()), Root(blocks, t.Right()))
  }

  /** The half of a pair that block `i` is under. */
  function Half(pair: HashPair, t: Node, i: nat): Hash
    requires t.n > 1
  {
    if i < t.Right().lo then pair.0 else pair.1
  }

  /** The pair that belongs at offset `o`. */
  function PairAt(blocks: seq<seq<byte>>, t: Node, o: nat): HashPair
    requires 1 < t.n && t.lo + t.n <= |blocks| && t.off <= o < t.off + t.n - 1
    decreases t.n
  {
    if o == t.off then TruePair(blocks, t)
    else if o < t.Right().off then PairAt(blocks, t.Left(), o)
    else PairAt(blocks, t.Right(), o)
  }

  /** The complete outboard of a file (`hash_file`). */
  function FullOutboard(blocks: seq<seq<byte>>): seq<HashPair>
    requires |blocks| > 0
  {
    seq(|blocks| - 1, o requires 0 <= o < |blocks| - 1 => PairAt(blocks, Top(|blocks|), o))
  }

  function EmptyOutboard(n: nat): seq<HashPair>
    requires n > 0
  {
    seq(n - 1, _ => ZERO_PAIR)
  }

  lemma NodesOfThree(t: Node)
    requires t.off == t.lo == 0 && t.n == 3
    ensures t.Left() == Node(1, 0, 2) && t.Right() == Node(2, 2, 1)
    ensures t.Left().Left() == Node(2, 0, 1) && t.Left().Right() == Node(2, 1, 1)
  {
    assert PowerOfTwo(1) && PowerOfTwo(2);
    LeftLeavesIff(t.n, 2);
    LeftLeavesIff(t.Left().n, 1);
  }

  /** For instance, with three blocks: two under the left child, ... */
  lemma TreeOfThree(blocks: seq<seq<byte>>, t: Node)
    requires |blocks| == 3 && t == Top(|blocks|)
    ensures Root(blocks, t.Left()) == Parent(Leaf(blocks[0]), Leaf(blocks[1]))
    ensures Root(blocks, t) == Parent(Parent(Leaf(blocks[0]), Leaf(blocks[1])), Leaf(blocks[2]))
  {
    NodesOfThree(t);
    RootOfLeaf(blocks, t.Left().Left());
    RootOfLeaf(blocks, t.Left().Right());
    RootOfLeaf(blocks, t.Right());
  }

  lemma RootOfLeaf(blocks: seq<seq<byte>>, t: Node)
    requires t.n == 1 && t.lo < |blocks|
    ensures Root(blocks, t) == Leaf(blocks[t.lo])
  {
  }

  /** ... and in general the pairs in pre-order: a tree's own, then those of its left
      subtree, one fewer than its leaves, then those of its right. */
  lemma PreOrder(blocks: seq<seq<byte>>, t: Node)
    requires 1 < t.n && t.lo + t.n <= |blocks|
    ensures PairAt(blocks, t, t.off) == (Root(blocks, t.Left()), Root(blocks, t.Right()))
    ensures t.Left().n > 1 ==> PairAt(blocks, t, t.off + 1) == TruePair(blocks, t.Left())
    ensures t.Right().n > 1 ==> PairAt(blocks, t, t.off + t.Left().n) == TruePair(blocks, t.Right())
  {
    if t.Left().n > 1 {
      assert PairAt(blocks, t, t.off + 1) == PairAt(blocks, t.Left(), t.off + 1);
    }
    if t.Right().n > 1 {
      assert PairAt(blocks, t, t.Right().off) == PairAt(blocks, t.Right(), t.Right().off);
    }
  }

  /** Nothing of a file of several blocks is proved by an outboard that was never filled. */
  lemma EmptyProvesNothing(blocks: seq<seq<byte>>, i: nat)
    requires 1 < |blocks| && i < |blocks|
    ensures !PathOk(EmptyOutboard(|blocks|), blocks, Top(|blocks|), i)
  {
  }

  // ---- Encoding and decoding one piece ----

  /** An encoded piece as the decoder reads it: one pair for each level of the
      tree, then block data. */
  datatype Encoding = Encoding(path: seq<HashPair>, data: seq<byte>)

  /** `encode_range` for one block: checks every pair and the block against
      the expected hash on the way, and fails on the first that does not fit. */
  function Encode(root: Hash, ob: seq<HashPair>, disk: seq<seq<byte>>, t: Node, i: nat): Option<Encoding>
    requires t.Has(i) && t.lo + t.n <= |disk| && t.off + t.n - 1 <= |ob|
    decreases t.n
  {
    if t.n == 1 then
      if Leaf(disk[i]) == root then Some(Encoding([], disk[i])) else None
    else if Parent(ob[t.off].0, ob[t.off].1) != root then None
    else
      var rest := Encode(Half(ob[t.off], t, i), ob, disk, t.Child(i), i);
      if rest.None? then None else Some(Encoding([ob[t.off]] + rest.value.path, rest.value.data))
  }

  datatype Decoded = Decoded(nodes: ProofNodes, block: seq<byte>)

  /** `decode_range` for one block of `len` bytes: the recorded pairs and the
      block, or nothing if some hash does not fit or the input is too short. */
  function Decode(root: Hash, t: Node, i: nat, len: nat, enc: Encoding): Option<Decoded>
    requires t.Has(i)
    decreases t.n
  {
    if t.n == 1 then
      if enc.path == [] && len <= |enc.data| && Leaf(enc.data[..len]) == root
      then Some(Decoded([], enc.data[..len]))
      else None
    else if enc.path == [] || Parent(enc.path[0].0, enc.path[0].1) != root then None
    else
      var sub := Decode(Half(enc.path[0], t, i), t.Child(i), i, len, Encoding(enc.path[1..], enc.data));
      if sub.None? then None else Some(Decoded([(t.off, enc.path[0])] + sub.value.nodes, sub.value.block))
  }

  /** `apply_proof`: save each pair in its place, in order. */
  function Apply(ob: seq<HashPair>, nodes: ProofNodes): (r: seq<HashPair>)
    ensures |r| == |ob|
    decreases |nodes|
  {
    if nodes == [] then ob
    else Apply(if nodes[0].0 < |ob| then ob[nodes[0].0 := nodes[0].1] else ob, nodes[1..])
  }

  /** `valid_ranges`: whether block `i` is there and verified by the outboard,
      found by walking the whole tree. */
  function ValidBlocks(root: Hash, ob: seq<HashPair>, disk: seq<seq<byte>>, t: Node): (valid: seq<bool>)
    requires 0 < t.n && t.lo + t.n <= |disk| && t.off + t.n - 1 <= |ob|
    ensures |valid| == t.n
    decreases t.n
  {
    if t.n == 1 then [Leaf(disk[t.lo]) == root]
    else if Parent(ob[t.off].0, ob[t.off].1) != root then seq(t.n, _ => false)
    else ValidBlocks(ob[t.off].0, ob, disk, t.Left()) + ValidBlocks(ob[t.off].1, ob, disk, t.Right())
  }

  // ---- What they mean ----

  /** The pairs on the path from the root to block `i`. */
  function TrueNodes(blocks: seq<seq<byte>>, t: Node, i: nat): ProofNodes
    requires t.Has(i) && t.lo + t.n <= |blocks|
    decreases t.n
  {
    if t.n == 1 then [] else [(t.off, TruePair(blocks, t))] + TrueNodes(blocks, t.Child(i), i)
  }

  /** What an honest holder of block `i` sends. */
  function Proof(blocks: seq<seq<byte>>, t: Node, i: nat): Encoding
    requires t.Has(i) && t.lo + t.n <= |blocks|
    decreases t.n
  {
    if t.n == 1 then Encoding([], blocks[i])
    else
      var rest := Proof(blocks, t.Child(i), i);
      Encoding([TruePair(blocks, t)] + rest.path, rest.data)
  }

  /** Every pair on the path to block `i` is the right one. */
  predicate PathOk(ob: seq<HashPair>, blocks: seq<seq<byte>>, t: Node, i: nat)
    requires t.Has(i) && t.lo + t.n <= |blocks| && t.off + t.n - 1 <= |ob|
    decreases t.n
  {
    t.n == 1 || (ob[t.off] == TruePair(blocks, t) && PathOk(ob, blocks, t.Child(i), i))
  }

  lemma {:induction false} ProofHasBlock(blocks: seq<seq<byte>>, t: Node, i: nat)
    requires t.Has(i) && t.lo + t.n <= |blocks|
    ensures Proof(blocks, t, i).data == blocks[i]
    decreases t.n
  {
    if t.n > 1 {
      ProofHasBlock(blocks, t.Child(i), i);
    }
  }

  /** A piece encodes exactly when its block and its whole path are right, and
      then the encoding is the honest one, whatever else the outboard holds. */
  lemma {:induction false} EncodeIff(ob: seq<HashPair>, disk: seq<seq<byte>>, blocks: seq<seq<byte>>, t: Node, i: nat)
    requires t.Has(i) && t.lo + t.n <= |blocks| == |disk| && t.off + t.n - 1 <= |ob|
    ensures var r := Encode(Root(blocks, t), ob, disk, t, i);
            && (r.Some? <==> PathOk(ob, blocks, t, i) && disk[i] == blocks[i])
            && (r.Some? ==> r.value == Proof(blocks, t, i))
    decreases t.n
  {
    if t.n > 1 {
      EncodeIff(ob, disk, blocks, t.Child(i), i);
    }
  }

  /** The decoder accepts exactly the true pairs and the true block (and ignores
      what follows it), and records exactly the true pairs in their places. */
  lemma {:induction false} DecodeIff(blocks: seq<seq<byte>>, t: Node, i: nat, enc: Encoding)
    requires t.Has(i) && t.lo + t.n <= |blocks|
    ensures var r := Decode(Root(blocks, t), t, i, |blocks[i]|, enc);
            && (r.Some? <==> enc.path == Proof(blocks, t, i).path && blocks[i] <= enc.data)
            && (r.Some? ==> r.value == Decoded(TrueNodes(blocks, t, i), blocks[i]))
    decreases t.n
  {
    if t.n > 1 && enc.path != [] {
      DecodeIff(blocks, t.Child(i), i, Encoding(enc.path[1..], enc.data));
      assert enc.path == [enc.path[0]] + enc.path[1..];
    }
  }

  lemma {:induction false} DecodedLength(root: Hash, t: Node, i: nat, len: nat, enc: Encoding)
    requires t.Has(i)
    ensures Decode(root, t, i, len, enc).Some? ==> |Decode(root, t, i, len, enc).value.block| == len
    decreases t.n
  {
    if t.n > 1 && enc.path != [] {
      DecodedLength(Half(enc.path[0], t, i), t.Child(i), i, len, Encoding(enc.path[1..], enc.data));
    }
  }

  /** A block is reported valid exactly when it would encode. */
  lemma {:induction false} ValidIffEncodes(root: Hash, ob: seq<HashPair>, disk: seq<seq<byte>>, t: Node, i: nat)
    requires t.Has(i) && t.lo + t.n <= |disk| && t.off + t.n - 1 <= |ob|
    ensures ValidBlocks(root, ob, disk, t)[i - t.lo] <==> Encode(root, ob, disk, t, i).Some?
    decreases t.n
  {
    if t.n > 1 && Parent(ob[t.off].0, ob[t.off].1) == root {
      ValidIffEncodes(Half(ob[t.off], t, i), ob, disk, t.Child(i), i);
    }
  }

  /** A complete outboard has every path right. */
  lemma {:induction false} FullIsOk(ob: seq<HashPair>, blocks: seq<seq<byte>>, t: Node, i: nat)
    requires t.Has(i) && t.lo + t.n <= |blocks| && t.off + t.n - 1 <= |ob|
    requires forall o: nat :: t.off <= o < t.off + t.n - 1 ==> ob[o] == PairAt(blocks, t, o)
    ensures PathOk(ob, blocks, t, i)
    decreases t.n
  {
    if t.n > 1 {
      FullIsOk(ob, blocks, t.Child(i), i);
    }
  }

  /** The outboards agree on the subtree's stretch. */
  ghost predicate Agree(ob: seq<HashPair>, other: seq<HashPair>, t: Node) {
    && |ob| == |other|
    && forall o: nat :: t.off <= o < t.off + t.n - 1 && o < |ob| ==> ob[o] == other[o]
  }

  /** Pairs outside a subtree's stretch of the outboard do not matter to its paths. */
  lemma {:induction false} PathOkFrame(ob: seq<HashPair>, other: seq<HashPair>, blocks: seq<seq<byte>>, t: Node, i: nat)
    requires t.Has(i) && t.lo + t.n <= |blocks| && t.off + t.n - 1 <= |ob|
    requires Agree(ob, other, t)
    ensures PathOk(ob, blocks, t, i) == PathOk(other, blocks, t, i)
    decreases t.n
  {
    if t.n > 1 {
      PathOkFrame(ob, other, blocks, t.Child(i), i);
    }
  }

  /** A subtree's proof only touches the subtree's stretch of the outboard. */
  lemma {:induction false} ApplyFrame(ob: seq<HashPair>, blocks: seq<seq<byte>>, t: Node, i: nat)
    requires t.Has(i) && t.lo + t.n <= |blocks| && t.off + t.n - 1 <= |ob|
    ensures forall o: nat :: o < |ob| && !(t.off <= o < t.off + t.n - 1) ==>
             Apply(ob, TrueNodes(blocks, t, i))[o] == ob[o]
    decreases t.n
  {
    if t.n > 1 {
      ApplyFrame(ob[t.off := TruePair(blocks, t)], blocks, t.Child(i), i);
      assert TrueNodes(blocks, t, i)[1..] == TrueNodes(blocks, t.Child(i), i);
    }
  }

  /** Saving pairs changes nothing but their places. */
  lemma {:induction false} ApplyKeeps(ob: seq<HashPair>, nodes: ProofNodes, o: nat)
    requires forall k :: 0 <= k < |nodes| ==> nodes[k].0 != o
    ensures o < |ob| ==> Apply(ob, nodes)[o] == ob[o]
    decreases |nodes|
  {
    if nodes != [] {
      ApplyKeeps(if nodes[0].0 < |ob| then ob[nodes[0].0 := nodes[0].1] else ob, nodes[1..], o);
    }
  }

  /** Merging a verified proof makes its path right and spoils no other path. */
  lemma {:induction false} ApplyMakesPathOk(ob: seq<HashPair>, blocks: seq<seq<byte>>, t: Node, i: nat, j: nat)
    requires t.Has(i) && t.Has(j) && t.lo + t.n <= |blocks| && t.off + t.n - 1 <= |ob|
    ensures PathOk(Apply(ob, TrueNodes(blocks, t, i)), blocks, t, i)
    ensures PathOk(ob, blocks, t, j) ==> PathOk(Apply(ob, TrueNodes(blocks, t, i)), blocks, t, j)
    decreases t.n
  {
    if t.n > 1 {
      var c := t.Child(i);
      var ob' := ob[t.off := TruePair(blocks, t)];
      var r := Apply(ob', TrueNodes(blocks, c, i));
      assert TrueNodes(blocks, t, i)[1..] == TrueNodes(blocks, c, i);
      ApplyFrame(ob', blocks, c, i);
      ApplyMakesPathOk(ob', blocks, c, i, if c.Has(j) then j else i);
      PathOkFrame(ob, ob', blocks, t.Child(j), j);
      if !c.Has(j) {
        PathOkFrame(ob', r, blocks, t.Child(j), j);
      }
    }
  }

  /** The root commits to the content: different blocks have different roots. */
  lemma {:induction false} RootInjective(a: seq<seq<byte>>, b: seq<seq<byte>>, t: Node)
    requires 0 < t.n && t.lo + t.n <= |a| == |b|
    ensures Root(a, t) == Root(b, t) ==> forall i: nat :: t.Has(i) ==> a[i] == b[i]
    decreases t.n
  {
    if t.n > 1 {
      RootInjective(a, b, t.Left());
      RootInjective(a, b, t.Right());
      assert forall i: nat :: t.Has(i) ==> t.Left().Has(i) || t.Right().Has(i);
    }
  }
}
