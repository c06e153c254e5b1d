/** Cutting a file into blocks of BLOCK bytes, the last one perhaps shorter
    (crates/chorrent/src/chunker.rs:22, one block is one piece). */
module Blocks {
  type byte = b: int | 0 <= b < 256

  const BLOCK: nat := 65536

  function Min(a: int, b: int): int {
    if a <= b then a else b
  }

  /** How many blocks hold `size` bytes. */
  function NumBlocks(size: nat): nat {
    if size == 0 then 0 else if size <= BLOCK then 1 else 1 + NumBlocks(size - BLOCK)
  }

  /** That is the division the program does, rounded up. */
  lemma {:induction false} NumBlocksIsDivCeil(size: nat)
    ensures NumBlocks(size) == (size + BLOCK - 1) / BLOCK
  {
    if size > BLOCK {
      NumBlocksIsDivCeil(size - BLOCK);
    }
  }

  /** The length of block `b`. */
  function BlockLen(size: nat, b: nat): (len: nat)
    requires b < NumBlocks(size)
    ensures 0 < len <= BLOCK
  {
    if b == 0 then Min(size, BLOCK) else BlockLen(size - BLOCK, b - 1)
  }

  lemma {:induction false} BlockLenIs(size: nat, b: nat)
    requires b < NumBlocks(size)
    ensures b * BLOCK < size
    ensures BlockLen(size, b) == Min(size - b * BLOCK, BLOCK)
    ensures b < NumBlocks(size) - 1 <==> (b + 1) * BLOCK < size
  {
    if b > 0 {
      BlockLenIs(size - BLOCK, b - 1);
    }
  }

  function Zeros(n: nat): seq<byte> {
    seq(n, _ => 0)
  }

  function Block(content: seq<byte>, b: nat): (r: seq<byte>)
    requires b < NumBlocks(|content|)
    ensures |r| == BlockLen(|content|, b)
  {
    BlockLenIs(|content|, b);
    content[b * BLOCK..b * BLOCK + BlockLen(|content|, b)]
  }

  function Split(content: seq<byte>): seq<seq<byte>> {
    seq(NumBlocks(|content|), b requires 0 <= b < NumBlocks(|content|) => Block(content, b))
  }

  lemma NoBlocksIffEmpty(size: nat)
    ensures NumBlocks(size) == 0 <==> size == 0
  {
  }

  /** The first `b + 1` blocks have one block's bytes more than the first `b`. */
  lemma BlocksAddUp(size: nat, b: nat)
    requires b < NumBlocks(size)
    ensures Min((b + 1) * BLOCK, size) == Min(b * BLOCK, size) + BlockLen(size, b)
    ensures b == NumBlocks(size) - 1 ==> Min((b + 1) * BLOCK, size) == size
  {
    BlockLenIs(size, b);
  }

  /** Every byte position is in exactly one block. */
  lemma BlockOf(size: nat, pos: nat, b: nat)
    requires pos < size
    ensures pos / BLOCK < NumBlocks(size)
    ensures pos % BLOCK < BlockLen(size, pos / BLOCK)
    ensures b < NumBlocks(size) && b * BLOCK <= pos < b * BLOCK + BlockLen(size, b) <==> b == pos / BLOCK
  {
    NumBlocksIsDivCeil(size);
    BlockLenIs(size, pos / BLOCK);
    if b < NumBlocks(size) {
      BlockLenIs(size, b);
    }
  }

  /** The blocks have the promised lengths, and joined they are the content. */
  lemma SplitIsExact(content: seq<byte>, pos: nat)
    requires pos < |content|
    ensures pos / BLOCK < |Split(content)|
    ensures pos % BLOCK < |Split(content)[pos / BLOCK]|
    ensures Split(content)[pos / BLOCK][pos % BLOCK] == content[pos]
  {
    BlockOf(|content|, pos, pos / BLOCK);
    BlockLenIs(|content|, pos / BLOCK);
  }
}
