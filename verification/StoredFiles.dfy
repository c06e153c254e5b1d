/** The encrypted file of a share is the one the encrypted store keeps. */
module StoredFiles {
  import opened Blocks
  import opened Shares
  import opened Slots
  import opened Wrappers
  import L = ShareLaws

  /** Byte for byte, a share's encrypted file is the flat file of its slots. */
  lemma FileBytesAreFlat(slots: seq<Option<seq<byte>>>, size: nat)
    requires SlotsOk(slots, size)
    ensures FileOk(Encrypted(slots), size)
    ensures L.FileBytes(Encrypted(slots), size) == Flat(slots, size)
  {
    var bytes, flat := L.FileBytes(Encrypted(slots), size), Flat(slots, size);
    forall pos: nat | pos < size ensures bytes[pos] == flat[pos] {
      FlatAt(slots, size, pos);
    }
  }

  /** A byte of the flat file is in the block at its place. */
  lemma FlatAt(slots: seq<Option<seq<byte>>>, size: nat, pos: nat)
    requires SlotsOk(slots, size) && pos < size
    ensures pos / BLOCK < |slots| && pos % BLOCK < |BytesIn(slots[pos / BLOCK], BlockLen(size, pos / BLOCK))|
    ensures Flat(slots, size)[pos] == BytesIn(slots[pos / BLOCK], BlockLen(size, pos / BLOCK))[pos % BLOCK]
  {
    var b, k := pos / BLOCK, pos % BLOCK;
    BlockOf(size, pos, b);
    FlatBlock(slots, size, b);
    var flat, at := Flat(slots, size), b * BLOCK;
    var part := flat[at..at + BlockLen(size, b)];
    assert part[k] == flat[at + k];
  }

  /** Storing a piece in the share's file is what sealing it under any nonce but the
      all-zero one does to the store. */
  lemma WritingAPieceSeals(cipher: Cipher, raw: seq<byte>, size: nat, b: nat, nonce: seq<byte>, plain: seq<byte>)
    requires cipher.Lawful() && b < NumBlocks(size) && |nonce| == Slots.NONCE && |plain| == BlockLen(size, b)
    requires StubsStayEmpty(cipher, raw, size, b)
    ensures Encrypted(SlotsOf(cipher, Sealed(cipher, raw, b, nonce, plain), size))
              == Shares.WriteBlock(Encrypted(SlotsOf(cipher, raw, size)), b, plain)
            <==> nonce != Zeros(Slots.NONCE)
  {
    SealEffectIff(cipher, raw, size, b, nonce, plain);
    var slots := SlotsOf(cipher, raw, size);
    assert slots[b := None][b] != slots[b := Some(plain)][b];
  }
}
