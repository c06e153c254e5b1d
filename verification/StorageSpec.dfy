/** The encrypted store's file format (crates/chorrent/src/storage.rs): a header
    and one fixed-size slot per block, and the flat file it stands for.  The
    cipher is a parameter. */
module Slots {
  import opened Blocks
  import opened Integers
  import opened Wrappers

  const MAGIC: seq<byte> := [67, 72, 82, 69, 78, 67, 48, 49]
  const SALT: nat := 16
  const HEADER: nat := 24
  const NONCE: nat := 24
  const TAG: nat := 16
  const SLOT: nat := 65576

  /** Authenticated encryption; the second argument is the associated data. */
  datatype Cipher = Cipher(
    encrypt: (seq<byte>, nat, seq<byte>) -> seq<byte>,
    decrypt: (seq<byte>, nat, seq<byte>) -> Option<seq<byte>>)
  {
    /** What was encrypted for one block does not decrypt as another; a block's index has
        64 bits. */
    ghost predicate Binds() {
      forall nonce, i: nat, j: nat, plain :: i != j && i < Values(8) && j < Values(8) ==>
        decrypt(nonce, j, encrypt(nonce, i, plain)).None?
    }

    /** Decrypting undoes encrypting, and ciphertexts are one tag longer. */
    ghost predicate Lawful() {
      && (forall nonce, i, plain :: |encrypt(nonce, i, plain)| == |plain| + TAG)
      && (forall nonce, i, plain :: decrypt(nonce, i, encrypt(nonce, i, plain)) == Some(plain))
      && forall nonce, i, sealed :: decrypt(nonce, i, sealed).Some? ==>
          |decrypt(nonce, i, sealed).value| + TAG == |sealed|
    }
  }

  /** There are such ciphers. */
  lemma LawfulCipherExists() returns (c: Cipher)
    ensures c.Lawful() && c.Binds()
  {
    c := Cipher(
      (nonce, i, plain) => plain + LittleEndian(i, TAG),
      (nonce, i, sealed) =>
        if |sealed| < TAG || sealed[|sealed| - TAG..] != LittleEndian(i, TAG) then None
        else Some(sealed[..|sealed| - TAG]));
    forall i: nat, j: nat | i != j && i < Values(8) && j < Values(8)
      ensures LittleEndian(i, TAG) != LittleEndian(j, TAG)
    {
      IndexFits(i);
      IndexFits(j);
    }
    forall plain: seq<byte>, i: nat
      ensures var all := plain + LittleEndian(i, TAG);
              all[..|all| - TAG] == plain && all[|all| - TAG..] == LittleEndian(i, TAG)
    {
    }
  }

  lemma IndexFits(i: nat)
    requires i < Values(8)
    ensures FromLittleEndian(LittleEndian(i, TAG)) == i
  {
    assert Values(TAG) >= Values(8);
    LittleEndianRoundTrip(i, TAG);
  }

  /** Where slot `i` starts. */
  function SlotStart(i: nat): nat {
    HEADER + i * SLOT
  }

  /** The file's length once it is set up. */
  function StoreLength(size: nat): nat {
    HEADER + NumBlocks(size) * SLOT
  }

  function SealedLen(size: nat, i: nat): nat
    requires i < NumBlocks(size)
  {
    NONCE + BlockLen(size, i) + TAG
  }

  /** Slots keep clear of each other and of the header, and stay inside the file. */
  lemma SlotsAreApart(size: nat, i: nat, j: nat)
    requires i < j < NumBlocks(size)
    ensures HEADER <= SlotStart(i)
    ensures SlotStart(i) + SealedLen(size, i) <= SlotStart(j)
    ensures SlotStart(j) + SealedLen(size, j) <= StoreLength(size)
  {
  }

  /** What a slot's bytes hold, if anything. */
  function Unseal(cipher: Cipher, i: nat, sealed: seq<byte>): Option<seq<byte>>
    requires |sealed| >= NONCE
  {
    if sealed[..NONCE] == Zeros(NONCE) then None else cipher.decrypt(sealed[..NONCE], i, sealed[NONCE..])
  }

  ghost function SlotAt(cipher: Cipher, raw: seq<byte>, size: nat, i: nat): Option<seq<byte>>
    requires i < NumBlocks(size)
  {
    var at, len := SlotStart(i), SealedLen(size, i);
    if |raw| < at + len then None else Unseal(cipher, i, raw[at..at + len])
  }

  ghost function SlotsOf(cipher: Cipher, raw: seq<byte>, size: nat): (r: seq<Option<seq<byte>>>) {
    seq(NumBlocks(size), i requires 0 <= i < NumBlocks(size) => SlotAt(cipher, raw, size, i))
  }

  ghost predicate SlotsOk(slots: seq<Option<seq<byte>>>, size: nat) {
    && |slots| == NumBlocks(size)
    && forall i :: 0 <= i < |slots| && slots[i].Some? ==> |slots[i].value| == BlockLen(size, i)
  }

  lemma SlotsAreOk(cipher: Cipher, raw: seq<byte>, size: nat)
    requires cipher.Lawful()
    ensures SlotsOk(SlotsOf(cipher, raw, size), size)
  {
    forall i | 0 <= i < NumBlocks(size) && SlotAt(cipher, raw, size, i).Some?
      ensures |SlotAt(cipher, raw, size, i).value| == BlockLen(size, i)
    {
      var at, len := SlotStart(i), SealedLen(size, i);
      assert |raw[at..at + len][NONCE..]| == BlockLen(size, i) + TAG;
    }
  }

  /** `b` in place of what `a` has from `pos` on. */
  function Patch(a: seq<byte>, pos: nat, b: seq<byte>): (r: seq<byte>)
    requires pos + |b| <= |a|
    ensures |r| == |a|
  {
    a[..pos] + b + a[pos + |b|..]
  }

  // ---- Writing a slot ----

  /** `raw`, made up with zeros to `len` bytes. */
  function Padded(raw: seq<byte>, len: nat): (r: seq<byte>)
    ensures |r| >= len && |r| >= |raw|
  {
    if |raw| >= len then raw else raw + Zeros(len - |raw|)
  }

  /** A write at a place in a file: one past its end fills the gap with zeros. */
  function Overwritten(raw: seq<byte>, at: nat, bytes: seq<byte>): (r: seq<byte>)
    ensures |r| == if |raw| < at + |bytes| then at + |bytes| else |raw|
  {
    Patch(Padded(raw, at + |bytes|), at, bytes)
  }

  /** The file has all of slot `i`. */
  predicate Fits(raw: seq<byte>, size: nat, i: nat)
    requires i < NumBlocks(size)
  {
    SlotStart(i) + SealedLen(size, i) <= |raw|
  }

  /** Of the slots before `i` those that the file does not have all of stay empty
      when it is made up with zeros to where slot `i` starts. */
  ghost predicate StubsStayEmpty(cipher: Cipher, raw: seq<byte>, size: nat, i: nat)
    requires i < NumBlocks(size)
  {
    forall j: nat :: j < i && !Fits(raw, size, j) ==> SlotAt(cipher, Padded(raw, SlotStart(i)), size, j).None?
  }

  /** Zeros at the end of the file never make up a block. */
  ghost predicate EndIsClean(cipher: Cipher, raw: seq<byte>, size: nat) {
    forall i: nat :: i < NumBlocks(size) ==> StubsStayEmpty(cipher, raw, size, i)
  }

  /** The file ends where a slot starts: after the header alone, for instance, when
      setting it up was interrupted; or it has all of every slot. */
  ghost predicate EndsAtSlot(raw: seq<byte>, size: nat) {
    || (exists k: nat :: k <= NumBlocks(size) && |raw| == SlotStart(k))
    || (forall i: nat :: i < NumBlocks(size) ==> Fits(raw, size, i))
  }

  lemma SlotEndIsClean(cipher: Cipher, raw: seq<byte>, size: nat)
    requires EndsAtSlot(raw, size)
    ensures EndIsClean(cipher, raw, size)
  {
    forall i: nat, j: nat | j < i < NumBlocks(size) && !Fits(raw, size, j)
      ensures SlotAt(cipher, Padded(raw, SlotStart(i)), size, j).None?
    {
      var k: nat :| k <= NumBlocks(size) && |raw| == SlotStart(k);
      SlotsAreApart(size, j, i);
      if j < k {
        SlotEndsBefore(size, j, k);
      }
      var nonce := Padded(raw, SlotStart(i))[SlotStart(j)..SlotStart(j) + SealedLen(size, j)][..NONCE];
      assert |nonce| == NONCE && forall x :: 0 <= x < NONCE ==> nonce[x] == 0;
      assert nonce == Zeros(NONCE);
    }
  }

  lemma SlotEndsBefore(size: nat, j: nat, k: nat)
    requires j < k && j < NumBlocks(size)
    ensures SlotStart(j) + SealedLen(size, j) <= SlotStart(k)
  {
  }

  /** A slot is as good as its bytes. */
  lemma SameSlot(cipher: Cipher, a: seq<byte>, b: seq<byte>, size: nat, j: nat)
    requires j < NumBlocks(size) && Fits(a, size, j) && Fits(b, size, j)
    requires forall x :: SlotStart(j) <= x < SlotStart(j) + SealedLen(size, j) ==> a[x] == b[x]
    ensures SlotAt(cipher, a, size, j) == SlotAt(cipher, b, size, j)
  {
    var at, len := SlotStart(j), SealedLen(size, j);
    assert a[at..at + len] == b[at..at + len];
  }

  lemma SealBefore(cipher: Cipher, raw: seq<byte>, size: nat, i: nat, sealed: seq<byte>, j: nat)
    requires j < i < NumBlocks(size) && |sealed| == SealedLen(size, i)
    ensures SlotAt(cipher, Overwritten(raw, SlotStart(i), sealed), size, j)
         == SlotAt(cipher, if Fits(raw, size, j) then raw else Padded(raw, SlotStart(i)), size, j)
  {
    SlotsAreApart(size, j, i);
    var was := if Fits(raw, size, j) then raw else Padded(raw, SlotStart(i));
    SameSlot(cipher, Overwritten(raw, SlotStart(i), sealed), was, size, j);
  }

  lemma SealAfter(cipher: Cipher, raw: seq<byte>, size: nat, i: nat, sealed: seq<byte>, j: nat)
    requires i < j < NumBlocks(size) && |sealed| == SealedLen(size, i)
    ensures SlotAt(cipher, Overwritten(raw, SlotStart(i), sealed), size, j) == SlotAt(cipher, raw, size, j)
  {
    SlotsAreApart(size, i, j);
    if Fits(raw, size, j) {
      SameSlot(cipher, Overwritten(raw, SlotStart(i), sealed), raw, size, j);
    }
  }

  lemma SealHere(cipher: Cipher, raw: seq<byte>, size: nat, i: nat, nonce: seq<byte>, sealed: seq<byte>)
    requires i < NumBlocks(size) && |nonce| == NONCE && NONCE + |sealed| == SealedLen(size, i)
    ensures SlotAt(cipher, Overwritten(raw, SlotStart(i), nonce + sealed), size, i)
            == if nonce == Zeros(NONCE) then None else cipher.decrypt(nonce, i, sealed)
  {
    var at, all := SlotStart(i), nonce + sealed;
    assert Overwritten(raw, at, all)[at..at + |all|] == all;
    assert all[..NONCE] == nonce && all[NONCE..] == sealed;
  }

  /** What is in the file after sealing a block into slot `i`. */
  function Sealed(cipher: Cipher, raw: seq<byte>, i: nat, nonce: seq<byte>, plain: seq<byte>): seq<byte> {
    Overwritten(raw, SlotStart(i), nonce + cipher.encrypt(nonce, i, plain))
  }

  /** Where it is: 24 bytes of header and 65576 for each slot before, then the nonce and
      what was encrypted with it for this slot. */
  lemma SealedFormat(cipher: Cipher, raw: seq<byte>, i: nat, nonce: seq<byte>, plain: seq<byte>)
    requires |nonce| == NONCE
    ensures
      var after, at, sealed := Sealed(cipher, raw, i, nonce, plain), 24 + 65576 * i, cipher.encrypt(nonce, i, plain);
      at + 24 + |sealed| <= |after| && after[at..at + 24] == nonce && after[at + 24..at + 24 + |sealed|] == sealed
  {
    var at, all := SlotStart(i), nonce + cipher.encrypt(nonce, i, plain);
    assert Overwritten(raw, at, all)[at..at + |all|] == all;
  }

  /** A sealed block moved to another slot is not read there. */
  lemma MovedSlotIsEmpty(
      cipher: Cipher, raw: seq<byte>, size: nat, i: nat, j: nat, nonce: seq<byte>, plain: seq<byte>)
    requires cipher.Lawful() && cipher.Binds() && i != j && i < Values(8) && j < NumBlocks(size) <= Values(8)
    requires |nonce| == NONCE && |plain| == BlockLen(size, j)
    ensures SlotAt(cipher, Overwritten(raw, SlotStart(j), nonce + cipher.encrypt(nonce, i, plain)), size, j).None?
  {
    SealHere(cipher, raw, size, j, nonce, cipher.encrypt(nonce, i, plain));
  }

  /** Sealing a block changes its slot, and no other exactly if the gap it may have
      to fill makes up no block.  Under the all-zero nonce the slot reads as never
      written. */
  lemma SealEffectIff(cipher: Cipher, raw: seq<byte>, size: nat, i: nat, nonce: seq<byte>, plain: seq<byte>)
    requires cipher.Lawful() && i < NumBlocks(size) && |nonce| == NONCE && |plain| == BlockLen(size, i)
    ensures SlotsOf(cipher, Sealed(cipher, raw, i, nonce, plain), size)
              == SlotsOf(cipher, raw, size)[i := if nonce == Zeros(NONCE) then None else Some(plain)]
            <==> StubsStayEmpty(cipher, raw, size, i)
  {
    var sealed := cipher.encrypt(nonce, i, plain);
    SealHere(cipher, raw, size, i, nonce, sealed);
    var now := SlotsOf(cipher, Sealed(cipher, raw, i, nonce, plain), size);
    var want := SlotsOf(cipher, raw, size)[i := if nonce == Zeros(NONCE) then None else Some(plain)];
    forall j: nat | j < NumBlocks(size) && j != i
      ensures now[j] == if j < i && !Fits(raw, size, j) then SlotAt(cipher, Padded(raw, SlotStart(i)), size, j)
                        else SlotAt(cipher, raw, size, j)
    {
      if j < i {
        SealBefore(cipher, raw, size, i, nonce + sealed, j);
      } else {
        SealAfter(cipher, raw, size, i, nonce + sealed, j);
      }
    }
    assert now[i] == want[i];
    if StubsStayEmpty(cipher, raw, size, i) {
      assert forall j: nat :: j < NumBlocks(size) ==> now[j] == want[j];
    } else {
      var j: nat :| j < i && !Fits(raw, size, j) && SlotAt(cipher, Padded(raw, SlotStart(i)), size, j).Some?;
      assert now[j] != want[j];
    }
  }

  /** A clean end stays clean, and the header stays as it is. */
  lemma SealKeepsEnd(cipher: Cipher, raw: seq<byte>, size: nat, i: nat, nonce: seq<byte>, plain: seq<byte>)
    requires cipher.Lawful() && i < NumBlocks(size) && |nonce| == NONCE && |plain| == BlockLen(size, i)
    requires EndIsClean(cipher, raw, size) && HEADER <= |raw|
    ensures var after := Sealed(cipher, raw, i, nonce, plain);
            && EndIsClean(cipher, after, size)
            && |raw| <= |after| && after[..HEADER] == raw[..HEADER]
            && (Fits(raw, size, i) ==> |after| == |raw|)
  {
    var sealed := nonce + cipher.encrypt(nonce, i, plain);
    var after := Overwritten(raw, SlotStart(i), sealed);
    forall k: nat, j: nat | j < k < NumBlocks(size) && !Fits(after, size, j)
      ensures SlotAt(cipher, Padded(after, SlotStart(k)), size, j).None?
    {
      if j < i {
        SlotsAreApart(size, j, i);
      }
      assert StubsStayEmpty(cipher, raw, size, k);
      SealPads(cipher, raw, size, i, sealed, j, k);
    }
    HeaderStays(raw, i, sealed);
  }

  /** Made up with zeros the file still has the same in later slots. */
  lemma SealPads(cipher: Cipher, raw: seq<byte>, size: nat, i: nat, sealed: seq<byte>, j: nat, k: nat)
    requires i < j < k < NumBlocks(size) && |sealed| == SealedLen(size, i)
    ensures var after := Overwritten(raw, SlotStart(i), sealed);
            SlotAt(cipher, Padded(after, SlotStart(k)), size, j) == SlotAt(cipher, Padded(raw, SlotStart(k)), size, j)
  {
    SlotsAreApart(size, i, j);
    SlotsAreApart(size, j, k);
    var after := Overwritten(raw, SlotStart(i), sealed);
    SameSlot(cipher, Padded(after, SlotStart(k)), Padded(raw, SlotStart(k)), size, j);
  }

  lemma HeaderStays(raw: seq<byte>, i: nat, sealed: seq<byte>)
    requires HEADER <= |raw|
    ensures |raw| <= |Overwritten(raw, SlotStart(i), sealed)|
    ensures Overwritten(raw, SlotStart(i), sealed)[..HEADER] == raw[..HEADER]
  {
  }

  // ---- The flat file ----

  /** A slot without a block reads as zeros. */
  function BytesIn(slot: Option<seq<byte>>, len: nat): seq<byte> {
    if slot.None? then Zeros(len) else slot.value
  }

  /** All the blocks, joined. */
  ghost function Flat(slots: seq<Option<seq<byte>>>, size: nat): (r: seq<byte>)
    requires SlotsOk(slots, size)
    ensures |r| == size
    decreases |slots|
  {
    if size == 0 then [] else
      var len := Min(size, BLOCK);
      FirstSlot(slots, size);
      BytesIn(slots[0], len) + Flat(slots[1..], size - len)
  }

  lemma FirstSlot(slots: seq<Option<seq<byte>>>, size: nat)
    requires SlotsOk(slots, size) && size > 0
    ensures |slots| > 0 && BlockLen(size, 0) == Min(size, BLOCK) && SlotsOk(slots[1..], size - Min(size, BLOCK))
  {
    forall i | 0 <= i < |slots[1..]| && slots[1..][i].Some?
      ensures |slots[1..][i].value| == BlockLen(size - Min(size, BLOCK), i)
    {
      assert slots[1..][i] == slots[i + 1];
    }
  }

  lemma FlatFirst(slots: seq<Option<seq<byte>>>, size: nat)
    requires SlotsOk(slots, size) && size > 0
    ensures |slots| > 0 && SlotsOk(slots[1..], size - Min(size, BLOCK))
    ensures Flat(slots, size) == BytesIn(slots[0], Min(size, BLOCK)) + Flat(slots[1..], size - Min(size, BLOCK))
    ensures |BytesIn(slots[0], Min(size, BLOCK))| == Min(size, BLOCK) == BlockLen(size, 0)
    ensures |slots| > 1 ==> size > BLOCK
  {
    FirstSlot(slots, size);
  }

  /** The bytes at a block's place are that block's. */
  lemma {:induction false} FlatBlock(slots: seq<Option<seq<byte>>>, size: nat, i: nat)
    requires SlotsOk(slots, size) && i < |slots|
    ensures i * BLOCK + BlockLen(size, i) <= size
    ensures Flat(slots, size)[i * BLOCK..i * BLOCK + BlockLen(size, i)] == BytesIn(slots[i], BlockLen(size, i))
    decreases i
  {
    BlockLenIs(size, i);
    FlatFirst(slots, size);
    if i > 0 {
      FlatBlock(slots[1..], size - BLOCK, i - 1);
      SliceSecond(BytesIn(slots[0], BLOCK), Flat(slots[1..], size - BLOCK), (i - 1) * BLOCK, BlockLen(size, i));
    } else {
      SliceFirst(BytesIn(slots[0], BlockLen(size, 0)), Flat(slots[1..], size - BlockLen(size, 0)));
    }
  }

  lemma SliceFirst(first: seq<byte>, rest: seq<byte>)
    ensures (first + rest)[0..|first|] == first
  {
  }

  lemma SliceSecond(first: seq<byte>, rest: seq<byte>, at: nat, len: nat)
    requires at + len <= |rest|
    ensures (first + rest)[|first| + at..|first| + at + len] == rest[at..at + len]
  {
  }

  lemma SlotsStayOk(slots: seq<Option<seq<byte>>>, size: nat, i: nat, slot: Option<seq<byte>>)
    requires SlotsOk(slots, size) && i < |slots| && (slot.Some? ==> |slot.value| == BlockLen(size, i))
    ensures SlotsOk(slots[i := slot], size)
  {
  }

  /** Changing a slot is writing what it now reads as at its place. */
  lemma {:induction false} FlatPatch(
      slots: seq<Option<seq<byte>>>, size: nat, i: nat, slot: Option<seq<byte>>, plain: seq<byte>)
    requires SlotsOk(slots, size) && i < |slots| && |plain| == BlockLen(size, i)
    requires slot == Some(plain) || (slot == None && plain == Zeros(|plain|))
    ensures i * BLOCK + |plain| <= size
    ensures SlotsOk(slots[i := slot], size)
    ensures Flat(slots[i := slot], size) == Patch(Flat(slots, size), i * BLOCK, plain)
    decreases i
  {
    BlockLenIs(size, i);
    SlotsStayOk(slots, size, i, slot);
    if i == 0 {
      FlatPatchFirst(slots, size, slot, plain);
    } else {
      FlatFirst(slots, size);
      FlatPatch(slots[1..], size - BLOCK, i - 1, slot, plain);
      FlatPatchLater(slots, size, i, slot, plain);
    }
  }

  lemma FlatPatchFirst(slots: seq<Option<seq<byte>>>, size: nat, slot: Option<seq<byte>>, plain: seq<byte>)
    requires |slots| > 0 && SlotsOk(slots, size) && SlotsOk(slots[0 := slot], size) && |plain| == BlockLen(size, 0)
    requires slot == Some(plain) || (slot == None && plain == Zeros(|plain|))
    ensures |plain| <= size && Flat(slots[0 := slot], size) == Patch(Flat(slots, size), 0, plain)
  {
    FlatFirst(slots, size);
    FlatFirst(slots[0 := slot], size);
    assert slots[0 := slot][1..] == slots[1..];
    PatchFirst(BytesIn(slots[0], |plain|), Flat(slots[1..], size - |plain|), plain);
  }

  lemma FlatPatchLater(slots: seq<Option<seq<byte>>>, size: nat, i: nat, slot: Option<seq<byte>>, plain: seq<byte>)
    requires 0 < i < |slots| && SlotsOk(slots, size) && SlotsOk(slots[i := slot], size) && size > BLOCK
    requires SlotsOk(slots[1..], size - BLOCK) && SlotsOk(slots[1..][i - 1 := slot], size - BLOCK)
    requires i * BLOCK + |plain| <= size
    requires Flat(slots[1..][i - 1 := slot], size - BLOCK)
             == Patch(Flat(slots[1..], size - BLOCK), (i - 1) * BLOCK, plain)
    ensures Flat(slots[i := slot], size) == Patch(Flat(slots, size), i * BLOCK, plain)
  {
    FlatFirst(slots, size);
    FlatFirst(slots[i := slot], size);
    var first, rest := BytesIn(slots[0], BLOCK), Flat(slots[1..], size - BLOCK);
    assert slots[i := slot][1..] == slots[1..][i - 1 := slot] && slots[i := slot][0] == slots[0];
    assert Flat(slots[i := slot], size) == first + Patch(rest, (i - 1) * BLOCK, plain);
    PatchSecond(first, rest, (i - 1) * BLOCK, plain);
  }

  /** A sealed block reads back as written exactly if its nonce is not all zeros
      or the block is: under that one nonce it counts as never written. */
  lemma ReadsBackIff(cipher: Cipher, raw: seq<byte>, size: nat, i: nat, nonce: seq<byte>, plain: seq<byte>)
    requires cipher.Lawful() && i < NumBlocks(size) && |nonce| == NONCE && |plain| == BlockLen(size, i)
    requires StubsStayEmpty(cipher, raw, size, i)
    ensures i * BLOCK + |plain| <= size && SlotsOk(SlotsOf(cipher, raw, size), size)
    ensures var after := SlotsOf(cipher, Sealed(cipher, raw, i, nonce, plain), size);
            && SlotsOk(after, size)
            && (after[i].Some? <==> nonce != Zeros(NONCE))
            && (Flat(after, size) == Patch(Flat(SlotsOf(cipher, raw, size), size), i * BLOCK, plain)
                <==> nonce != Zeros(NONCE) || plain == Zeros(|plain|))
  {
    SealEffectIff(cipher, raw, size, i, nonce, plain);
    SlotsAreOk(cipher, raw, size);
    var slots := SlotsOf(cipher, raw, size);
    var slot := if nonce == Zeros(NONCE) then None else Some(plain);
    var was, at := Flat(slots, size), i * BLOCK;
    var now := BytesIn(slot, |plain|);
    FlatPatch(slots, size, i, slot, now);
    assert Patch(was, at, now)[at..at + |plain|] == now;
    assert Patch(was, at, plain)[at..at + |plain|] == plain;
  }

  /** For instance, a one-byte file whose only block is sealed under the zero nonce. */
  lemma ZeroNonceLosesABlock(cipher: Cipher, raw: seq<byte>)
    requires cipher.Lawful()
    ensures var after := SlotsOf(cipher, Sealed(cipher, raw, 0, Zeros(NONCE), [7]), 1);
            SlotsOk(after, 1) && Flat(after, 1) != [7]
  {
    assert NumBlocks(1) == 1 && BlockLen(1, 0) == 1;
    ReadsBackIff(cipher, raw, 1, 0, Zeros(NONCE), [7]);
    assert [7][0] != Zeros(1)[0];
    assert Patch(Flat(SlotsOf(cipher, raw, 1), 1), 0, [7]) == [7];
  }

  lemma PatchFirst(first: seq<byte>, rest: seq<byte>, b: seq<byte>)
    requires |b| == |first|
    ensures Patch(first + rest, 0, b) == b + rest
  {
  }

  lemma PatchSecond(first: seq<byte>, rest: seq<byte>, pos: nat, b: seq<byte>)
    requires pos + |b| <= |rest|
    ensures Patch(first + rest, |first| + pos, b) == first + Patch(rest, pos, b)
  {
  }

  /** Two writes in a row are one. */
  lemma PatchOn(a: seq<byte>, pos: nat, b: seq<byte>, c: seq<byte>)
    requires pos + |b| + |c| <= |a|
    ensures Patch(Patch(a, pos, b), pos + |b|, c) == Patch(a, pos, b + c)
  {
  }

  /** Rewriting part of what is there with a patch is patching that part. */
  lemma PatchInside(a: seq<byte>, at: nat, len: nat, within: nat, b: seq<byte>)
    requires at + len <= |a| && within + |b| <= len
    ensures Patch(a, at, Patch(a[at..at + len], within, b)) == Patch(a, at + within, b)
  {
  }

  /** A file just set up reads as zeros, and nothing in it counts as written. */
  lemma {:induction false} FlatOfNothing(slots: seq<Option<seq<byte>>>, size: nat)
    requires SlotsOk(slots, size) && forall i :: 0 <= i < |slots| ==> slots[i].None?
    ensures Flat(slots, size) == Zeros(size)
    decreases |slots|
  {
    if size > 0 {
      FirstSlot(slots, size);
      FlatOfNothing(slots[1..], size - Min(size, BLOCK));
    }
  }

  lemma EmptyStoreHasNothing(cipher: Cipher, raw: seq<byte>, size: nat)
    requires forall k :: HEADER <= k < |raw| ==> raw[k] == 0
    ensures forall i :: 0 <= i < NumBlocks(size) ==> SlotsOf(cipher, raw, size)[i].None?
  {
    forall i | 0 <= i < NumBlocks(size) && Fits(raw, size, i) ensures SlotAt(cipher, raw, size, i).None? {
      var at, len := SlotStart(i), SealedLen(size, i);
      var nonce := raw[at..at + len][..NONCE];
      assert |nonce| == NONCE && forall k :: 0 <= k < NONCE ==> nonce[k] == raw[at + k] == 0;
      assert nonce == Zeros(NONCE);
    }
  }
}
