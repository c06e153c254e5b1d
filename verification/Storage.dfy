/** The encrypted store behaves like a flat array of bytes
    (crates/chorrent/src/storage.rs).  Random nonces are a parameter. */
module Storage {
  import opened Blocks
  import opened Slots
  import opened Wrappers

  datatype Failure = Unreadable | PastTheEnd | NotOurs

  /** Lay the file out if it is not there yet: header, then zeros up to its full length. */
  method Preallocate(onDisk: Option<seq<byte>>, size: nat, salt: seq<byte>) returns (raw: seq<byte>)
    requires |salt| == SALT
    ensures onDisk.Some? && |onDisk.value| >= HEADER ==> raw == onDisk.value
    ensures onDisk.None? || |onDisk.value| <= HEADER ==> EndsAtSlot(raw, size)
    ensures onDisk.None? || |onDisk.value| < HEADER ==>
              && |raw| == StoreLength(size) && raw[..HEADER] == MAGIC + salt
              && forall k :: HEADER <= k < |raw| ==> raw[k] == 0
  {
    assert SlotStart(0) == HEADER;
    if onDisk.Some? && |onDisk.value| >= HEADER {
      return onDisk.value;
    }
    raw := MAGIC + salt;
    raw := raw + Zeros(StoreLength(size) - |raw|);
  }

  /** The header decides which key opens the file. */
  method Open(
      raw: seq<byte>, fileKey: seq<byte> -> Cipher, size: nat, strict: bool, random: nat -> seq<byte>)
    returns (r: Result<Encrypted, Failure>)
    requires forall salt :: fileKey(salt).Lawful()
    requires forall k :: |random(k)| == NONCE
    ensures r.Ok? <==> |raw| >= HEADER && raw[..|MAGIC|] == MAGIC
    ensures r.Ok? ==>
              && fresh(r.value) && r.value.Readable() && r.value.raw == raw
              && r.value.size == size && r.value.strict == strict
    ensures r.Ok? ==> r.value.cipher == fileKey(raw[|MAGIC|..HEADER]) && (EndsAtSlot(raw, size) ==> r.value.Valid())
  {
    if |raw| < HEADER || raw[..|MAGIC|] != MAGIC {
      return Err(NotOurs);
    }
    if EndsAtSlot(raw, size) {
      SlotEndIsClean(fileKey(raw[|MAGIC|..HEADER]), raw, size);
    }
    var file := new Encrypted(raw, fileKey(raw[|MAGIC|..HEADER]), size, strict, random);
    r := Ok(file);
  }

  /** Some byte of block `b` is among the `n` from `pos`. */
  ghost predicate Touches(b: nat, pos: nat, n: nat) {
    b * BLOCK < pos + n && pos < (b + 1) * BLOCK
  }

  /** How far a request reaches into the block it starts in. */
  ghost function Reach(size: nat, pos: nat, n: nat): (r: nat)
    requires pos < size
    ensures pos + r <= size && (n > 0 ==> r > 0) && r <= n
  {
    BlockOf(size, pos, pos / BLOCK);
    BlockLenIs(size, pos / BLOCK);
    Min(n, pos / BLOCK * BLOCK + BlockLen(size, pos / BLOCK) - pos)
  }

  /** Those bytes touch that block only. */
  lemma ReachTouches(size: nat, pos: nat, n: nat, b: nat)
    requires pos < size && n > 0
    ensures pos / BLOCK < NumBlocks(size)
    ensures b < NumBlocks(size) ==> (Touches(b, pos, Reach(size, pos, n)) <==> b == pos / BLOCK)
  {
    BlockOf(size, pos, pos / BLOCK);
    BlockLenIs(size, pos / BLOCK);
    if b < NumBlocks(size) {
      BlockOf(size, pos, b);
      BlockLenIs(size, b);
    }
  }

  /** An open encrypted file. */
  class Encrypted {
    var raw: seq<byte>
    var drawn: nat
    const random: nat -> seq<byte>
    const cipher: Cipher
    const size: nat
    const strict: bool

    ghost predicate Readable() {
      cipher.Lawful() && forall k :: |random(k)| == NONCE
    }

    /** With a header, too, and nothing loose at the end: see SlotEndIsClean. */
    ghost predicate Valid() reads this {
      Readable() && HEADER <= |raw| && EndIsClean(cipher, raw, size)
    }

    ghost function Slots(): (r: seq<Option<seq<byte>>>)
      requires Readable()
      reads this
      ensures SlotsOk(r, size)
    {
      SlotsAreOk(cipher, raw, size);
      SlotsOf(cipher, raw, size)
    }

    ghost function Contents(): (r: seq<byte>)
      requires Readable()
      reads this
      ensures |r| == size
    {
      Flat(Slots(), size)
    }

    /** Every block among these bytes has really been written. */
    ghost predicate AllWritten(pos: nat, n: nat)
      requires Readable()
      reads this
    {
      forall b :: 0 <= b < NumBlocks(size) && Touches(b, pos, n) ==> Slots()[b].Some?
    }

    /** The source of randomness never gives the one nonce that marks a slot as unwritten. */
    ghost predicate NoZeroNonce() {
      forall k :: random(k) != Zeros(NONCE)
    }

    constructor (raw: seq<byte>, cipher: Cipher, size: nat, strict: bool, random: nat -> seq<byte>)
      requires cipher.Lawful() && forall k :: |random(k)| == NONCE
      ensures Readable() && this.raw == raw && this.cipher == cipher && this.size == size && this.strict == strict
    {
      this.raw, this.cipher, this.size, this.strict, this.random, this.drawn := raw, cipher, size, strict, random, 0;
    }

    method BlockLength(index: nat) returns (len: nat)
      requires index < NumBlocks(size)
      ensures len == BlockLen(size, index)
    {
      BlockLenIs(size, index);
      len := Min(size - index * BLOCK, BLOCK);
    }

    method ReadSealed(index: nat) returns (plain: Option<seq<byte>>)
      requires Readable() && index < NumBlocks(size)
      ensures plain == Slots()[index]
    {
      var len := BlockLength(index);
      var at := SlotStart(index);
      if |raw| < at + NONCE + len + TAG {
        return None;
      }
      var sealed := raw[at..at + (NONCE + len + TAG)];
      if sealed[..NONCE] == Zeros(NONCE) {
        return None;
      }
      plain := cipher.decrypt(sealed[..NONCE], index, sealed[NONCE..]);
    }

    method BlockWritten(index: nat) returns (written: bool)
      requires Readable() && index < NumBlocks(size)
      ensures written <==> Slots()[index].Some?
    {
      var plain := ReadSealed(index);
      written := plain.Some?;
    }

    method WrittenPieces() returns (written: seq<bool>)
      requires Readable()
      ensures |written| == NumBlocks(size) && forall i :: 0 <= i < |written| ==> (written[i] <==> Slots()[i].Some?)
    {
      written := [];
      for i := 0 to NumBlocks(size)
        invariant |written| == i && forall j :: 0 <= j < i ==> (written[j] <==> Slots()[j].Some?)
      {
        var one := BlockWritten(i);
        written := written + [one];
      }
    }

    method ReadBlock(index: nat) returns (r: Result<seq<byte>, Failure>)
      requires Readable() && index < NumBlocks(size)
      ensures r.Err? <==> strict && Slots()[index].None?
      ensures r.Ok? ==> |r.value| == BlockLen(size, index) && index * BLOCK + |r.value| <= size
      ensures r.Ok? ==> r.value == Contents()[index * BLOCK..index * BLOCK + |r.value|]
    {
      var len := BlockLength(index);
      var plain := ReadSealed(index);
      FlatBlock(Slots(), size, index);
      if plain.None? && strict {
        return Err(Unreadable);
      }
      r := Ok(if plain.None? then Zeros(len) else plain.value);
    }

    method WriteBlock(index: nat, plain: seq<byte>)
      requires Valid() && index < NumBlocks(size) && |plain| == BlockLen(size, index)
      modifies this
      ensures Valid() && raw[..HEADER] == old(raw)[..HEADER] && drawn == old(drawn) + 1
      ensures |old(raw)| <= |raw| && (Fits(old(raw), size, index) ==> |raw| == |old(raw)|)
      ensures Slots() == old(Slots())[index := if random(old(drawn)) == Zeros(NONCE) then None else Some(plain)]
      ensures NoZeroNonce() ==>
               index * BLOCK + |plain| <= size && Contents() == Patch(old(Contents()), index * BLOCK, plain)
    {
      var nonce := random(drawn);
      drawn := drawn + 1;
      SealEffectIff(cipher, raw, size, index, nonce, plain);
      SealKeepsEnd(cipher, raw, size, index, nonce, plain);
      FlatPatch(Slots(), size, index, Some(plain), plain);
      var sealed := nonce + cipher.encrypt(nonce, index, plain);
      raw := Overwritten(raw, SlotStart(index), sealed);
    }

    /** At most `n` bytes from `pos`: none past the end, else those up to the end of the block. */
    method ReadAt(pos: nat, n: nat) returns (r: Result<seq<byte>, Failure>)
      requires Readable()
      ensures pos >= size || n == 0 ==> r == Ok([])
      ensures pos < size && n > 0 ==> (r.Err? <==> strict && !AllWritten(pos, Reach(size, pos, n)))
      ensures pos < size && n > 0 && r.Ok? ==> r.value == Contents()[pos..pos + Reach(size, pos, n)]
    {
      if pos >= size || n == 0 {
        return Ok([]);
      }
      var index, within := pos / BLOCK, pos % BLOCK;
      BlockOf(size, pos, index);
      forall b | 0 <= b < NumBlocks(size) ensures Touches(b, pos, Reach(size, pos, n)) <==> b == index {
        ReachTouches(size, pos, n, b);
      }
      var plain := ReadBlock(index);
      if plain.Err? {
        return Err(plain.error);
      }
      var len := Min(n, |plain.value| - within);
      SliceOfSlice(Contents(), index * BLOCK, |plain.value|, within, len);
      r := Ok(plain.value[within..within + len]);
    }

    /** One more read of a request for `n` bytes of which `m` have been read. */
    method ReadOn(pos: nat, n: nat, m: nat) returns (r: Result<seq<byte>, Failure>)
      requires Readable() && m < n && (strict && m > 0 ==> AllWritten(pos, m))
      ensures r.Err? ==> strict && !AllWritten(pos, n)
      ensures r.Ok? && r.value == [] ==> pos + m >= size
      ensures r.Ok? && r.value != [] ==> m + |r.value| <= n && pos + m + |r.value| <= size
      ensures r.Ok? && r.value != [] ==> r.value == Contents()[pos + m..pos + m + |r.value|]
      ensures r.Ok? && r.value != [] && strict ==> AllWritten(pos, m + |r.value|)
    {
      r := ReadAt(pos + m, n - m);
      if pos + m < size {
        TouchesSplit(pos, m, Reach(size, pos + m, n - m));
        TouchesMore(pos, m, Reach(size, pos + m, n - m), n);
      }
    }

    /** Exactly `n` bytes: possible if they are all inside the file and, for a
        strict reader, all written. */
    method ReadExactAt(pos: nat, n: nat) returns (r: Result<seq<byte>, Failure>)
      requires Readable()
      ensures r.Ok? <==> n == 0 || (pos + n <= size && (strict ==> AllWritten(pos, n)))
      ensures r.Ok? && n > 0 ==> r.value == Contents()[pos..pos + n]
      ensures r.Ok? && n == 0 ==> r.value == []
    {
      var got: seq<byte> := [];
      while |got| < n
        invariant |got| <= n && (|got| > 0 ==> pos + |got| <= size && got == Contents()[pos..pos + |got|])
        invariant |got| > 0 && strict ==> AllWritten(pos, |got|)
        decreases n - |got|
      {
        var more := ReadOn(pos, n, |got|);
        if more.Err? {
          return Err(more.error);
        }
        if more.value == [] {
          return Err(PastTheEnd);
        }
        SliceJoin(Contents(), pos, pos + |got|, pos + |got| + |more.value|);
        got := got + more.value;
      }
      r := Ok(got);
    }

    /** The slots that hold a block are the ones that did, and those these bytes touch. */
    ghost predicate WrittenToo(was: seq<Option<seq<byte>>>, pos: nat, n: nat)
      requires Readable() && SlotsOk(was, size)
      reads this
    {
      forall b :: 0 <= b < NumBlocks(size) ==> (Slots()[b].Some? <==> was[b].Some? || (n > 0 && Touches(b, pos, n)))
    }

    /** The block from `index * BLOCK` with `buf` in it. */
    method Patched(index: nat, within: nat, buf: seq<byte>) returns (plain: seq<byte>)
      requires Readable() && !strict && index < NumBlocks(size) && within + |buf| <= BlockLen(size, index)
      ensures |plain| == BlockLen(size, index) && index * BLOCK + |plain| <= size
      ensures Patch(Contents(), index * BLOCK, plain) == Patch(Contents(), index * BLOCK + within, buf)
    {
      var len := BlockLength(index);
      BlockLenIs(size, index);
      if within == 0 && |buf| == len {
        plain := buf;
      } else {
        var block := ReadBlock(index);
        ghost var all, at := Contents(), index * BLOCK;
        assert block.value == all[at..at + len];
        plain := Patch(block.value, within, buf);
        PatchInside(all, at, len, within, buf);
      }
    }

    /** Puts `buf` into a block, and seals it again. */
    method PatchBlock(index: nat, within: nat, buf: seq<byte>)
      requires Valid() && !strict && index < NumBlocks(size) && within + |buf| <= BlockLen(size, index)
      modifies this
      ensures Valid() && |old(raw)| <= |raw| && raw[..HEADER] == old(raw)[..HEADER]
      ensures index * BLOCK + within + |buf| <= size
      ensures NoZeroNonce() ==> Contents() == Patch(old(Contents()), index * BLOCK + within, buf)
      ensures NoZeroNonce() ==>
                forall b :: 0 <= b < NumBlocks(size) ==> (Slots()[b].Some? <==> old(Slots())[b].Some? || b == index)
    {
      BlockLenIs(size, index);
      var plain := Patched(index, within, buf);
      WriteBlock(index, plain);
    }

    /** Writes what fits in the block at `pos`, and says how much that was. */
    method WriteAt(pos: nat, buf: seq<byte>) returns (r: Result<nat, Failure>)
      requires Valid() && !strict
      modifies this
      ensures Valid() && |old(raw)| <= |raw| && raw[..HEADER] == old(raw)[..HEADER]
      ensures pos >= size || buf == [] ==> r.Err? && raw == old(raw)
      ensures pos < size && buf != [] ==> r == Ok(Reach(size, pos, |buf|))
      ensures r.Ok? && NoZeroNonce() ==> Contents() == Patch(old(Contents()), pos, buf[..r.value])
      ensures r.Ok? && NoZeroNonce() ==> WrittenToo(old(Slots()), pos, r.value)
    {
      if pos >= size || buf == [] {
        return Err(PastTheEnd);
      }
      var index, within := pos / BLOCK, pos % BLOCK;
      BlockOf(size, pos, index);
      forall b | 0 <= b < NumBlocks(size) ensures Touches(b, pos, Reach(size, pos, |buf|)) <==> b == index {
        ReachTouches(size, pos, |buf|, b);
      }
      var len := BlockLength(index);
      var n := Min(|buf|, len - within);
      PatchBlock(index, within, buf[..n]);
      r := Ok(n);
    }

    /** One more write of a request of which `m` bytes are done, on top of what there was. */
    method WriteOn(
        pos: nat, buf: seq<byte>, m: nat, ghost was: seq<byte>, ghost slots: seq<Option<seq<byte>>>)
      returns (r: Result<nat, Failure>)
      requires Valid() && !strict && NoZeroNonce() && m < |buf|
      requires |was| == size && SlotsOk(slots, size)
      requires pos + m <= size ==> Contents() == Patch(was, pos, buf[..m]) && WrittenToo(slots, pos, m)
      modifies this
      ensures Valid() && |old(raw)| <= |raw| && raw[..HEADER] == old(raw)[..HEADER]
      ensures r.Ok? <==> pos + m < size
      ensures r.Err? ==> raw == old(raw)
      ensures r.Ok? ==> 0 < r.value && m + r.value <= |buf| && pos + m + r.value <= size
      ensures r.Ok? ==> Contents() == Patch(was, pos, buf[..m + r.value]) && WrittenToo(slots, pos, m + r.value)
    {
      r := WriteAt(pos + m, buf[m..]);
      if r.Ok? {
        PatchOn(was, pos, buf[..m], buf[m..][..r.value]);
        assert buf[..m] + buf[m..][..r.value] == buf[..m + r.value];
        TouchesSplit(pos, m, r.value);
      }
    }

    /** Everything, if it fits; else what does fit, and an error. */
    method WriteAllAt(pos: nat, buf: seq<byte>) returns (r: Result<(), Failure>)
      requires Valid() && !strict && NoZeroNonce()
      modifies this
      ensures Valid() && |old(raw)| <= |raw| && raw[..HEADER] == old(raw)[..HEADER]
      ensures r.Ok? <==> buf == [] || pos + |buf| <= size
      ensures pos > size ==> raw == old(raw)
      ensures pos <= size ==> Contents() == Patch(old(Contents()), pos, buf[..Min(|buf|, size - pos)])
      ensures pos <= size ==> WrittenToo(old(Slots()), pos, Min(|buf|, size - pos))
    {
      ghost var was, slots := Contents(), Slots();
      var m := 0;
      while m < |buf|
        invariant Valid() && |old(raw)| <= |raw| && raw[..HEADER] == old(raw)[..HEADER]
        invariant m <= |buf| && (m > 0 ==> pos + m <= size) && (pos > size ==> raw == old(raw))
        invariant pos <= size ==> Contents() == Patch(was, pos, buf[..m])
        invariant pos <= size ==> WrittenToo(slots, pos, m)
        decreases |buf| - m
      {
        var n := WriteOn(pos, buf, m, was, slots);
        if n.Err? {
          return Err(PastTheEnd);
        }
        m := m + n.value;
      }
      r := Ok(());
    }
  }

  /** Reads a file from its start, whatever sizes its reader asks for. */
  class SequentialReader {
    const file: Encrypted
    var pos: nat

    constructor (file: Encrypted)
      ensures this.file == file && pos == 0
    {
      this.file, this.pos := file, 0;
    }

    method Read(n: nat) returns (r: Result<seq<byte>, Failure>)
      requires file.Readable() && pos <= file.size
      modifies this
      ensures pos <= file.size && |file.Contents()| == file.size
      ensures r.Ok? ==> old(pos) + |r.value| == pos && r.value == file.Contents()[old(pos)..pos] && |r.value| <= n
      ensures r.Ok? && r.value == [] ==> n == 0 || pos == file.size
      ensures r.Ok? && file.strict && r.value != [] ==> file.AllWritten(old(pos), |r.value|)
      ensures r.Err? ==> pos == old(pos) && file.strict && !file.AllWritten(0, file.size)
    {
      r := file.ReadAt(pos, n);
      if r.Ok? {
        pos := pos + |r.value|;
      } else {
        TouchesMore(0, pos, Reach(file.size, pos, n), file.size);
      }
    }

    /** Copying it all, `n` bytes at a time: a strict reader succeeds exactly if
        every block has been written, and then gives the whole contents. */
    method ReadToEnd(n: nat) returns (r: Result<seq<byte>, Failure>)
      requires file.Readable() && pos == 0 && n > 0
      modifies this
      ensures |file.Contents()| == file.size
      ensures r.Ok? <==> !file.strict || forall b :: 0 <= b < NumBlocks(file.size) ==> file.Slots()[b].Some?
      ensures r.Ok? ==> r.value == file.Contents()
    {
      AllIsAllBlocks(file.size);
      var got: seq<byte> := [];
      while true
        invariant pos == |got| <= file.size && got == file.Contents()[..pos]
        invariant file.strict && pos > 0 ==> file.AllWritten(0, pos)
        decreases file.size - pos
      {
        var more := Read(n);
        if more.Err? {
          return Err(more.error);
        }
        if more.value == [] {
          return Ok(got);
        }
        TouchesSplit(0, |got|, |more.value|);
        got := got + more.value;
      }
    }
  }

  lemma AllIsAllBlocks(size: nat)
    ensures forall b: nat :: b < NumBlocks(size) ==> Touches(b, 0, size)
  {
    forall b: nat | b < NumBlocks(size) ensures Touches(b, 0, size) {
      BlockLenIs(size, b);
    }
  }

  /** An ordinary file open for writing. */
  class PlainFile {
    var bytes: seq<byte>

    constructor (bytes: seq<byte>)
      ensures this.bytes == bytes
    {
      this.bytes := bytes;
    }

    method WriteAllAt(pos: nat, buf: seq<byte>)
      modifies this
      ensures bytes == Overwritten(old(bytes), pos, buf)
    {
      bytes := Overwritten(bytes, pos, buf);
    }
  }

  /** Where an import goes: to an ordinary file, or to the encrypted store, which has
      room for just the size it was set up for. */
  datatype Handle = ToPlain(plain: PlainFile) | ToStore(store: Encrypted) {
    ghost function Objects(): set<object> {
      match this
      case ToPlain(file) => {file}
      case ToStore(file) => {file}
    }

    ghost predicate Writable() reads Objects() {
      ToStore? ==> store.Valid() && !store.strict && store.NoZeroNonce()
    }

    ghost function Contents(): seq<byte>
      requires Writable()
      reads Objects()
    {
      match this
      case ToPlain(file) => file.bytes
      case ToStore(file) => file.Contents()
    }

    predicate HasRoom(n: nat) {
      ToStore? ==> n <= store.size
    }

    method WriteAllAt(pos: nat, buf: seq<byte>) returns (r: Result<(), Failure>)
      requires Writable() && pos <= |Contents()| && buf != []
      modifies Objects()
      ensures Writable() && |old(Contents())| <= |Contents()|
      ensures r.Ok? <==> HasRoom(pos + |buf|)
      ensures r.Ok? ==> pos + |buf| <= |Contents()| && Contents()[..pos + |buf|] == old(Contents())[..pos] + buf
    {
      ghost var was := Contents();
      match this {
        case ToPlain(file) =>
          file.WriteAllAt(pos, buf);
          assert file.bytes[..pos + |buf|] == was[..pos] + buf;
          r := Ok(());
        case ToStore(file) =>
          r := file.WriteAllAt(pos, buf);
          if r.Ok? {
            assert buf[..|buf|] == buf;
            PatchPrefix(was, pos, buf);
          }
      }
    }
  }

  /** Stores what it is fed, whole blocks at a time.  `passed` is all it was fed. */
  class ImportingReader {
    const dest: Handle
    var pending: seq<byte>
    var written: nat
    ghost var passed: seq<byte>

    /** The file's first bytes and the pending ones are those that went through. */
    ghost predicate Valid() reads this, dest.Objects() {
      && this !in dest.Objects()
      && dest.Writable()
      && |pending| < BLOCK && written % BLOCK == 0 && written <= |dest.Contents()|
      && dest.HasRoom(written)
      && passed == dest.Contents()[..written] + pending
    }

    constructor (dest: Handle)
      requires dest.Writable()
      ensures Valid() && this.dest == dest && passed == []
    {
      this.dest, this.pending, this.written, this.passed := dest, [], 0, [];
    }

    /** Store `chunk` after what is there. */
    method Append(chunk: seq<byte>) returns (r: Result<(), Failure>)
      requires this !in dest.Objects() && dest.Writable() && written <= |dest.Contents()| && chunk != []
      modifies this`written, dest.Objects()
      ensures dest.Writable()
      ensures r.Ok? <==> dest.HasRoom(old(written) + |chunk|)
      ensures r.Ok? ==> written == old(written) + |chunk| <= |dest.Contents()|
      ensures r.Ok? ==> dest.Contents()[..written] == old(dest.Contents())[..old(written)] + chunk
    {
      r := dest.WriteAllAt(written, chunk);
      if r.Ok? {
        written := written + |chunk|;
      }
    }

    /** Takes what one read of the source gave, in whatever pieces it comes. */
    method Read(chunk: seq<byte>) returns (r: Result<(), Failure>)
      requires Valid()
      modifies this, dest.Objects()
      ensures passed == old(passed) + chunk && this !in dest.Objects()
      ensures r.Ok? <==> dest.HasRoom(|passed| / BLOCK * BLOCK)
      ensures r.Ok? ==> Valid()
    {
      passed := passed + chunk;
      pending := pending + chunk;
      WholeBlocks(written, |pending|);
      assert passed == dest.Contents()[..written] + pending;
      r := StoreWhole(|pending| / BLOCK * BLOCK);
    }

    /** Stores the first `whole` of the pending bytes. */
    method StoreWhole(whole: nat) returns (r: Result<(), Failure>)
      requires this !in dest.Objects() && dest.Writable() && written <= |dest.Contents()| && dest.HasRoom(written)
      requires whole <= |pending| < whole + BLOCK && (written + whole) % BLOCK == 0
      requires passed == dest.Contents()[..written] + pending
      modifies this`pending, this`written, dest.Objects()
      ensures r.Ok? <==> dest.HasRoom(old(written) + whole)
      ensures r.Ok? ==> Valid()
    {
      if whole == 0 {
        return Ok(());
      }
      var full := pending[..whole];
      JoinAround(dest.Contents()[..written], full, pending[whole..]);
      assert pending == full + pending[whole..];
      pending := pending[whole..];
      r := Append(full);
    }

    /** Stores what is left: after it the file begins with exactly what went through. */
    method Finish() returns (r: Result<nat, Failure>)
      requires Valid()
      modifies this, dest.Objects()
      ensures passed == old(passed) && dest.Writable()
      ensures r.Ok? <==> dest.HasRoom(|passed|)
      ensures r.Ok? ==> r.value == |passed| <= |dest.Contents()| && dest.Contents()[..|passed|] == passed
      ensures r.Ok? && |passed| == |dest.Contents()| ==> dest.Contents() == passed
    {
      if pending != [] {
        var stored := Append(pending);
        if stored.Err? {
          return Err(stored.error);
        }
      }
      r := Ok(written);
    }
  }

  lemma JoinAround(a: seq<byte>, b: seq<byte>, c: seq<byte>)
    ensures a + (b + c) == a + b + c
  {
  }

  lemma PatchPrefix(a: seq<byte>, pos: nat, b: seq<byte>)
    requires pos + |b| <= |a|
    ensures Patch(a, pos, b)[..pos + |b|] == a[..pos] + b
  {
  }

  lemma WholeBlocks(written: nat, pending: nat)
    requires written % BLOCK == 0
    ensures (written + pending) / BLOCK * BLOCK == written + pending / BLOCK * BLOCK
    ensures (written + pending / BLOCK * BLOCK) % BLOCK == 0
    ensures pending - pending / BLOCK * BLOCK < BLOCK
  {
  }

  lemma SliceOfSlice(a: seq<byte>, at: nat, len: nat, within: nat, n: nat)
    requires at + len <= |a| && within + n <= len
    ensures a[at..at + len][within..within + n] == a[at + within..at + within + n]
  {
    var part := a[at..at + len];
    assert forall k :: within <= k < within + n ==> part[k] == a[at + k];
    assert part[within..within + n] == a[at + within..at + within + n];
  }

  lemma SliceJoin(a: seq<byte>, i: nat, j: nat, k: nat)
    requires i <= j <= k <= |a|
    ensures a[i..j] + a[j..k] == a[i..k]
  {
  }

  /** The blocks touched by two adjoining ranges are those touched by either. */
  lemma TouchesSplit(pos: nat, m: nat, n: nat)
    requires n > 0
    ensures forall b: nat :: Touches(b, pos, m + n) <==> (m > 0 && Touches(b, pos, m)) || Touches(b, pos + m, n)
  {
  }

  lemma TouchesMore(pos: nat, m: nat, k: nat, n: nat)
    requires m + k <= n
    ensures forall b: nat :: Touches(b, pos + m, k) ==> Touches(b, pos, n)
  {
  }
}
