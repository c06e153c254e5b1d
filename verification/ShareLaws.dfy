/** Laws of shares: what is stored is true, what is held can be served along any
    chain of peers, resuming trusts nothing it did not check and loses nothing it
    could check, and whole-file verification means what it says. */
module ShareLaws {
  import opened Blocks
  import opened Chunker
  import opened Layouts
  import opened Shares
  import opened Wrappers

  // ---- Storing and serving ----

  ghost function EncodePiece(m: Manifest, sh: Share, i: nat): Option<Encoding>
    requires ShareOk(m, sh) && i < Total(m.sizes)
  {
    EncodeBlock(m, sh, FileOf(m.sizes, i), BlockIn(m.sizes, i))
  }

  /** `store_piece` run without interference: the share afterwards, or nothing
      when the encoding is refused. */
  ghost function StorePiece(m: Manifest, sh: Share, i: nat, enc: Encoding): Option<Share>
    requires ShareOk(m, sh) && i < Total(m.sizes)
  {
    if sh.have[i] then Some(sh)
    else
      var f, b := FileOf(m.sizes, i), BlockIn(m.sizes, i);
      var d := DecodeBlock(m, f, b, enc);
      if d.None? then None
      else Some(MarkHave(SaveProof(WritePiece(sh, f, b, d.value.block), f, d.value.nodes), i))
  }

  /** Storing succeeds exactly for a piece already held or the true encoding,
      keeps the share sound, gains the piece and loses nothing. */
  lemma StoreLaw(m: Manifest, contents: seq<seq<byte>>, sh: Share, i: nat, enc: Encoding)
    requires Sound(m, contents, sh) && i < Total(m.sizes)
    ensures var f, b, r := FileOf(m.sizes, i), BlockIn(m.sizes, i), StorePiece(m, sh, i, enc);
            && (r.Some?
                <==> sh.have[i] || (enc.path == TrueProof(m, contents, f, b).path && Split(contents[f])[b] <= enc.data))
            && (sh.have[i] ==> r == Some(sh))
            && (r.Some? ==>
                  && Sound(m, contents, r.value)
                  && r.value.have == sh.have[i := true]
                  && NothingLost(m, contents, sh, r.value))
  {
    var f, b := FileOf(m.sizes, i), BlockIn(m.sizes, i);
    DecodeIsTrue(m, contents, f, b, enc);
    if sh.have[i] {
      assert sh.have == sh.have[i := true];
    } else if DecodeBlock(m, f, b, enc).Some? {
      WriteStage(m, contents, sh, f, b);
      var written := WritePiece(sh, f, b, Split(contents[f])[b]);
      NothingLostIsSound(m, contents, sh, written);
      ProofStage(m, contents, written, f, b);
      var proven := SaveProof(written, f, TrueDecoded(m, contents, f, b).nodes);
      NothingLostIsSound(m, contents, written, proven);
      MarkStage(m, contents, proven, i);
    }
  }

  /** Nothing but the piece's own block, the outboard of its file and its claim changes. */
  lemma StoreTouchesOnly(m: Manifest, contents: seq<seq<byte>>, sh: Share, i: nat, enc: Encoding)
    requires ShareOk(m, sh) && Commits(m, contents) && i < Total(m.sizes) && StorePiece(m, sh, i, enc).Some?
    ensures
      var after, f := StorePiece(m, sh, i, enc).value, FileOf(m.sizes, i);
      && |after.have| == |sh.have| && (forall j :: 0 <= j < |sh.have| && j != i ==> after.have[j] == sh.have[j])
      && |after.files| == |sh.files| && |after.outboards| == |sh.outboards|
      && (forall g :: 0 <= g < |sh.files| && g != f ==>
            after.files[g] == sh.files[g] && after.outboards[g] == sh.outboards[g])
      && FileOk(after.files[f], m.sizes[f])
      && forall b: nat :: b < NumBlocks(m.sizes[f]) && b != BlockIn(m.sizes, i) ==>
           && Written(after.files[f], b) == Written(sh.files[f], b)
           && ReadBlock(after.files[f], m.sizes[f], b) == ReadBlock(sh.files[f], m.sizes[f], b)
  {
    DecodeIsTrue(m, contents, FileOf(m.sizes, i), BlockIn(m.sizes, i), enc);
  }

  /** A piece encodes exactly when its block reads true and its path is right. */
  lemma ServeIff(m: Manifest, contents: seq<seq<byte>>, sh: Share, f: nat, b: nat)
    requires ShareOk(m, sh) && Commits(m, contents) && IsBlock(m, f, b)
    ensures EncodeBlock(m, sh, f, b).Some? <==>
              Proven(m, contents, sh, f, b) && ReadBlock(sh.files[f], m.sizes[f], b) == Split(contents[f])[b]
    ensures EncodeBlock(m, sh, f, b).Some? ==> EncodeBlock(m, sh, f, b).value == TrueProof(m, contents, f, b)
  {
    EncodeIff(sh.outboards[f], DiskBlocks(sh.files[f], m.sizes[f]), Split(contents[f]), Top(NumBlocks(m.sizes[f])), b);
  }

  ghost function PassOn(m: Manifest, from: Share, to: Share, i: nat): Option<Share>
    requires ShareOk(m, from) && ShareOk(m, to) && i < Total(m.sizes)
  {
    var enc := EncodePiece(m, from, i);
    if enc.None? then None else StorePiece(m, to, i, enc.value)
  }

  /** A claimed piece always encodes, and to the true encoding. */
  lemma ServeLaw(m: Manifest, contents: seq<seq<byte>>, sh: Share, i: nat)
    requires Sound(m, contents, sh) && i < Total(m.sizes) && sh.have[i]
    ensures EncodePiece(m, sh, i) == Some(TrueProof(m, contents, FileOf(m.sizes, i), BlockIn(m.sizes, i)))
  {
    assert Held(m, contents, sh, i);
    ServeIff(m, contents, sh, FileOf(m.sizes, i), BlockIn(m.sizes, i));
  }

  lemma PassOnLaw(m: Manifest, contents: seq<seq<byte>>, from: Share, to: Share, i: nat)
    requires Sound(m, contents, from) && Sound(m, contents, to) && i < Total(m.sizes) && from.have[i]
    ensures var r := PassOn(m, from, to, i);
            r.Some? && Sound(m, contents, r.value) && r.value.have[i]
  {
    var f, b := FileOf(m.sizes, i), BlockIn(m.sizes, i);
    ServeLaw(m, contents, from, i);
    ProofHasBlock(Split(contents[f]), Top(NumBlocks(m.sizes[f])), b);
    StoreLaw(m, contents, to, i, TrueProof(m, contents, f, b));
  }

  /** Peers in a row, each fetching piece `i` from the one before it; the result
      is what each ends up with, or nothing if any of them refuses or fails. */
  ghost function Relay(m: Manifest, from: Share, row: seq<Share>, i: nat): Option<seq<Share>>
    requires ShareOk(m, from) && i < Total(m.sizes)
    decreases |row|
  {
    if row == [] then Some([])
    else if !ShareOk(m, row[0]) then None
    else
      var next := PassOn(m, from, row[0], i);
      if next.None? || !ShareOk(m, next.value) then None
      else
        var rest := Relay(m, next.value, row[1..], i);
        if rest.None? then None else Some([next.value] + rest.value)
  }

  /** A held piece reaches every peer of any chain, whatever else they hold. */
  lemma {:induction false} RelayDelivers(m: Manifest, contents: seq<seq<byte>>, from: Share, row: seq<Share>, i: nat)
    requires Sound(m, contents, from) && i < Total(m.sizes) && from.have[i]
    requires forall k :: 0 <= k < |row| ==> Sound(m, contents, row[k])
    ensures var r := Relay(m, from, row, i);
            && r.Some?
            && |r.value| == |row|
            && forall k :: 0 <= k < |row| ==> Sound(m, contents, r.value[k]) && r.value[k].have[i]
    decreases |row|
  {
    if row != [] {
      PassOnLaw(m, contents, from, row[0], i);
      RelayDelivers(m, contents, PassOn(m, from, row[0], i).value, row[1..], i);
    }
  }

  // ---- Starting and resuming ----

  /** The share claims every piece of file `f`. */
  ghost predicate FileComplete(sizes: seq<nat>, have: seq<bool>, f: nat)
    requires |have| == Total(sizes)
  {
    forall i :: 0 <= i < |have| && FileOf(sizes, i) == f ==> have[i]
  }

  /** A plain file that was already there with the right size and hash. */
  predicate FoundComplete(m: Manifest, file: FileData, existed: bool, f: nat)
    requires f < |m.sizes| == |m.roots| && FileOk(file, m.sizes[f])
  {
    file.Plain? && existed && HashData(file, m.sizes[f]) == Some(m.roots[f])
  }

  /** Its outboard is then complete; every other file starts with an empty one. */
  function FirstOutboard(m: Manifest, file: FileData, existed: bool, f: nat): (ob: seq<HashPair>)
    requires f < |m.sizes| == |m.roots| && FileOk(file, m.sizes[f])
    ensures |ob| == OutboardLen(m.sizes[f])
  {
    var leaves := TreeBlocks(DiskBlocks(file, m.sizes[f]));
    if FoundComplete(m, file, existed, f) then FullOutboard(leaves) else EmptyOutboard(|leaves|)
  }

  /** `for_download`: the pieces of files found complete count as downloaded. */
  ghost function NewShare(m: Manifest, onDisk: seq<FileData>, existed: seq<bool>): (sh: Share)
    requires |m.sizes| == |m.roots| == |onDisk| == |existed|
    requires forall f :: 0 <= f < |m.sizes| ==> FileOk(onDisk[f], m.sizes[f])
    ensures ShareOk(m, sh)
  {
    Share(
      seq(Total(m.sizes), i requires 0 <= i < Total(m.sizes) =>
        var f := FileOf(m.sizes, i);
        FoundComplete(m, onDisk[f], existed[f], f)),
      seq(|m.sizes|, f requires 0 <= f < |m.sizes| => FirstOutboard(m, onDisk[f], existed[f], f)),
      onDisk)
  }

  /** Every file's pieces are all claimed or none is. */
  ghost predicate AllOrNothing(m: Manifest, sh: Share)
    requires |sh.have| == Total(m.sizes)
  {
    forall i, j :: 0 <= i < |sh.have| && 0 <= j < |sh.have| && FileOf(m.sizes, i) == FileOf(m.sizes, j) ==>
        sh.have[i] == sh.have[j]
  }

  lemma FoundCompleteIsTrue(m: Manifest, contents: seq<seq<byte>>, file: FileData, existed: bool, f: nat, b: nat)
    requires Commits(m, contents) && IsBlock(m, f, b)
    requires FileOk(file, m.sizes[f]) && FoundComplete(m, file, existed, f)
    ensures ReadBlock(file, m.sizes[f], b) == Split(contents[f])[b]
    ensures PathOk(FirstOutboard(m, file, existed, f), Split(contents[f]), Top(NumBlocks(m.sizes[f])), b)
  {
    var disk, committed := DiskBlocks(file, m.sizes[f]), Split(contents[f]);
    RootInjective(disk, committed, Top(|disk|));
    assert disk == committed;
    assert disk[b] == ReadBlock(file, m.sizes[f], b);
    FullIsOk(FullOutboard(disk), committed, Top(|disk|), b);
  }

  lemma NewShareIsSound(m: Manifest, contents: seq<seq<byte>>, onDisk: seq<FileData>, existed: seq<bool>)
    requires Commits(m, contents) && |m.sizes| == |onDisk| == |existed|
    requires forall f :: 0 <= f < |m.sizes| ==> FileOk(onDisk[f], m.sizes[f])
    ensures Sound(m, contents, NewShare(m, onDisk, existed))
    ensures AllOrNothing(m, NewShare(m, onDisk, existed))
  {
    var sh := NewShare(m, onDisk, existed);
    forall i | 0 <= i < |sh.have| && sh.have[i] ensures Held(m, contents, sh, i) {
      var f, b := FileOf(m.sizes, i), BlockIn(m.sizes, i);
      FoundCompleteIsTrue(m, contents, onDisk[f], existed[f], f, b);
    }
  }

  /** A plain file has the committed hash exactly if all its blocks are the committed ones. */
  lemma HashedTrueIff(m: Manifest, contents: seq<seq<byte>>, file: FileData, f: nat)
    requires Commits(m, contents) && f < |m.sizes| && FileOk(file, m.sizes[f]) && file.Plain?
    ensures HashData(file, m.sizes[f]) == Some(m.roots[f])
            <==> forall b: nat :: b < NumBlocks(m.sizes[f]) ==>
                   ReadBlock(file, m.sizes[f], b) == Split(contents[f])[b]
  {
    var disk, committed := DiskBlocks(file, m.sizes[f]), Split(contents[f]);
    if disk != [] {
      RootInjective(disk, committed, Top(|disk|));
    }
    if forall b: nat :: b < NumBlocks(m.sizes[f]) ==> ReadBlock(file, m.sizes[f], b) == committed[b] {
      assert disk == committed;
    }
    if RootOf(disk) == m.roots[f] {
      assert forall b :: 0 <= b < |disk| ==> disk[b] == committed[b];
      assert forall b: nat :: b < NumBlocks(m.sizes[f]) ==> disk[b] == ReadBlock(file, m.sizes[f], b);
    }
  }

  /** What a new share claims: the pieces of the plain files that were there with
      their size and have every block right, and no others.  No file is touched. */
  lemma NewShareClaimsIff(
      m: Manifest, contents: seq<seq<byte>>, onDisk: seq<FileData>, existed: seq<bool>, i: nat)
    requires Commits(m, contents) && |m.sizes| == |onDisk| == |existed| && i < Total(m.sizes)
    requires forall f :: 0 <= f < |m.sizes| ==> FileOk(onDisk[f], m.sizes[f])
    ensures NewShare(m, onDisk, existed).files == onDisk
    ensures
      var f := FileOf(m.sizes, i);
      NewShare(m, onDisk, existed).have[i] <==>
        && existed[f] && onDisk[f].Plain?
        && forall b: nat :: b < NumBlocks(m.sizes[f]) ==> ReadBlock(onDisk[f], m.sizes[f], b) == Split(contents[f])[b]
  {
    var f := FileOf(m.sizes, i);
    if onDisk[f].Plain? {
      HashedTrueIff(m, contents, onDisk[f], f);
    }
  }

  /** Whether `restore_progress` looks at a file: it has a saved outboard of the
      right length and is not complete already. */
  ghost predicate Considered(m: Manifest, sh: Share, saved: seq<seq<HashPair>>, f: nat)
    requires f < |m.sizes| && |sh.have| == Total(m.sizes)
  {
    f < |saved| && |saved[f]| == OutboardLen(m.sizes[f]) && !FileComplete(m.sizes, sh.have, f)
  }

  /** Block `b` of file `f` verifies against a saved outboard and was written. */
  predicate Recovered(m: Manifest, file: FileData, saved: seq<HashPair>, f: nat, b: nat)
    requires IsBlock(m, f, b) && |m.roots| == |m.sizes| && FileOk(file, m.sizes[f])
             && |saved| == OutboardLen(m.sizes[f])
  {
    && ValidBlocks(m.roots[f], saved, DiskBlocks(file, m.sizes[f]), Top(NumBlocks(m.sizes[f])))[b]
    && Written(file, b)
  }

  ghost function Restore(m: Manifest, sh: Share, saved: seq<seq<HashPair>>): Share
    requires ShareOk(m, sh)
  {
    Share(
      seq(|sh.have|, i requires 0 <= i < |sh.have| =>
        var f, b := FileOf(m.sizes, i), BlockIn(m.sizes, i);
        sh.have[i] || (Considered(m, sh, saved, f) && Recovered(m, sh.files[f], saved[f], f, b))),
      seq(|sh.outboards|, f requires 0 <= f < |sh.outboards| =>
        if Considered(m, sh, saved, f) then saved[f] else sh.outboards[f]),
      sh.files)
  }

  lemma RecoveredIff(m: Manifest, contents: seq<seq<byte>>, sh: Share, saved: seq<HashPair>, f: nat, b: nat)
    requires ShareOk(m, sh) && Commits(m, contents) && IsBlock(m, f, b) && |saved| == OutboardLen(m.sizes[f])
    ensures Recovered(m, sh.files[f], saved, f, b) <==>
              OnDisk(m, contents, sh, f, b) && PathOk(saved, Split(contents[f]), Top(NumBlocks(m.sizes[f])), b)
  {
    var disk, t := DiskBlocks(sh.files[f], m.sizes[f]), Top(NumBlocks(m.sizes[f]));
    ValidIffEncodes(m.roots[f], saved, disk, t, b);
    EncodeIff(saved, disk, Split(contents[f]), t, b);
  }

  /** What is claimed after resuming: what was, and of every file that was not complete
      and has a saved outboard that fits, the pieces on disk whose path in it is right.
      The saved outboard replaces the file's; files are not touched. */
  lemma RestoreClaimsIff(m: Manifest, contents: seq<seq<byte>>, sh: Share, saved: seq<seq<HashPair>>, i: nat)
    requires ShareOk(m, sh) && Commits(m, contents) && i < Total(m.sizes)
    ensures
      var after, f, b := Restore(m, sh, saved), FileOf(m.sizes, i), BlockIn(m.sizes, i);
      var fits :=
        f < |saved| && |saved[f]| == |sh.outboards[f]|
        && exists j :: 0 <= j < |sh.have| && FileOf(m.sizes, j) == f && !sh.have[j];
      && after.files == sh.files && |after.have| == |sh.have| && |after.outboards| == |sh.outboards|
      && (after.have[i] <==>
            sh.have[i] || (fits && OnDisk(m, contents, sh, f, b) &&
                           PathOk(saved[f], Split(contents[f]), Top(NumBlocks(m.sizes[f])), b)))
      && after.outboards[f] == if fits then saved[f] else sh.outboards[f]
  {
    var f, b := FileOf(m.sizes, i), BlockIn(m.sizes, i);
    if f < |saved| && |saved[f]| == |sh.outboards[f]| {
      RecoveredIff(m, contents, sh, saved[f], f, b);
    }
  }

  /** Resuming from any saved state, stale or tampered with, on any disk, gives a
      sound share exactly when it did not overwrite the proof of a piece already
      claimed. */
  lemma RestoreSoundIff(m: Manifest, contents: seq<seq<byte>>, sh: Share, saved: seq<seq<HashPair>>)
    requires Sound(m, contents, sh)
    ensures Sound(m, contents, Restore(m, sh, saved)) <==>
              forall i: nat :: i < |sh.have| && sh.have[i] && Considered(m, sh, saved, FileOf(m.sizes, i)) ==>
                Recovered(m, sh.files[FileOf(m.sizes, i)], saved[FileOf(m.sizes, i)], FileOf(m.sizes, i),
                    BlockIn(m.sizes, i))
  {
    var after := Restore(m, sh, saved);
    forall i: nat | i < |sh.have| && after.have[i]
      ensures Held(m, contents, after, i) <==>
                (Considered(m, sh, saved, FileOf(m.sizes, i)) ==>
                   Recovered(m, sh.files[FileOf(m.sizes, i)], saved[FileOf(m.sizes, i)], FileOf(m.sizes, i),
                       BlockIn(m.sizes, i)))
    {
      var f, b := FileOf(m.sizes, i), BlockIn(m.sizes, i);
      if Considered(m, sh, saved, f) {
        RecoveredIff(m, contents, sh, saved[f], f, b);
      } else {
        assert sh.have[i] && Held(m, contents, sh, i);
      }
    }
  }

  /** A file of two blocks of which the first is claimed, and a saved outboard with
      nothing in it: resuming spoils the proof of the claimed piece. */
  lemma ResumeCanSpoilAProof() returns (m: Manifest, contents: seq<seq<byte>>, sh: Share, saved: seq<seq<HashPair>>)
    ensures Sound(m, contents, sh) && !Sound(m, contents, Restore(m, sh, saved))
  {
    var blocks := Split(Zeros(BLOCK + 1));
    contents, m := [Zeros(BLOCK + 1)], Manifest([BLOCK + 1], [RootOf(blocks)]);
    sh, saved := Share([true, false], [FullOutboard(blocks)], [Plain(blocks)]), [EmptyOutboard(2)];
    assert NumBlocks(BLOCK + 1) == 2 && PiecesBefore(m.sizes, 1) == 2 == Total(m.sizes);
    assert ShareOk(m, sh) && Commits(m, contents);
    forall i | 0 <= i < 2 ensures Held(m, contents, sh, i) {
      FullIsOk(FullOutboard(blocks), blocks, Top(2), BlockIn(m.sizes, i));
    }
    assert FileOf(m.sizes, 0) == 0 == FileOf(m.sizes, 1);
    assert !FileComplete(m.sizes, sh.have, 0);
    RestoreSoundIff(m, contents, sh, saved);
    RecoveredIff(m, contents, sh, saved[0], 0, BlockIn(m.sizes, 0));
    assert EmptyOutboard(2)[0] != TruePair(blocks, Top(2));
  }

  /** In particular straight after `for_download`, the only place it is used. */
  lemma ResumeIsSound(m: Manifest, contents: seq<seq<byte>>, sh: Share, saved: seq<seq<HashPair>>)
    requires Sound(m, contents, sh) && AllOrNothing(m, sh)
    ensures Sound(m, contents, Restore(m, sh, saved))
  {
    RestoreSoundIff(m, contents, sh, saved);
    forall i: nat | i < |sh.have| && sh.have[i] ensures FileComplete(m.sizes, sh.have, FileOf(m.sizes, i)) {
    }
  }

  /** A piece still on disk is claimed again if the saved outboard of its file was
      taken from a share in which the piece was provable; the other files' saved
      outboards do not matter. */
  lemma ResumeIsComplete(
      m: Manifest, contents: seq<seq<byte>>, source: Share, saved: seq<seq<HashPair>>, sh: Share, i: nat)
    requires ShareOk(m, source) && ShareOk(m, sh) && Commits(m, contents) && i < Total(m.sizes)
    requires Proven(m, contents, source, FileOf(m.sizes, i), BlockIn(m.sizes, i))
    requires FileOf(m.sizes, i) < |saved| && saved[FileOf(m.sizes, i)] == source.outboards[FileOf(m.sizes, i)]
    requires OnDisk(m, contents, sh, FileOf(m.sizes, i), BlockIn(m.sizes, i))
    ensures Restore(m, sh, saved).have[i]
  {
    var f, b := FileOf(m.sizes, i), BlockIn(m.sizes, i);
    RecoveredIff(m, contents, sh, saved[f], f, b);
  }

  // ---- Whole files ----

  /** What `verify` checks of one file. */
  predicate Verifies(m: Manifest, sh: Share, f: nat)
    requires ShareOk(m, sh) && f < |m.sizes|
  {
    HashData(sh.files[f], m.sizes[f]) == Some(m.roots[f])
  }

  function FileBytes(file: FileData, size: nat): seq<byte>
    requires FileOk(file, size)
  {
    seq(size, pos requires 0 <= pos < size =>
      BlockOf(size, pos, pos / BLOCK);
      ReadBlock(file, size, pos / BLOCK)[pos % BLOCK])
  }

  /** A file verifies exactly when every block is really there and committed; its
      bytes are then the shared file's. */
  lemma VerifiesIff(m: Manifest, contents: seq<seq<byte>>, sh: Share, f: nat)
    requires ShareOk(m, sh) && Commits(m, contents) && f < |m.sizes|
    ensures Verifies(m, sh, f) <==> forall b: nat :: IsBlock(m, f, b) ==> OnDisk(m, contents, sh, f, b)
    ensures Verifies(m, sh, f) ==> FileBytes(sh.files[f], m.sizes[f]) == contents[f]
  {
    var disk, committed := DiskBlocks(sh.files[f], m.sizes[f]), Split(contents[f]);
    if disk != [] {
      RootInjective(disk, committed, Top(|disk|));
    }
    if Verifies(m, sh, f) {
      assert forall b :: 0 <= b < |disk| ==> disk[b] == committed[b];
      forall pos: nat | pos < m.sizes[f] ensures FileBytes(sh.files[f], m.sizes[f])[pos] == contents[f][pos] {
        SplitIsExact(contents[f], pos);
      }
    }
    if forall b: nat :: IsBlock(m, f, b) ==> OnDisk(m, contents, sh, f, b) {
      forall b | 0 <= b < |disk| ensures disk[b] == committed[b] && Written(sh.files[f], b) {
        assert IsBlock(m, f, b) && OnDisk(m, contents, sh, f, b);
      }
      assert disk == committed;
    }
  }

  /** Once every piece of a file is claimed, the file verifies and is the shared one. */
  lemma CompleteVerifies(m: Manifest, contents: seq<seq<byte>>, sh: Share, f: nat)
    requires Sound(m, contents, sh) && f < |m.sizes| && FileComplete(m.sizes, sh.have, f)
    ensures Verifies(m, sh, f) && FileBytes(sh.files[f], m.sizes[f]) == contents[f]
  {
    forall b: nat | IsBlock(m, f, b) ensures OnDisk(m, contents, sh, f, b) {
      var i := PieceAt(m.sizes, f, b);
      assert sh.have[i] && Held(m, contents, sh, i);
    }
    VerifiesIff(m, contents, sh, f);
  }
}
