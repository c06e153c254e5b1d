/** Shares some of whose blocks are being rewritten (crates/chorrent/src/local.rs).
    Writing a block takes time, and readers open files of their own without
    waiting for the writer.  Meanwhile an encrypted slot does not open, and a
    block of a plain file is a mix of old and new bytes. */
module TornWrites {
  import opened Blocks
  import opened Layouts
  import opened Shares
  import opened Wrappers
  import L = ShareLaws

  /** `was` with those bytes of `next` that have arrived. */
  function Mixed(was: seq<byte>, next: seq<byte>, arrived: seq<bool>): (r: seq<byte>)
    ensures |r| == |was|
  {
    seq(|was|, k requires 0 <= k < |was| => if k < |arrived| && k < |next| && arrived[k] then next[k] else was[k])
  }

  /** A file while block `b` of it is being written. */
  function BeginWrite(file: FileData, b: nat, bytes: seq<byte>, arrived: seq<bool>): FileData {
    match file
    case Plain(blocks) => if b < |blocks| then Plain(blocks[b := Mixed(blocks[b], bytes, arrived)]) else file
    case Encrypted(slots) => if b < |slots| then Encrypted(slots[b := None]) else file
  }

  function BeginPiece(sh: Share, f: nat, b: nat, bytes: seq<byte>, arrived: seq<bool>): Share
    requires f < |sh.files|
  {
    sh.(files := sh.files[f := BeginWrite(sh.files[f], b, bytes, arrived)])
  }

  // ---- Soundness but for unfinished writes ----

  ghost predicate PieceOnDisk(m: Manifest, contents: seq<seq<byte>>, sh: Share, i: nat)
    requires ShareOk(m, sh) && Commits(m, contents) && i < Total(m.sizes)
  {
    OnDisk(m, contents, sh, FileOf(m.sizes, i), BlockIn(m.sizes, i))
  }

  ghost predicate PieceProven(m: Manifest, contents: seq<seq<byte>>, sh: Share, i: nat)
    requires ShareOk(m, sh) && Commits(m, contents) && i < Total(m.sizes)
  {
    Proven(m, contents, sh, FileOf(m.sizes, i), BlockIn(m.sizes, i))
  }

  /** The piece is in an encrypted file and its last write, if any, has not finished. */
  ghost predicate Hole(m: Manifest, sh: Share, torn: set<nat>, i: nat)
    requires ShareOk(m, sh) && i < Total(m.sizes)
  {
    i in torn && sh.files[FileOf(m.sizes, i)].Encrypted?
  }

  /** The piece has been written truly, though it may be being written again. */
  ghost predicate Landed(m: Manifest, contents: seq<seq<byte>>, sh: Share, torn: set<nat>, i: nat)
    requires ShareOk(m, sh) && Commits(m, contents) && i < Total(m.sizes)
  {
    PieceOnDisk(m, contents, sh, i) || Hole(m, sh, torn, i)
  }

  /** Nothing can be read of a hole. */
  ghost predicate HolesAreEmpty(m: Manifest, sh: Share, torn: set<nat>)
    requires ShareOk(m, sh)
  {
    forall i :: 0 <= i < Total(m.sizes) && Hole(m, sh, torn, i) ==>
      !Written(sh.files[FileOf(m.sizes, i)], BlockIn(m.sizes, i))
  }

  /** Every claimed piece is provable, and on disk unless it is a hole. */
  ghost predicate SoundBut(m: Manifest, contents: seq<seq<byte>>, sh: Share, torn: set<nat>) {
    && ShareOk(m, sh)
    && Commits(m, contents)
    && HolesAreEmpty(m, sh, torn)
    && forall i :: 0 <= i < |sh.have| && sh.have[i] ==>
         Landed(m, contents, sh, torn, i) && PieceProven(m, contents, sh, i)
  }

  /** What has landed and what is provable stays so. */
  ghost predicate Kept(m: Manifest, contents: seq<seq<byte>>, sh: Share, torn: set<nat>, sh': Share, torn': set<nat>)
    requires ShareOk(m, sh) && ShareOk(m, sh') && Commits(m, contents)
  {
    forall i :: 0 <= i < Total(m.sizes) ==>
      && (Landed(m, contents, sh, torn, i) ==> Landed(m, contents, sh', torn', i))
      && (PieceProven(m, contents, sh, i) ==> PieceProven(m, contents, sh', i))
  }

  lemma KeptIsSoundBut(m: Manifest, contents: seq<seq<byte>>, sh: Share, torn: set<nat>, sh': Share, torn': set<nat>)
    requires SoundBut(m, contents, sh, torn) && ShareOk(m, sh') && HolesAreEmpty(m, sh', torn')
    requires sh'.have == sh.have && Kept(m, contents, sh, torn, sh', torn')
    ensures SoundBut(m, contents, sh', torn')
  {
  }

  /** Different pieces are different blocks. */
  lemma PieceIsItsBlock(sizes: seq<nat>, i: nat, j: nat)
    requires i < Total(sizes) && j < Total(sizes)
    ensures FileOf(sizes, i) == FileOf(sizes, j) && BlockIn(sizes, i) == BlockIn(sizes, j) <==> i == j
  {
  }

  // ---- The stages ----

  /** The share with another version of one file, the same but for block `b`. */
  ghost predicate DiffersAt(m: Manifest, sh: Share, f: nat, b: nat, after: Share)
    requires ShareOk(m, sh) && f < |m.sizes|
  {
    && |after.files| == |sh.files|
    && after == sh.(files := sh.files[f := after.files[f]])
    && FileOk(after.files[f], m.sizes[f])
    && after.files[f].Plain? == sh.files[f].Plain?
    && forall c: nat :: c < NumBlocks(m.sizes[f]) && c != b ==>
         && Written(after.files[f], c) == Written(sh.files[f], c)
         && ReadBlock(after.files[f], m.sizes[f], c) == ReadBlock(sh.files[f], m.sizes[f], c)
  }

  /** Every other piece is as it was. */
  lemma Elsewhere(m: Manifest, contents: seq<seq<byte>>, sh: Share, i: nat, after: Share, j: nat)
    requires ShareOk(m, sh) && Commits(m, contents) && i < Total(m.sizes) && j < Total(m.sizes)
    requires DiffersAt(m, sh, FileOf(m.sizes, i), BlockIn(m.sizes, i), after)
    ensures ShareOk(m, after) && PieceProven(m, contents, after, j) == PieceProven(m, contents, sh, j)
    ensures after.files[FileOf(m.sizes, j)].Plain? == sh.files[FileOf(m.sizes, j)].Plain?
    ensures j != i ==> PieceOnDisk(m, contents, after, j) == PieceOnDisk(m, contents, sh, j)
    ensures j != i ==>
              Written(after.files[FileOf(m.sizes, j)], BlockIn(m.sizes, j))
              == Written(sh.files[FileOf(m.sizes, j)], BlockIn(m.sizes, j))
  {
    PieceIsItsBlock(m.sizes, i, j);
  }

  /** One block changes: enough for everything else to be kept. */
  lemma OneBlock(
      m: Manifest, contents: seq<seq<byte>>, sh: Share, torn: set<nat>, i: nat, after: Share, torn': set<nat>)
    requires ShareOk(m, sh) && Commits(m, contents) && i < Total(m.sizes) && HolesAreEmpty(m, sh, torn)
    requires DiffersAt(m, sh, FileOf(m.sizes, i), BlockIn(m.sizes, i), after)
    requires (forall j :: j != i ==> (j in torn' <==> j in torn)) && ShareOk(m, after)
    requires Landed(m, contents, sh, torn, i) ==> Landed(m, contents, after, torn', i)
    requires Hole(m, after, torn', i) ==> !Written(after.files[FileOf(m.sizes, i)], BlockIn(m.sizes, i))
    ensures HolesAreEmpty(m, after, torn') && Kept(m, contents, sh, torn, after, torn')
  {
    forall j | 0 <= j < Total(m.sizes)
      ensures Landed(m, contents, sh, torn, j) ==> Landed(m, contents, after, torn', j)
      ensures PieceProven(m, contents, sh, j) ==> PieceProven(m, contents, after, j)
      ensures Hole(m, after, torn', j) ==> !Written(after.files[FileOf(m.sizes, j)], BlockIn(m.sizes, j))
    {
      Elsewhere(m, contents, sh, i, after, j);
    }
  }

  lemma BeginDiffers(m: Manifest, sh: Share, f: nat, b: nat, bytes: seq<byte>, arrived: seq<bool>)
    requires ShareOk(m, sh) && IsBlock(m, f, b)
    ensures DiffersAt(m, sh, f, b, BeginPiece(sh, f, b, bytes, arrived))
  {
  }

  lemma WriteDiffers(m: Manifest, sh: Share, f: nat, b: nat, bytes: seq<byte>)
    requires ShareOk(m, sh) && IsBlock(m, f, b) && |bytes| == BlockLen(m.sizes[f], b)
    ensures DiffersAt(m, sh, f, b, WritePiece(sh, f, b, bytes))
  {
  }

  /** Writing the true block begins. */
  lemma BeginStage(m: Manifest, contents: seq<seq<byte>>, sh: Share, torn: set<nat>, i: nat, arrived: seq<bool>)
    requires ShareOk(m, sh) && Commits(m, contents) && i < Total(m.sizes) && HolesAreEmpty(m, sh, torn)
    ensures var f, b := FileOf(m.sizes, i), BlockIn(m.sizes, i);
            var after := BeginPiece(sh, f, b, Split(contents[f])[b], arrived);
            && ShareOk(m, after)
            && HolesAreEmpty(m, after, torn + {i})
            && Kept(m, contents, sh, torn, after, torn + {i})
  {
    var f, b := FileOf(m.sizes, i), BlockIn(m.sizes, i);
    var truth := Split(contents[f])[b];
    var after := BeginPiece(sh, f, b, truth, arrived);
    BeginDiffers(m, sh, f, b, truth, arrived);
    Elsewhere(m, contents, sh, i, after, i);
    if sh.files[f].Plain? && sh.files[f].blocks[b] == truth {
      assert Mixed(truth, truth, arrived) == truth;
    }
    OneBlock(m, contents, sh, torn, i, after, torn + {i});
  }

  lemma WrittenIsThere(sh: Share, f: nat, b: nat, size: nat, bytes: seq<byte>)
    requires f < |sh.files| && FileOk(sh.files[f], size) && b < NumBlocks(size) && |bytes| == BlockLen(size, b)
    ensures var file := WritePiece(sh, f, b, bytes).files[f];
            FileOk(file, size) && Written(file, b) && ReadBlock(file, size, b) == bytes
  {
  }

  /** Writing it ends. */
  lemma EndStage(m: Manifest, contents: seq<seq<byte>>, sh: Share, torn: set<nat>, i: nat)
    requires ShareOk(m, sh) && Commits(m, contents) && i < Total(m.sizes) && HolesAreEmpty(m, sh, torn)
    ensures var f, b := FileOf(m.sizes, i), BlockIn(m.sizes, i);
            var after := WritePiece(sh, f, b, Split(contents[f])[b]);
            && ShareOk(m, after)
            && HolesAreEmpty(m, after, torn - {i})
            && PieceOnDisk(m, contents, after, i)
            && Kept(m, contents, sh, torn, after, torn - {i})
  {
    var f, b := FileOf(m.sizes, i), BlockIn(m.sizes, i);
    var truth := Split(contents[f])[b];
    var after := WritePiece(sh, f, b, truth);
    WriteDiffers(m, sh, f, b, truth);
    Elsewhere(m, contents, sh, i, after, i);
    WrittenIsThere(sh, f, b, m.sizes[f], truth);
    OneBlock(m, contents, sh, torn, i, after, torn - {i});
  }

  lemma SaveStage(m: Manifest, contents: seq<seq<byte>>, sh: Share, torn: set<nat>, i: nat)
    requires ShareOk(m, sh) && Commits(m, contents) && i < Total(m.sizes) && HolesAreEmpty(m, sh, torn)
    ensures var f, b := FileOf(m.sizes, i), BlockIn(m.sizes, i);
            var after := SaveProof(sh, f, TrueDecoded(m, contents, f, b).nodes);
            && ShareOk(m, after)
            && HolesAreEmpty(m, after, torn)
            && PieceProven(m, contents, after, i)
            && Kept(m, contents, sh, torn, after, torn)
  {
    var f, b := FileOf(m.sizes, i), BlockIn(m.sizes, i);
    ProofStage(m, contents, sh, f, b);
    forall j | 0 <= j < Total(m.sizes) ensures IsBlock(m, FileOf(m.sizes, j), BlockIn(m.sizes, j)) {
    }
  }

  lemma MarkKeeps(m: Manifest, contents: seq<seq<byte>>, sh: Share, torn: set<nat>, i: nat)
    requires SoundBut(m, contents, sh, torn) && i < Total(m.sizes)
    requires Landed(m, contents, sh, torn, i) && PieceProven(m, contents, sh, i)
    ensures SoundBut(m, contents, MarkHave(sh, i), torn)
    ensures Kept(m, contents, sh, torn, MarkHave(sh, i), torn)
  {
    var after := MarkHave(sh, i);
    forall j | 0 <= j < |after.have| && after.have[j]
      ensures Landed(m, contents, after, torn, j) && PieceProven(m, contents, after, j)
    {
      assert j != i ==> sh.have[j];
    }
  }

  // ---- What unfinished writes do to readers ----

  /** With no unfinished write this is soundness. */
  lemma SoundButNothing(m: Manifest, contents: seq<seq<byte>>, sh: Share)
    ensures SoundBut(m, contents, sh, {}) <==> Sound(m, contents, sh)
  {
    if Sound(m, contents, sh) {
      forall i | 0 <= i < |sh.have| && sh.have[i]
        ensures Landed(m, contents, sh, {}, i) && PieceProven(m, contents, sh, i)
      {
        assert Held(m, contents, sh, i);
      }
    }
    if SoundBut(m, contents, sh, {}) {
      forall i | 0 <= i < |sh.have| && sh.have[i] ensures Held(m, contents, sh, i) {
        assert Landed(m, contents, sh, {}, i) && PieceProven(m, contents, sh, i);
      }
    }
  }

  /** A claimed piece is on disk exactly unless it is a hole. */
  lemma OnDiskIff(m: Manifest, contents: seq<seq<byte>>, sh: Share, torn: set<nat>, i: nat)
    requires SoundBut(m, contents, sh, torn) && i < Total(m.sizes) && sh.have[i]
    ensures PieceOnDisk(m, contents, sh, i) <==> !Hole(m, sh, torn, i)
  {
    assert Landed(m, contents, sh, torn, i);
  }

  /** A claimed piece encodes, and then truly, exactly if it is no hole, or if its
      bytes are the zeros that a hole reads as. */
  lemma EncodesIff(m: Manifest, contents: seq<seq<byte>>, sh: Share, torn: set<nat>, i: nat)
    requires SoundBut(m, contents, sh, torn) && i < Total(m.sizes) && sh.have[i]
    ensures var f, b, r := FileOf(m.sizes, i), BlockIn(m.sizes, i), L.EncodePiece(m, sh, i);
            && (r.Some? <==>
                  !Hole(m, sh, torn, i) || Split(contents[f])[b] == Zeros(BlockLen(m.sizes[f], b)))
            && (r.Some? ==> r.value == TrueProof(m, contents, f, b))
  {
    assert Landed(m, contents, sh, torn, i) && PieceProven(m, contents, sh, i);
    L.ServeIff(m, contents, sh, FileOf(m.sizes, i), BlockIn(m.sizes, i));
  }

  /** A file all of whose pieces are claimed verifies exactly if none is a hole. */
  lemma FileVerifiesIff(m: Manifest, contents: seq<seq<byte>>, sh: Share, torn: set<nat>, f: nat)
    requires SoundBut(m, contents, sh, torn) && f < |m.sizes| && L.FileComplete(m.sizes, sh.have, f)
    ensures L.Verifies(m, sh, f) <==>
              forall i :: 0 <= i < Total(m.sizes) && FileOf(m.sizes, i) == f ==> !Hole(m, sh, torn, i)
    ensures L.Verifies(m, sh, f) ==> L.FileBytes(sh.files[f], m.sizes[f]) == contents[f]
  {
    L.VerifiesIff(m, contents, sh, f);
    forall i | 0 <= i < Total(m.sizes) && FileOf(m.sizes, i) == f
      ensures OnDisk(m, contents, sh, f, BlockIn(m.sizes, i)) <==> !Hole(m, sh, torn, i)
    {
      OnDiskIff(m, contents, sh, torn, i);
    }
    forall b: nat | IsBlock(m, f, b)
      ensures exists i :: 0 <= i < Total(m.sizes) && FileOf(m.sizes, i) == f && BlockIn(m.sizes, i) == b
    {
      var i := PieceAt(m.sizes, f, b);
    }
  }
}
