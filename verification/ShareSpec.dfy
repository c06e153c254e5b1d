/** A share as a node holds it, as a value (crates/chorrent/src/local.rs): which
    pieces it claims, each file's outboard, and what is on disk. */
module Shares {
  import opened Blocks
  import opened Chunker
  import opened Layouts
  import opened Wrappers

  /** A file's bytes, block by block.  A slot of an encrypted file may never have
      been written; it then reads as zeros. */
  datatype FileData = Plain(blocks: seq<seq<byte>>) | Encrypted(slots: seq<Option<seq<byte>>>)

  datatype Manifest = Manifest(sizes: seq<nat>, roots: seq<Hash>)

  datatype Share = Share(have: seq<bool>, outboards: seq<seq<HashPair>>, files: seq<FileData>)

  // ---- Pieces and blocks ----

  /** The file piece `i` is in: the one `locate` gives. */
  ghost function FileOf(sizes: seq<nat>, i: nat): (f: nat)
    requires i < Total(sizes)
    ensures f < |sizes| && InFile(sizes, f, i)
  {
    LocateInvertsPiecesOf(sizes, Locate(sizes, i).file, i);
    var f: nat :| InFile(sizes, f, i);
    f
  }

  /** Its block in that file. */
  ghost function BlockIn(sizes: seq<nat>, i: nat): (b: nat)
    requires i < Total(sizes)
    ensures b < NumBlocks(sizes[FileOf(sizes, i)])
  {
    i - PiecesBefore(sizes, FileOf(sizes, i))
  }

  lemma LocateIs(sizes: seq<nat>, i: nat)
    requires i < Total(sizes)
    ensures Locate(sizes, i).file == FileOf(sizes, i)
    ensures Locate(sizes, i).start == BlockIn(sizes, i) * BLOCK
    ensures Locate(sizes, i).start / BLOCK == BlockIn(sizes, i)
    ensures Locate(sizes, i).end - Locate(sizes, i).start == BlockLen(sizes[FileOf(sizes, i)], BlockIn(sizes, i))
  {
    LocateRange(sizes, FileOf(sizes, i), i);
  }

  lemma FileOfIs(sizes: seq<nat>, f: nat, i: nat)
    requires i < Total(sizes)
    ensures FileOf(sizes, i) == f <==> InFile(sizes, f, i)
  {
    if InFile(sizes, f, i) {
      InOneFile(sizes, f, FileOf(sizes, i), i);
    }
  }

  /** A file's pieces are the ones in its range. */
  lemma PiecesOfFile(sizes: seq<nat>, f: nat)
    requires f < |sizes|
    ensures PiecesOf(sizes, f).1 <= Total(sizes)
    ensures forall i :: 0 <= i < Total(sizes) ==>
             (FileOf(sizes, i) == f <==> PiecesOf(sizes, f).0 <= i < PiecesOf(sizes, f).1)
  {
    PiecesBeforeGrows(sizes, f, |sizes|);
    forall i: nat | i < Total(sizes) ensures FileOf(sizes, i) == f <==> InFile(sizes, f, i) {
      FileOfIs(sizes, f, i);
    }
  }

  lemma PieceAt(sizes: seq<nat>, f: nat, b: nat) returns (i: nat)
    requires f < |sizes| && b < NumBlocks(sizes[f])
    ensures i < Total(sizes) && FileOf(sizes, i) == f && BlockIn(sizes, i) == b
  {
    i := PiecesBefore(sizes, f) + b;
    PiecesBeforeGrows(sizes, f, |sizes|);
    InOneFile(sizes, f, FileOf(sizes, i), i);
  }

  /** The leaves of a file's hash tree; an empty file has one empty leaf. */
  function TreeBlocks(blocks: seq<seq<byte>>): (r: seq<seq<byte>>)
    ensures |r| > 0
  {
    if blocks == [] then [[]] else blocks
  }

  function RootOf(blocks: seq<seq<byte>>): Hash {
    Root(TreeBlocks(blocks), Top(|TreeBlocks(blocks)|))
  }

  function OutboardLen(size: nat): nat {
    if NumBlocks(size) == 0 then 0 else NumBlocks(size) - 1
  }

  // ---- Reading the disk ----

  predicate FileOk(file: FileData, size: nat) {
    match file
    case Plain(blocks) =>
      && |blocks| == NumBlocks(size)
      && forall b :: 0 <= b < |blocks| ==> |blocks[b]| == BlockLen(size, b)
    case Encrypted(slots) =>
      && |slots| == NumBlocks(size)
      && forall b :: 0 <= b < |slots| && slots[b].Some? ==> |slots[b].value| == BlockLen(size, b)
  }

  function ReadBlock(file: FileData, size: nat, b: nat): seq<byte>
    requires FileOk(file, size) && b < NumBlocks(size)
  {
    match file
    case Plain(blocks) => blocks[b]
    case Encrypted(slots) => if slots[b].Some? then slots[b].value else Zeros(BlockLen(size, b))
  }

  function DiskBlocks(file: FileData, size: nat): (r: seq<seq<byte>>)
    requires FileOk(file, size)
    ensures |r| == NumBlocks(size)
  {
    seq(NumBlocks(size), b requires 0 <= b < NumBlocks(size) => ReadBlock(file, size, b))
  }

  /** The block is really there: in a plain file always, in an encrypted one if
      its slot was written. */
  predicate Written(file: FileData, b: nat) {
    file.Encrypted? ==> b < |file.slots| && file.slots[b].Some?
  }

  function WriteBlock(file: FileData, b: nat, bytes: seq<byte>): FileData {
    match file
    case Plain(blocks) => if b < |blocks| then Plain(blocks[b := bytes]) else file
    case Encrypted(slots) => if b < |slots| then Encrypted(slots[b := Some(bytes)]) else file
  }

  /** `hash_data`: a strict read, which fails on a slot never written. */
  function HashData(file: FileData, size: nat): Option<Hash>
    requires FileOk(file, size)
  {
    if forall b :: 0 <= b < NumBlocks(size) ==> Written(file, b) then Some(RootOf(DiskBlocks(file, size))) else None
  }

  // ---- Shares ----

  predicate ShareOk(m: Manifest, sh: Share) {
    && |m.roots| == |m.sizes| == |sh.outboards| == |sh.files|
    && |sh.have| == Total(m.sizes)
    && forall f :: 0 <= f < |m.sizes| ==>
        FileOk(sh.files[f], m.sizes[f]) && |sh.outboards[f]| == OutboardLen(m.sizes[f])
  }

  /** The manifest commits to these contents. */
  predicate Commits(m: Manifest, contents: seq<seq<byte>>) {
    && |m.roots| == |m.sizes| == |contents|
    && forall f :: 0 <= f < |contents| ==> |contents[f]| == m.sizes[f] && RootOf(Split(contents[f])) == m.roots[f]
  }

  predicate IsBlock(m: Manifest, f: nat, b: nat) {
    f < |m.sizes| && b < NumBlocks(m.sizes[f])
  }

  /** Block `b` of file `f` is really on disk and is the committed one. */
  predicate OnDisk(m: Manifest, contents: seq<seq<byte>>, sh: Share, f: nat, b: nat)
    requires ShareOk(m, sh) && Commits(m, contents) && IsBlock(m, f, b)
  {
    Written(sh.files[f], b) && ReadBlock(sh.files[f], m.sizes[f], b) == Split(contents[f])[b]
  }

  /** The pairs on the block's path in the outboard are the committed ones. */
  predicate Proven(m: Manifest, contents: seq<seq<byte>>, sh: Share, f: nat, b: nat)
    requires ShareOk(m, sh) && Commits(m, contents) && IsBlock(m, f, b)
  {
    PathOk(sh.outboards[f], Split(contents[f]), Top(NumBlocks(m.sizes[f])), b)
  }

  ghost predicate Held(m: Manifest, contents: seq<seq<byte>>, sh: Share, i: nat)
    requires ShareOk(m, sh) && Commits(m, contents) && i < Total(m.sizes)
  {
    var f, b := FileOf(m.sizes, i), BlockIn(m.sizes, i);
    OnDisk(m, contents, sh, f, b) && Proven(m, contents, sh, f, b)
  }

  /** Every piece the share claims is on disk, true, and provable. */
  ghost predicate Sound(m: Manifest, contents: seq<seq<byte>>, sh: Share) {
    && ShareOk(m, sh)
    && Commits(m, contents)
    && forall i :: 0 <= i < |sh.have| && sh.have[i] ==> Held(m, contents, sh, i)
  }

  /** Everything that was right in `sh` still is in `after`. */
  ghost predicate NothingLost(m: Manifest, contents: seq<seq<byte>>, sh: Share, after: Share)
    requires ShareOk(m, sh) && ShareOk(m, after) && Commits(m, contents)
  {
    forall f: nat, b: nat :: IsBlock(m, f, b) ==>
      && (OnDisk(m, contents, sh, f, b) ==> OnDisk(m, contents, after, f, b))
      && (Proven(m, contents, sh, f, b) ==> Proven(m, contents, after, f, b))
  }

  // ---- The stages of `store_piece` and `encode_piece`, for block `b` of file `f` ----

  function DecodeBlock(m: Manifest, f: nat, b: nat, enc: Encoding): Option<Decoded>
    requires IsBlock(m, f, b) && |m.roots| == |m.sizes|
  {
    Decode(m.roots[f], Top(NumBlocks(m.sizes[f])), b, BlockLen(m.sizes[f], b), enc)
  }

  function WritePiece(sh: Share, f: nat, b: nat, bytes: seq<byte>): Share
    requires f < |sh.files|
  {
    sh.(files := sh.files[f := WriteBlock(sh.files[f], b, bytes)])
  }

  function SaveProof(sh: Share, f: nat, nodes: ProofNodes): Share
    requires f < |sh.outboards|
  {
    sh.(outboards := sh.outboards[f := Apply(sh.outboards[f], nodes)])
  }

  function MarkHave(sh: Share, i: nat): Share
    requires i < |sh.have|
  {
    sh.(have := sh.have[i := true])
  }

  function EncodeBlock(m: Manifest, sh: Share, f: nat, b: nat): Option<Encoding>
    requires ShareOk(m, sh) && IsBlock(m, f, b)
  {
    Encode(m.roots[f], sh.outboards[f], DiskBlocks(sh.files[f], m.sizes[f]), Top(NumBlocks(m.sizes[f])), b)
  }

  function TrueProof(m: Manifest, contents: seq<seq<byte>>, f: nat, b: nat): Encoding
    requires Commits(m, contents) && IsBlock(m, f, b)
  {
    Proof(Split(contents[f]), Top(NumBlocks(m.sizes[f])), b)
  }

  function TrueDecoded(m: Manifest, contents: seq<seq<byte>>, f: nat, b: nat): Decoded
    requires Commits(m, contents) && IsBlock(m, f, b)
  {
    Decoded(TrueNodes(Split(contents[f]), Top(NumBlocks(m.sizes[f])), b), Split(contents[f])[b])
  }

  // ---- What each stage does to every block ----

  /** Only the true proof and the true block are accepted, and what is recorded
      are the true pairs. */
  lemma DecodeIsTrue(m: Manifest, contents: seq<seq<byte>>, f: nat, b: nat, enc: Encoding)
    requires Commits(m, contents) && IsBlock(m, f, b)
    ensures DecodeBlock(m, f, b, enc).Some? <==>
              enc.path == TrueProof(m, contents, f, b).path && Split(contents[f])[b] <= enc.data
    ensures DecodeBlock(m, f, b, enc).Some? ==> DecodeBlock(m, f, b, enc).value == TrueDecoded(m, contents, f, b)
  {
    DecodeIff(Split(contents[f]), Top(NumBlocks(m.sizes[f])), b, enc);
  }

  lemma WriteStage(m: Manifest, contents: seq<seq<byte>>, sh: Share, f: nat, b: nat)
    requires ShareOk(m, sh) && Commits(m, contents) && IsBlock(m, f, b)
    ensures var after := WritePiece(sh, f, b, Split(contents[f])[b]);
            && ShareOk(m, after)
            && OnDisk(m, contents, after, f, b)
            && NothingLost(m, contents, sh, after)
  {
    var after := WritePiece(sh, f, b, Split(contents[f])[b]);
    assert FileOk(after.files[f], m.sizes[f]);
  }

  lemma ProofStage(m: Manifest, contents: seq<seq<byte>>, sh: Share, f: nat, b: nat)
    requires ShareOk(m, sh) && Commits(m, contents) && IsBlock(m, f, b)
    ensures var after := SaveProof(sh, f, TrueDecoded(m, contents, f, b).nodes);
            && ShareOk(m, after)
            && Proven(m, contents, after, f, b)
            && NothingLost(m, contents, sh, after)
  {
    forall c: nat | IsBlock(m, f, c)
      ensures var after := SaveProof(sh, f, TrueDecoded(m, contents, f, b).nodes);
              Proven(m, contents, after, f, b) && (Proven(m, contents, sh, f, c) ==> Proven(m, contents, after, f, c))
    {
      ApplyMakesPathOk(sh.outboards[f], Split(contents[f]), Top(NumBlocks(m.sizes[f])), b, c);
    }
  }

  lemma NothingLostIsSound(m: Manifest, contents: seq<seq<byte>>, sh: Share, after: Share)
    requires Sound(m, contents, sh) && ShareOk(m, after) && after.have == sh.have
    requires NothingLost(m, contents, sh, after)
    ensures Sound(m, contents, after)
  {
    forall i | 0 <= i < |after.have| && after.have[i] ensures Held(m, contents, after, i) {
      assert Held(m, contents, sh, i);
      assert IsBlock(m, FileOf(m.sizes, i), BlockIn(m.sizes, i));
    }
  }

  lemma MarkStage(m: Manifest, contents: seq<seq<byte>>, sh: Share, i: nat)
    requires Sound(m, contents, sh) && i < Total(m.sizes) && Held(m, contents, sh, i)
    ensures Sound(m, contents, MarkHave(sh, i))
    ensures NothingLost(m, contents, sh, MarkHave(sh, i))
  {
    var after := MarkHave(sh, i);
    forall j | 0 <= j < |after.have| && after.have[j] ensures Held(m, contents, after, j) {
      assert Held(m, contents, sh, j);
    }
  }
}
