/** The share object (crates/chorrent/src/local.rs, `LocalShare`), with its claims,
    outboards and files updated in place and its verified pieces announced. */
module LocalShares {
  import opened Blocks
  import opened Chunker
  import opened Layouts
  import opened Shares
  import L = ShareLaws
  import opened Wrappers

  datatype ShareError = BadPiece | NotAvailable | HashMismatch(file: nat) | Unreadable(file: nat)

  const CHUNK: nat := 1024

  /** Block `b`'s bytes, the end rounded up to a whole chunk. */
  function ChunkRange(size: nat, b: nat): (nat, nat)
    requires b < NumBlocks(size)
  {
    (b * BLOCK, (b * BLOCK + BlockLen(size, b) + CHUNK - 1) / CHUNK * CHUNK)
  }

  predicate CoveredBy(range: (nat, nat), size: nat, b: nat)
    requires b < NumBlocks(size)
  {
    range.0 <= b * BLOCK && Min(range.1, size) >= b * BLOCK + BlockLen(size, b)
  }

  predicate Covers(ranges: seq<(nat, nat)>, size: nat, b: nat)
    requires b < NumBlocks(size)
  {
    exists k :: 0 <= k < |ranges| && CoveredBy(ranges[k], size, b)
  }

  /** Even when the last block of a file is short. */
  lemma ChunkRangeCoversItsBlock(size: nat, c: nat, b: nat)
    requires c < NumBlocks(size) && b < NumBlocks(size)
    ensures CoveredBy(ChunkRange(size, c), size, b) <==> c == b
  {
    BlockLenIs(size, c);
    BlockLenIs(size, b);
  }

  method RangesOf(size: nat, valid: seq<bool>) returns (ranges: seq<(nat, nat)>)
    requires |valid| == NumBlocks(size)
    ensures forall b: nat :: b < NumBlocks(size) ==> (Covers(ranges, size, b) <==> valid[b])
  {
    ranges := [];
    for c := 0 to |valid|
      invariant forall b: nat :: b < NumBlocks(size) ==> (Covers(ranges, size, b) <==> b < c && valid[b])
    {
      if valid[c] {
        ghost var before := ranges;
        ranges := ranges + [ChunkRange(size, c)];
        forall b: nat | b < NumBlocks(size) ensures Covers(ranges, size, b) <==> Covers(before, size, b) || b == c {
          ChunkRangeCoversItsBlock(size, c, b);
          assert ranges[|before|] == ChunkRange(size, c);
          assert forall k :: 0 <= k < |before| ==> ranges[k] == before[k];
        }
      }
    }
  }

  /** The bytes from `offset`, at most `len` of them. */
  function Clamped(bytes: seq<byte>, offset: nat, len: nat): seq<byte> {
    if offset >= |bytes| then [] else bytes[offset..offset + Min(len, |bytes| - offset)]
  }

  /** Some block with one of those bytes was never written. */
  ghost predicate TouchesUnwritten(file: FileData, size: nat, offset: nat, len: nat) {
    exists b :: 0 <= b < NumBlocks(size) && InRange(b, offset, Min(offset + len, size)) && !Written(file, b)
  }

  predicate InRange(b: nat, start: nat, end: nat) {
    b * BLOCK < end && start < (b + 1) * BLOCK && start < end
  }

  lemma BlocksOfRange(size: nat, start: nat, end: nat)
    requires start < end <= size
    ensures (end - 1) / BLOCK < NumBlocks(size)
    ensures forall b: nat :: InRange(b, start, end) <==> start / BLOCK <= b <= (end - 1) / BLOCK
  {
    BlockOf(size, end - 1, 0);
  }

  /** A finished file of a sound share reads back as the shared bytes, at any
      offset and length, and never as unreadable: as many as there are from there,
      and each the one of its place. */
  lemma FinishedFileReadsTrue(m: Manifest, contents: seq<seq<byte>>, sh: Share, f: nat, offset: nat, len: nat)
    requires Sound(m, contents, sh) && f < |m.sizes| && L.FileComplete(m.sizes, sh.have, f)
    ensures !TouchesUnwritten(sh.files[f], m.sizes[f], offset, len)
    ensures var r := Clamped(L.FileBytes(sh.files[f], m.sizes[f]), offset, len);
            && |r| == (if offset >= m.sizes[f] then 0 else Min(len, m.sizes[f] - offset))
            && forall k :: 0 <= k < |r| ==> offset + k < |contents[f]| && r[k] == contents[f][offset + k]
  {
    L.CompleteVerifies(m, contents, sh, f);
    assert HashData(sh.files[f], m.sizes[f]).Some?;
  }

  /** The outboards files start with. */
  ghost function Wanted(m: Manifest, files: seq<FileData>, existed: seq<bool>): seq<seq<HashPair>>
    requires |m.roots| == |m.sizes| == |files| == |existed|
    requires forall f :: 0 <= f < |files| ==> FileOk(files[f], m.sizes[f])
  {
    seq(|files|, f requires 0 <= f < |files| => L.FirstOutboard(m, files[f], existed[f], f))
  }

  /** Which files are found complete. */
  ghost function Whole(m: Manifest, files: seq<FileData>, existed: seq<bool>): seq<bool>
    requires |m.roots| == |m.sizes| == |files| == |existed|
    requires forall f :: 0 <= f < |files| ==> FileOk(files[f], m.sizes[f])
  {
    seq(|files|, f requires 0 <= f < |files| => L.FoundComplete(m, files[f], existed[f], f))
  }

  /** What is claimed with the file's recovered pieces. */
  ghost function Claims(m: Manifest, sh: Share, f: nat): (r: seq<bool>)
    requires ShareOk(m, sh) && f < |m.sizes|
  {
    seq(|sh.have|, i requires 0 <= i < |sh.have| =>
      sh.have[i] || (FileOf(m.sizes, i) == f && L.Recovered(m, sh.files[f], sh.outboards[f], f, BlockIn(m.sizes, i))))
  }

  lemma BlockSizeIs(file: FileData, size: nat, b: nat)
    requires FileOk(file, size) && b < NumBlocks(size)
    ensures |ReadBlock(file, size, b)| == BlockLen(size, b) <= BLOCK
  {
  }

  /** Bytes inside one block. */
  lemma BytesOfBlock(file: FileData, size: nat, at: nat, n: nat)
    requires FileOk(file, size) && at < size && at / BLOCK < NumBlocks(size) && at + n <= size
    requires at % BLOCK + n <= |ReadBlock(file, size, at / BLOCK)| <= BLOCK
    ensures L.FileBytes(file, size)[at..at + n] == ReadBlock(file, size, at / BLOCK)[at % BLOCK..at % BLOCK + n]
  {
    var bytes, block := L.FileBytes(file, size), ReadBlock(file, size, at / BLOCK);
    forall p: nat | at <= p < at + n ensures bytes[p] == block[at % BLOCK + (p - at)] {
      SameBlock(at, p - at);
    }
  }

  lemma RangeGrows(start: nat, at: nat, more: nat, b: nat)
    requires start <= at && at + more <= (at / BLOCK + 1) * BLOCK
    ensures InRange(b, start, at + more) ==> InRange(b, start, at) || b == at / BLOCK
  {
  }

  lemma SameBlock(at: nat, k: nat)
    requires at % BLOCK + k < BLOCK
    ensures (at + k) / BLOCK == at / BLOCK && (at + k) % BLOCK == at % BLOCK + k
  {
  }

  class LocalShare {
    const manifest: Manifest
    var have: seq<bool>
    var outboards: seq<seq<HashPair>>
    var files: seq<FileData>
    /** Piece numbers sent to subscribers, in order. */
    var sent: seq<nat>

    ghost function AsShare(): Share
      reads this
    {
      Share(have, outboards, files)
    }

    /** A claimed piece was announced at most once, an unclaimed one never. */
    ghost predicate Announced()
      reads this
    {
      && (forall k :: 0 <= k < |sent| ==> sent[k] < |have| && have[sent[k]])
      && (forall j, k :: 0 <= j < k < |sent| ==> sent[j] != sent[k])
    }

    ghost predicate Valid()
      reads this
    {
      ShareOk(manifest, AsShare()) && Announced()
    }

    /** `for_download`: `onDisk` are the files as preallocated, `existed` which of
        them were already there with the right size. */
    constructor ForDownload(m: Manifest, onDisk: seq<FileData>, existed: seq<bool>)
      requires |m.roots| == |m.sizes| == |onDisk| == |existed|
      requires forall f :: 0 <= f < |m.sizes| ==> FileOk(onDisk[f], m.sizes[f])
      ensures Valid() && manifest == m
      ensures AsShare() == L.NewShare(m, onDisk, existed)
    {
      manifest := m;
      files := onDisk;
      outboards := [];
      have := seq(Total(m.sizes), _ => false);
      sent := [];
      new;
      var complete := FirstOutboards(existed);
      MarkFiles(complete);
      assert have == L.NewShare(m, onDisk, existed).have;
    }

    /** Give every file its outboard, full if it was found complete, else empty. */
    method FirstOutboards(existed: seq<bool>) returns (complete: seq<nat>)
      requires |manifest.roots| == |manifest.sizes| == |files| == |existed| && outboards == []
      requires forall f :: 0 <= f < |files| ==> FileOk(files[f], manifest.sizes[f])
      modifies `outboards
      ensures |outboards| == |files|
      ensures forall f :: 0 <= f < |files| ==> outboards[f] == L.FirstOutboard(manifest, files[f], existed[f], f)
      ensures forall f :: f in complete <==> 0 <= f < |files| && L.FoundComplete(manifest, files[f], existed[f], f)
    {
      ghost var wanted, whole := Wanted(manifest, files, existed), Whole(manifest, files, existed);
      complete := [];
      var boards: seq<seq<HashPair>> := [];
      for index := 0 to |files|
        invariant |boards| == index && forall f :: 0 <= f < index ==> boards[f] == wanted[f]
        invariant forall f :: f in complete <==> 0 <= f < index && whole[f]
      {
        var outboard, found := Examine(index, existed);
        boards := boards + [outboard];
        if found {
          complete := complete + [index];
        }
      }
      outboards := boards;
    }

    method Examine(index: nat, existed: seq<bool>) returns (outboard: seq<HashPair>, found: bool)
      requires index < |manifest.roots| == |manifest.sizes| == |files| == |existed|
      requires forall f :: 0 <= f < |files| ==> FileOk(files[f], manifest.sizes[f])
      ensures outboard == Wanted(manifest, files, existed)[index] && found == Whole(manifest, files, existed)[index]
    {
      found := false;
      if files[index].Plain? && existed[index] {
        var root, full := HashFile(index);
        if root == manifest.roots[index] {
          return full, true;
        }
      }
      var blocks := NumBlocks(manifest.sizes[index]);
      outboard := EmptyOutboard(if blocks == 0 then 1 else blocks);
    }

    /** A file's root hash and its whole outboard. */
    method HashFile(f: nat) returns (root: Hash, outboard: seq<HashPair>)
      requires f < |files| == |manifest.sizes| && FileOk(files[f], manifest.sizes[f])
      ensures root == RootOf(DiskBlocks(files[f], manifest.sizes[f]))
      ensures outboard == FullOutboard(TreeBlocks(DiskBlocks(files[f], manifest.sizes[f])))
    {
      var leaves := [];
      for b := 0 to NumBlocks(manifest.sizes[f])
        invariant leaves == DiskBlocks(files[f], manifest.sizes[f])[..b]
      {
        leaves := leaves + [ReadBlock(files[f], manifest.sizes[f], b)];
      }
      assert leaves == DiskBlocks(files[f], manifest.sizes[f]);
      if leaves == [] {
        leaves := [[]];
      }
      root := Root(leaves, Top(|leaves|));
      outboard := FullOutboard(leaves);
    }

    method MarkFiles(complete: seq<nat>)
      requires Valid() && forall f :: f in complete ==> f < |files|
      modifies `have, `sent
      ensures Valid() && |have| == |old(have)|
      ensures forall i :: 0 <= i < |have| ==> (have[i] <==> old(have)[i] || FileOf(manifest.sizes, i) in complete)
    {
      for k := 0 to |complete|
        modifies `have, `sent
        invariant Valid() && |have| == |old(have)|
        invariant forall i :: 0 <= i < |have| ==>
                 (have[i] <==> old(have)[i] || FileOf(manifest.sizes, i) in complete[..k])
      {
        assert complete[k] in complete;
        MarkFile(complete[k]);
        assert complete[..k + 1] == complete[..k] + [complete[k]];
      }
      assert complete[..|complete|] == complete;
    }

    /** Claim every piece of a file. */
    method MarkFile(index: nat)
      requires Valid() && index < |manifest.sizes|
      modifies `have, `sent
      ensures Valid()
      ensures |have| == |old(have)|
      ensures forall i :: 0 <= i < |have| ==> (have[i] <==> old(have)[i] || FileOf(manifest.sizes, i) == index)
    {
      PiecesOfFile(manifest.sizes, index);
      var (first, last) := PiecesOf(manifest.sizes, index);
      for piece := first to last
        invariant Valid() && |have| == |old(have)|
        invariant forall i :: 0 <= i < |have| ==> (have[i] <==> old(have)[i] || first <= i < piece)
      {
        MarkHave(piece);
      }
    }

    /** Claim a piece, and announce it the first time. */
    method MarkHave(piece: nat)
      requires Valid() && piece < |have|
      modifies `have, `sent
      ensures Valid()
      ensures AsShare() == Shares.MarkHave(old(AsShare()), piece)
      ensures sent == if old(have)[piece] then old(sent) else old(sent) + [piece]
    {
      var newly := !have[piece];
      have := have[piece := true];
      if newly {
        sent := sent + [piece];
      }
    }

    /** Verify and store a piece.  Ok(false): it was already here. */
    method StorePiece(piece: nat, encoded: Encoding) returns (r: Result<bool, ShareError>)
      requires Valid() && piece < |have|
      modifies this
      ensures Valid()
      ensures r.Err? <==> L.StorePiece(manifest, old(AsShare()), piece, encoded).None?
      ensures r.Ok? ==> AsShare() == L.StorePiece(manifest, old(AsShare()), piece, encoded).value
      ensures r.Ok? ==> r.value == !old(have)[piece] && sent == if r.value then old(sent) + [piece] else old(sent)
      ensures r.Err? ==> unchanged(this)
    {
      if have[piece] {
        return Ok(false);
      }
      LocateIs(manifest.sizes, piece);
      var loc := Locate(manifest.sizes, piece);
      var b := loc.start / BLOCK;
      var nodes := DecodeRange(loc.file, b, encoded);
      if nodes.None? {
        return Err(BadPiece);
      }
      ApplyProof(loc.file, nodes.value);
      MarkHave(piece);
      r := Ok(true);
    }

    /** Check an encoded block against the root and write it into place. */
    method DecodeRange(f: nat, b: nat, encoded: Encoding) returns (nodes: Option<ProofNodes>)
      requires Valid() && IsBlock(manifest, f, b)
      modifies `files
      ensures Valid()
      ensures nodes.None? <==> DecodeBlock(manifest, f, b, encoded).None?
      ensures nodes.None? ==> unchanged(this)
      ensures nodes.Some? ==>
                && nodes.value == DecodeBlock(manifest, f, b, encoded).value.nodes
                && AsShare() == WritePiece(old(AsShare()), f, b, DecodeBlock(manifest, f, b, encoded).value.block)
    {
      var d := DecodeBlock(manifest, f, b, encoded);
      if d.None? {
        return None;
      }
      DecodedLength(manifest.roots[f], Top(NumBlocks(manifest.sizes[f])), b, BlockLen(manifest.sizes[f], b), encoded);
      var written := WriteBlock(files[f], b, d.value.block);
      assert FileOk(written, manifest.sizes[f]);
      files := files[f := written];
      nodes := Some(d.value.nodes);
    }

    /** Save verified pairs, one after the other. */
    method ApplyProof(f: nat, nodes: ProofNodes)
      requires Valid() && f < |outboards|
      modifies `outboards
      ensures Valid()
      ensures AsShare() == SaveProof(old(AsShare()), f, nodes)
    {
      var ob := outboards[f];
      for k := 0 to |nodes|
        invariant |ob| == |outboards[f]|
        invariant Apply(ob, nodes[k..]) == Apply(outboards[f], nodes)
      {
        assert nodes[k..][1..] == nodes[k + 1..];
        if nodes[k].0 < |ob| {
          ob := ob[nodes[k].0 := nodes[k].1];
        }
      }
      outboards := outboards[f := ob];
    }

    /** What a peer that asks for the piece is sent. */
    method EncodePiece(piece: nat) returns (r: Option<Encoding>)
      requires Valid() && piece < |have|
      ensures r == L.EncodePiece(manifest, AsShare(), piece)
    {
      LocateIs(manifest.sizes, piece);
      var loc := Locate(manifest.sizes, piece);
      r := Encode(manifest.roots[loc.file], outboards[loc.file], DiskBlocks(files[loc.file], manifest.sizes[loc.file]),
                  Top(NumBlocks(manifest.sizes[loc.file])), loc.start / BLOCK);
    }

    /** Whether every piece of a file is claimed. */
    method HasAll(index: nat) returns (r: bool)
      requires Valid() && index < |manifest.sizes|
      ensures r <==> L.FileComplete(manifest.sizes, have, index)
    {
      PiecesOfFile(manifest.sizes, index);
      var (first, last) := PiecesOf(manifest.sizes, index);
      for piece := first to last
        invariant forall i :: first <= i < piece ==> have[i]
      {
        if !have[piece] {
          return false;
        }
      }
      r := true;
    }

    /** Byte ranges, in whole chunks, for the blocks that the outboard verifies. */
    method ValidByteRanges(f: nat) returns (ranges: seq<(nat, nat)>)
      requires Valid() && f < |files| && NumBlocks(manifest.sizes[f]) > 0
      ensures RangesExact(f, ranges)
    {
      var size := manifest.sizes[f];
      ranges := RangesOf(size, ValidBlocks(manifest.roots[f], outboards[f], DiskBlocks(files[f], size),
          Top(NumBlocks(size))));
    }

    method IsIntact(index: nat, piece: nat, ranges: seq<(nat, nat)>) returns (r: bool)
      requires Valid() && index < |files| && InFile(manifest.sizes, index, piece)
      requires RangesExact(index, ranges)
      ensures var b := piece - PiecesOf(manifest.sizes, index).0;
              r == L.Recovered(manifest, files[index], outboards[index], index, b)
    {
      LocateRange(manifest.sizes, index, piece);
      var size, loc := manifest.sizes[index], Locate(manifest.sizes, piece);
      var b := piece - PiecesOf(manifest.sizes, index).0;
      var end := Min(loc.end, size);
      var verified := exists k :: 0 <= k < |ranges| && ranges[k].0 <= loc.start && Min(ranges[k].1, size) >= end;
      assert verified <==> Covers(ranges, size, b);
      r := verified && Written(files[index], b);
    }

    /** The ranges cover exactly the blocks that verify. */
    ghost predicate RangesExact(f: nat, ranges: seq<(nat, nat)>)
      requires Valid() && f < |files|
      reads this
    {
      forall b: nat :: b < NumBlocks(manifest.sizes[f]) ==>
        (Covers(ranges, manifest.sizes[f], b) <==>
         ValidBlocks(manifest.roots[f], outboards[f], DiskBlocks(files[f], manifest.sizes[f]),
             Top(NumBlocks(manifest.sizes[f])))[b])
    }

    /** Claim the pieces of a file that are really there and intact. */
    method ClaimIntact(index: nat, ranges: seq<(nat, nat)>)
      requires Valid() && index < |files| && RangesExact(index, ranges)
      modifies `have, `sent
      ensures Valid() && |have| == |old(have)|
      ensures forall i :: 0 <= i < |have| ==>
                (have[i] <==> (old(have)[i] || (FileOf(manifest.sizes, i) == index &&
                  L.Recovered(manifest, files[index], outboards[index], index, BlockIn(manifest.sizes, i)))))
    {
      PiecesOfFile(manifest.sizes, index);
      var (first, last) := PiecesOf(manifest.sizes, index);
      ghost var before, goal := have, Claims(manifest, AsShare(), index);
      for piece := first to last
        invariant Valid() && |have| == |before|
        invariant forall i :: 0 <= i < |have| ==> have[i] == if first <= i < piece then goal[i] else before[i]
      {
        ClaimOne(index, piece, ranges, before);
      }
      assert have == goal;
    }

    /** `before` with the file's recovered pieces. */
    method ClaimOne(index: nat, piece: nat, ranges: seq<(nat, nat)>, ghost before: seq<bool>)
      requires Valid() && index < |files| && RangesExact(index, ranges) && InFile(manifest.sizes, index, piece)
      requires |before| == |have| && piece < |have| && have[piece] == before[piece]
      modifies `have, `sent
      ensures Valid() && |have| == |before|
      ensures have == old(have)[piece := Claims(manifest, Share(before, outboards, files), index)[piece]]
    {
      FileOfIs(manifest.sizes, index, piece);
      var intact := IsIntact(index, piece, ranges);
      if intact {
        MarkHave(piece);
      }
    }

    /** After a restart: take over one file's saved outboard, and claim the pieces
        that are really there and intact. */
    method RestoreFile(index: nat, data: seq<HashPair>)
      requires Valid() && index < |files|
      modifies `have, `sent, `outboards
      ensures Valid() && |have| == |old(have)|
      ensures var used := !L.FileComplete(manifest.sizes, old(have), index)
               && |data| == OutboardLen(manifest.sizes[index]);
              && outboards == (if used then old(outboards)[index := data] else old(outboards))
              && forall i :: 0 <= i < |have| ==>
                   (have[i] <==> (old(have)[i] || (used && FileOf(manifest.sizes, i) == index &&
                     L.Recovered(manifest, files[index], data, index, BlockIn(manifest.sizes, i)))))
    {
      var complete := HasAll(index);
      if complete || |data| != |outboards[index]| {
        return;
      }
      outboards := outboards[index := data];
      var ranges := [];
      if NumBlocks(manifest.sizes[index]) > 0 {
        ranges := ValidByteRanges(index);
      }
      ClaimIntact(index, ranges);
    }

    method RestoreProgress(saved: seq<seq<HashPair>>)
      requires Valid()
      modifies `have, `sent, `outboards
      ensures Valid()
      ensures AsShare() == L.Restore(manifest, old(AsShare()), saved)
    {
      ghost var before := AsShare();
      ghost var goal := L.Restore(manifest, before, saved);
      for index := 0 to if |files| <= |saved| then |files| else |saved|
        modifies `have, `sent, `outboards
        invariant Valid() && |have| == |before.have|
        invariant forall i :: 0 <= i < |have| ==>
                 have[i] == if FileOf(manifest.sizes, i) < index then goal.have[i] else before.have[i]
        invariant forall f :: 0 <= f < |outboards| ==>
                 outboards[f] == if f < index then goal.outboards[f] else before.outboards[f]
      {
        assert L.FileComplete(manifest.sizes, have, index) <==> L.FileComplete(manifest.sizes, before.have, index);
        RestoreFile(index, saved[index]);
      }
      assert have == goal.have && outboards == goal.outboards;
    }

    /** Read bytes of a finished file, clamped to its size. */
    method ReadRange(index: nat, offset: nat, len: nat) returns (r: Result<seq<byte>, ShareError>)
      requires Valid()
      ensures r == Err(NotAvailable) <==> index >= |files| || !L.FileComplete(manifest.sizes, have, index)
      ensures index < |files| && L.FileComplete(manifest.sizes, have, index) ==>
                r == if TouchesUnwritten(files[index], manifest.sizes[index], offset, len) then Err(Unreadable(index))
                     else Ok(Clamped(L.FileBytes(files[index], manifest.sizes[index]), offset, len))
    {
      if index >= |files| {
        return Err(NotAvailable);
      }
      var complete := HasAll(index);
      if !complete {
        return Err(NotAvailable);
      }
      var size := manifest.sizes[index];
      var n := Min(len, if offset <= size then size - offset else 0);
      if n == 0 {
        assert Clamped(L.FileBytes(files[index], size), offset, len) == [];
        return Ok([]);
      }
      assert offset + n == Min(offset + len, size);
      var bytes := ReadSpan(index, offset, offset + n);
      r := if bytes.None? then Err(Unreadable(index)) else Ok(bytes.value);
    }

    /** The bytes from `start` to `end`, read block by block. */
    method ReadSpan(index: nat, start: nat, end: nat) returns (r: Option<seq<byte>>)
      requires Valid() && index < |files| && start < end <= manifest.sizes[index]
      ensures r.None? <==>
                exists b :: 0 <= b < NumBlocks(manifest.sizes[index]) && InRange(b, start, end)
                    && !Written(files[index], b)
      ensures r.Some? ==> r.value == L.FileBytes(files[index], manifest.sizes[index])[start..end]
    {
      ghost var all := L.FileBytes(files[index], manifest.sizes[index]);
      BlocksOfRange(manifest.sizes[index], start, end);
      var got: seq<byte>, at := [], start;
      while at < end
        invariant start <= at <= end && got == all[start..at]
        invariant forall b: nat :: InRange(b, start, at) ==> Written(files[index], b)
        decreases end - at
      {
        var more := ReadSome(index, at, end);
        if more.None? {
          return None;
        }
        forall b: nat | InRange(b, start, at + |more.value|) ensures Written(files[index], b) {
          RangeGrows(start, at, |more.value|, b);
        }
        assert all[start..at] + all[at..at + |more.value|] == all[start..at + |more.value|];
        got, at := got + more.value, at + |more.value|;
      }
      r := Some(got);
    }

    /** The bytes from `at` up to the end of their block, or to `end`. */
    method ReadSome(index: nat, at: nat, end: nat) returns (r: Option<seq<byte>>)
      requires Valid() && index < |files| && at < end <= manifest.sizes[index]
      ensures at / BLOCK < NumBlocks(manifest.sizes[index])
      ensures r.None? <==> !Written(files[index], at / BLOCK)
      ensures r.Some? ==> 0 < |r.value| && at + |r.value| <= end && at + |r.value| <= (at / BLOCK + 1) * BLOCK
      ensures r.Some? ==> r.value == L.FileBytes(files[index], manifest.sizes[index])[at..at + |r.value|]
    {
      var size, b, within := manifest.sizes[index], at / BLOCK, at % BLOCK;
      BlockOf(size, at, b);
      if !Written(files[index], b) {
        return None;
      }
      var block := ReadBlock(files[index], size, b);
      BlockSizeIs(files[index], size, b);
      var n := Min(end - at, |block| - within);
      BytesOfBlock(files[index], size, at, n);
      r := Some(block[within..within + n]);
    }

    method CheckHash(f: nat) returns (problem: Option<ShareError>)
      requires Valid() && f < |files|
      ensures problem.None? <==> L.Verifies(manifest, AsShare(), f)
      ensures problem.Some? ==> (problem.value.HashMismatch? || problem.value.Unreadable?) && problem.value.file == f
    {
      for b := 0 to NumBlocks(manifest.sizes[f])
        invariant forall d :: 0 <= d < b ==> Written(files[f], d)
      {
        if !Written(files[f], b) {
          return Some(Unreadable(f));
        }
      }
      var root, outboard := HashFile(f);
      problem := if root != manifest.roots[f] then Some(HashMismatch(f)) else None;
    }

    /** Go through the files until one does not have its hash. */
    method Verify() returns (r: Result<(), ShareError>)
      requires Valid()
      ensures r.Ok? ==> forall f :: 0 <= f < |files| ==> L.Verifies(manifest, AsShare(), f)
      ensures r.Err? ==> r.error.HashMismatch? || r.error.Unreadable?
      ensures r.Err? ==> r.error.file < |files| && !L.Verifies(manifest, AsShare(), r.error.file)
    {
      for f := 0 to |files|
        invariant forall g :: 0 <= g < f ==> L.Verifies(manifest, AsShare(), g)
      {
        var problem := CheckHash(f);
        if problem.Some? {
          return Err(problem.value);
        }
      }
      r := Ok(());
    }
  }
}
