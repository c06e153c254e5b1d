/** Where each piece of a share lies (crates/chorrent/src/manifest.rs, `Layout`):
    pieces are numbered across all files in manifest order. */
module Layouts {
  import opened Blocks

  datatype Layout = Layout(firstPiece: seq<nat>, sizes: seq<nat>, totalPieces: nat)

  datatype Location = Location(file: nat, start: nat, end: nat)

  function PiecesBefore(sizes: seq<nat>, f: nat): nat
    requires f <= |sizes|
  {
    if f == 0 then 0 else PiecesBefore(sizes, f - 1) + NumBlocks(sizes[f - 1])
  }

  function LayoutOf(sizes: seq<nat>): Layout {
    Layout(seq(|sizes|, f requires 0 <= f < |sizes| => PiecesBefore(sizes, f)), sizes, PiecesBefore(sizes, |sizes|))
  }

  function Total(sizes: seq<nat>): nat {
    PiecesBefore(sizes, |sizes|)
  }

  method New(sizes: seq<nat>) returns (layout: Layout)
    ensures layout == LayoutOf(sizes)
  {
    var firstPiece: seq<nat>, total := [], 0;
    ghost var all := LayoutOf(sizes).firstPiece;
    for f := 0 to |sizes|
      invariant total == PiecesBefore(sizes, f) && firstPiece == all[..f]
    {
      firstPiece := firstPiece + [total];
      total := total + NumBlocks(sizes[f]);
    }
    layout := Layout(firstPiece, sizes, total);
  }

  /** How many leading entries are at most `piece`: `partition_point` on a sorted vector. */
  function PartitionPoint(first: seq<nat>, piece: nat): (n: nat)
    ensures n <= |first|
    ensures forall i :: 0 <= i < n ==> first[i] <= piece
    ensures n < |first| ==> first[n] > piece
  {
    if first == [] || first[0] > piece then 0 else 1 + PartitionPoint(first[1..], piece)
  }

  /** The last non-empty file at or before `f`, if any. */
  function LastNonEmpty(sizes: seq<nat>, f: nat): (r: nat)
    requires f < |sizes|
    ensures r < |sizes|
  {
    if sizes[f] > 0 || f == 0 then f
    else
      var r := LastNonEmpty(sizes, f - 1);
      if sizes[r] > 0 then r else f
  }

  /** `pieces_of`: the half-open range of a file's pieces. */
  function PiecesOf(sizes: seq<nat>, f: nat): (nat, nat)
    requires f < |sizes|
  {
    (PiecesBefore(sizes, f), PiecesBefore(sizes, f) + NumBlocks(sizes[f]))
  }

  function Locate(sizes: seq<nat>, piece: nat): Location
    requires piece < Total(sizes)
  {
    SearchLands(sizes, piece);
    var layout := LayoutOf(sizes);
    var f := LastNonEmpty(sizes, PartitionPoint(layout.firstPiece, piece) - 1);
    var start := (piece - layout.firstPiece[f]) * BLOCK;
    Location(f, start, Min(start + BLOCK, sizes[f]))
  }

  predicate InFile(sizes: seq<nat>, f: nat, piece: nat) {
    f < |sizes| && PiecesOf(sizes, f).0 <= piece < PiecesOf(sizes, f).1
  }

  lemma {:induction false} PiecesBeforeGrows(sizes: seq<nat>, f: nat, g: nat)
    requires f <= g <= |sizes|
    ensures PiecesBefore(sizes, f) <= PiecesBefore(sizes, g)
    ensures f < g ==> PiecesBefore(sizes, f) + NumBlocks(sizes[f]) <= PiecesBefore(sizes, g)
  {
    if f < g {
      PiecesBeforeGrows(sizes, f, g - 1);
    }
  }

  lemma InOneFile(sizes: seq<nat>, f: nat, g: nat, piece: nat)
    requires InFile(sizes, f, piece) && InFile(sizes, g, piece)
    ensures f == g
  {
    if f < g {
      PiecesBeforeGrows(sizes, f, g);
    } else if g < f {
      PiecesBeforeGrows(sizes, g, f);
    }
  }

  /** For a real piece the binary search alone finds a non-empty file that has
      the piece, so the backwards scan never moves. */
  lemma SearchLands(sizes: seq<nat>, piece: nat)
    requires piece < Total(sizes)
    ensures var n := PartitionPoint(LayoutOf(sizes).firstPiece, piece);
            1 <= n && sizes[n - 1] > 0 && InFile(sizes, n - 1, piece) && LastNonEmpty(sizes, n - 1) == n - 1
  {
    var first := LayoutOf(sizes).firstPiece;
    var n := PartitionPoint(first, piece);
    assert |sizes| > 0 && first[0] == 0;
    assert first[n - 1] == PiecesBefore(sizes, n - 1) <= piece;
    assert piece < PiecesBefore(sizes, n);
    NoBlocksIffEmpty(sizes[n - 1]);
  }

  /** `locate` and `pieces_of` are inverse: a piece number is one of a file's
      pieces exactly when `locate` says it is in that file, ... */
  lemma LocateInvertsPiecesOf(sizes: seq<nat>, f: nat, piece: nat)
    ensures InFile(sizes, f, piece) <==> piece < Total(sizes) && Locate(sizes, piece).file == f
  {
    if piece < Total(sizes) {
      SearchLands(sizes, piece);
    }
    if InFile(sizes, f, piece) {
      PiecesBeforeGrows(sizes, f, |sizes|);
      InOneFile(sizes, f, Locate(sizes, piece).file, piece);
    }
  }

  /** ... and the byte range is then that block of the file: non-empty and inside it. */
  lemma LocateRange(sizes: seq<nat>, f: nat, piece: nat)
    requires InFile(sizes, f, piece)
    ensures piece < Total(sizes)
    ensures var loc, b := Locate(sizes, piece), piece - PiecesOf(sizes, f).0;
            && loc.file == f
            && loc.start == b * BLOCK
            && loc.end == loc.start + BlockLen(sizes[f], b)
            && loc.start < loc.end <= sizes[f]
  {
    LocateInvertsPiecesOf(sizes, f, piece);
    BlockLenIs(sizes[f], piece - PiecesOf(sizes, f).0);
  }

  /** There are as many pieces as the layout says, and each is in a file. */
  lemma PieceExistsIff(sizes: seq<nat>, piece: nat)
    ensures piece < LayoutOf(sizes).totalPieces <==> exists f: nat :: InFile(sizes, f, piece)
  {
    if piece < Total(sizes) {
      LocateInvertsPiecesOf(sizes, Locate(sizes, piece).file, piece);
      assert InFile(sizes, Locate(sizes, piece).file, piece);
    }
    if f: nat :| InFile(sizes, f, piece) {
      PiecesBeforeGrows(sizes, f, |sizes|);
    }
  }

  /** For instance, a file of a block and five bytes, an empty one, and one of ten bytes. */
  lemma ThreeFiles()
    ensures
      var sizes := [BLOCK + 5, 0, 10];
      && LayoutOf(sizes).totalPieces == Total(sizes) == 3
      && Locate(sizes, 1) == Location(0, BLOCK, BLOCK + 5)
      && Locate(sizes, 2) == Location(2, 0, 10)
      && PiecesOf(sizes, 1) == (2, 2)
  {
    var sizes := [BLOCK + 5, 0, 10];
    assert NumBlocks(BLOCK + 5) == 2 && NumBlocks(0) == 0 && NumBlocks(10) == 1 by {
      NumBlocksIsDivCeil(BLOCK + 5);
    }
    assert PiecesBefore(sizes, 1) == 2 && PiecesBefore(sizes, 2) == 2 && PiecesBefore(sizes, 3) == 3;
    assert BlockLen(BLOCK + 5, 1) == 5 && BlockLen(10, 0) == 10;
    LocateRange(sizes, 0, 1);
    LocateRange(sizes, 2, 2);
  }

  /** The pieces tile the share: byte `pos` of file `f` is in one piece and no other. */
  lemma PiecesTileFiles(sizes: seq<nat>, f: nat, pos: nat, piece: nat)
    requires f < |sizes| && pos < sizes[f]
    ensures InFile(sizes, f, PiecesOf(sizes, f).0 + pos / BLOCK)
    ensures
      (piece < Total(sizes) && Locate(sizes, piece).file == f
          && Locate(sizes, piece).start <= pos < Locate(sizes, piece).end)
      <==> piece == PiecesOf(sizes, f).0 + pos / BLOCK
  {
    LocateInvertsPiecesOf(sizes, f, piece);
    BlockOf(sizes[f], pos, pos / BLOCK);
    LocateRange(sizes, f, PiecesOf(sizes, f).0 + pos / BLOCK);
    if InFile(sizes, f, piece) {
      LocateRange(sizes, f, piece);
      BlockOf(sizes[f], pos, piece - PiecesOf(sizes, f).0);
    }
  }

  // ---- Bytes ----

  function PieceLens(sizes: seq<nat>): seq<nat> {
    seq(Total(sizes), piece requires 0 <= piece < Total(sizes) => PieceLen(sizes, piece))
  }

  function PieceLen(sizes: seq<nat>, piece: nat): nat
    requires piece < Total(sizes)
  {
    LocateInvertsPiecesOf(sizes, Locate(sizes, piece).file, piece);
    LocateRange(sizes, Locate(sizes, piece).file, piece);
    Locate(sizes, piece).end - Locate(sizes, piece).start
  }

  function TotalSize(sizes: seq<nat>, f: nat): nat
    requires f <= |sizes|
  {
    if f == 0 then 0 else TotalSize(sizes, f - 1) + sizes[f - 1]
  }

  /** The bytes of the pieces below `n` that `which` selects. */
  function BytesOf(lens: seq<nat>, which: seq<bool>, n: nat): nat
    requires n <= |which| <= |lens|
  {
    if n == 0 then 0 else BytesOf(lens, which, n - 1) + if which[n - 1] then lens[n - 1] else 0
  }

  ghost predicate LenAt(sizes: seq<nat>, lens: seq<nat>, f: nat, b: nat)
    requires f < |sizes|
  {
    b < NumBlocks(sizes[f]) ==>
        PiecesBefore(sizes, f) + b < |lens| && lens[PiecesBefore(sizes, f) + b] == BlockLen(sizes[f], b)
  }

  lemma PieceLensAreBlockLens(sizes: seq<nat>, f: nat, b: nat)
    requires f < |sizes|
    ensures LenAt(sizes, PieceLens(sizes), f, b)
  {
    if b < NumBlocks(sizes[f]) {
      LocateRange(sizes, f, PiecesBefore(sizes, f) + b);
    }
  }

  lemma {:induction false} BytesOfFile(sizes: seq<nat>, lens: seq<nat>, which: seq<bool>, f: nat, b: nat)
    requires |which| == |lens| && forall i :: 0 <= i < |which| ==> which[i]
    requires f < |sizes| && b <= NumBlocks(sizes[f])
    requires PiecesBefore(sizes, f) + NumBlocks(sizes[f]) <= |lens|
    requires forall c: nat :: LenAt(sizes, lens, f, c)
    ensures BytesOf(lens, which, PiecesBefore(sizes, f) + b)
             == BytesOf(lens, which, PiecesBefore(sizes, f)) + Min(b * BLOCK, sizes[f])
  {
    if b > 0 {
      BytesOfFile(sizes, lens, which, f, b - 1);
      assert LenAt(sizes, lens, f, b - 1);
      BlocksAddUp(sizes[f], b - 1);
    }
  }

  lemma {:induction false} BytesOfFiles(sizes: seq<nat>, lens: seq<nat>, which: seq<bool>, f: nat)
    requires |which| == |lens| == Total(sizes) && forall i :: 0 <= i < |which| ==> which[i]
    requires forall g: nat, c: nat :: g < |sizes| ==> LenAt(sizes, lens, g, c)
    requires f <= |sizes|
    ensures PiecesBefore(sizes, f) <= |which|
    ensures BytesOf(lens, which, PiecesBefore(sizes, f)) == TotalSize(sizes, f)
  {
    PiecesBeforeGrows(sizes, f, |sizes|);
    if f > 0 {
      BytesOfFiles(sizes, lens, which, f - 1);
      var b := NumBlocks(sizes[f - 1]);
      BytesOfFile(sizes, lens, which, f - 1, b);
      if b > 0 {
        BlocksAddUp(sizes[f - 1], b - 1);
      } else {
        NoBlocksIffEmpty(sizes[f - 1]);
      }
    }
  }

  /** The lengths of all pieces add up to the size of the share. */
  lemma AllPiecesAreAllBytes(sizes: seq<nat>, which: seq<bool>)
    requires |which| == Total(sizes) && forall i :: 0 <= i < |which| ==> which[i]
    ensures BytesOf(PieceLens(sizes), which, |which|) == TotalSize(sizes, |sizes|)
  {
    forall g: nat, c: nat | g < |sizes| ensures LenAt(sizes, PieceLens(sizes), g, c) {
      PieceLensAreBlockLens(sizes, g, c);
    }
    BytesOfFiles(sizes, PieceLens(sizes), which, |sizes|);
  }

  /** Selecting one more piece adds its length. */
  lemma {:induction false} BytesOfOneMore(lens: seq<nat>, which: seq<bool>, i: nat, n: nat)
    requires i < |which| <= |lens| && n <= |which| && !which[i]
    ensures BytesOf(lens, which[i := true], n) == BytesOf(lens, which, n) + if i < n then lens[i] else 0
  {
    if n > 0 {
      BytesOfOneMore(lens, which, i, n - 1);
    }
  }
}
