/** Downloads of an encrypted file that are done and do not verify: of two workers
    that received the same piece one has stored and reported it, and the other,
    which saw the piece unclaimed before that, is just writing it again. */
module EngineStraggler {
  import opened Blocks
  import opened Chunker
  import opened EngineSafety
  import opened EngineSpec
  import opened Layouts
  import opened Scheduling
  import opened Shares
  import opened TornWrites
  import opened Wrappers
  import L = ShareLaws

  /** A sound share whose one piece is in an encrypted file and missing, and an
      encoding of it that is accepted. */
  ghost predicate Setup(c: Config, contents: seq<seq<byte>>, share: Share, enc: Encoding) {
    && Sound(c.m, contents, share) && Total(c.m.sizes) == 1 && c.window > 0 && !share.have[0]
    && share.files[FileOf(c.m.sizes, 0)].Encrypted?
    && DecodeBlock(c.m, FileOf(c.m.sizes, 0), BlockIn(c.m.sizes, 0), enc).Some?
  }

  /** For instance, one file of one byte. */
  lemma SetupExists() returns (c: Config, contents: seq<seq<byte>>, share: Share, enc: Encoding)
    ensures Setup(c, contents, share, enc)
  {
    var m := Manifest([1], [Leaf([7])]);
    share, enc := Share([false], [[]], [Encrypted([None])]), Encoding([], [7]);
    c, contents := Config(m, 3), [[7]];
    OneByteCommits(m, contents);
    OneByteShare(m, share);
    OneByteDecodes(m, enc);
  }

  lemma OneByteCommits(m: Manifest, contents: seq<seq<byte>>)
    requires m == Manifest([1], [Leaf([7])]) && contents == [[7]]
    ensures Commits(m, contents)
  {
    assert NumBlocks(1) == 1 && BlockLen(1, 0) == 1;
    var blocks := Split(contents[0]);
    assert |blocks| == 1 && blocks[0] == [7];
  }

  lemma OneByteShare(m: Manifest, share: Share)
    requires m.sizes == [1] && |m.roots| == 1 && share == Share([false], [[]], [Encrypted([None])])
    ensures Total(m.sizes) == 1 && FileOf(m.sizes, 0) == 0 && BlockIn(m.sizes, 0) == 0 && ShareOk(m, share)
  {
    assert NumBlocks(1) == 1 && PiecesBefore(m.sizes, 1) == 1;
  }

  lemma OneByteDecodes(m: Manifest, enc: Encoding)
    requires m == Manifest([1], [Leaf([7])]) && enc == Encoding([], [7])
    ensures IsBlock(m, 0, 0) && DecodeBlock(m, 0, 0, enc).Some?
  {
    assert NumBlocks(1) == 1 && BlockLen(1, 0) == 1;
    assert enc.data[..1] == [7];
  }

  // ---- The shares and states of the run ----

  /** The share before the piece is stored and at each stage, and when it is being
      stored again. */
  datatype Shares6 = Shares6(
    d: Decoded, first: Share, begun: Share, written: Share, proven: Share, claimed: Share, hole: Share)

  ghost function SharesOf(c: Config, contents: seq<seq<byte>>, share: Share, enc: Encoding): Shares6
    requires Setup(c, contents, share, enc)
  {
    var f, b := FileOf(c.m.sizes, 0), BlockIn(c.m.sizes, 0);
    var d := DecodeBlock(c.m, f, b, enc).value;
    var begun := BeginPiece(share, f, b, d.block, []);
    var written := WritePiece(begun, f, b, d.block);
    var proven := SaveProof(written, f, d.nodes);
    var claimed := MarkHave(proven, 0);
    Shares6(d, share, begun, written, proven, claimed, BeginPiece(claimed, f, b, d.block, []))
  }

  lemma SharesAreOk(c: Config, contents: seq<seq<byte>>, share: Share, enc: Encoding)
    requires Setup(c, contents, share, enc)
    ensures var x := SharesOf(c, contents, share, enc);
            && ShareOk(c.m, x.first) && ShareOk(c.m, x.begun) && ShareOk(c.m, x.written)
            && ShareOk(c.m, x.proven) && ShareOk(c.m, x.claimed) && ShareOk(c.m, x.hole)
  {
    var f, b, x := FileOf(c.m.sizes, 0), BlockIn(c.m.sizes, 0), SharesOf(c, contents, share, enc);
    DecodeIsTrue(c.m, contents, f, b, enc);
    BeginStage(c.m, contents, share, {}, 0, []);
    EndStage(c.m, contents, x.begun, {0}, 0);
    SaveStage(c.m, contents, x.written, {}, 0);
    BeginStage(c.m, contents, x.claimed, {}, 0, []);
  }

  /** One connected peer that has the piece, and its first two workers at these stages. */
  function Pair(piece: Piece<nat>, a: Pc, b: Pc, share: Share, verified: seq<nat>): State<nat> {
    State(View([piece], map[0 := [true]]), share, {0}, map[0 := 0],
          seq(REQUESTS_PER_PEER, k => Worker(0, true, if k == 0 then a else if k == 1 then b else Idle)), {}, verified)
  }

  ghost predicate StepBy(c: Config, s: State<nat>, a: Action<nat>, s': State<nat>) {
    Shaped(c, s) && Enabled(c, s, a) && Next(c, s, a) == s'
  }

  lemma PairShaped(c: Config, piece: Piece<nat>, a: Pc, b: Pc, share: Share, verified: seq<nat>)
    requires ShareOk(c.m, share) && Total(c.m.sizes) == 1 && a.InRange(1) && b.InRange(1)
    ensures Shaped(c, Pair(piece, a, b, share, verified))
  {
  }

  /** The first or second worker goes on. */
  lemma PairMoves(piece: Piece<nat>, a: Pc, b: Pc, share: Share, verified: seq<nat>, a': Pc, b': Pc)
    ensures Move(Pair(piece, a, b, share, verified), 0, a') == Pair(piece, a', b, share, verified)
    ensures Move(Pair(piece, a, b, share, verified), 1, b') == Pair(piece, a, b', share, verified)
  {
  }

  // ---- Single steps ----

  lemma Connects(c: Config, share: Share)
    requires ShareOk(c.m, share) && Total(c.m.sizes) == 1
    ensures StepBy(c, Start(share), Connect(0), Start(share).(connected := {0}))
  {
  }

  lemma Registers(c: Config, share: Share)
    requires ShareOk(c.m, share) && Total(c.m.sizes) == 1 && !share.have[0]
    ensures StepBy(c, Start(share).(connected := {0}), Register(0, [true]), Pair(Missing, Idle, Idle, share, []))
  {
    var s: State<nat> := Start(share).(connected := {0});
    assert s.view == View([Missing], map[]);
    assert s.workers + seq(REQUESTS_PER_PEER, _ => Worker(0, true, Idle))
             == Pair(Missing, Idle, Idle, share, []).workers;
    assert s.view.peers[0 := [true]] == map[0 := [true]];
    assert s.strikes[0 := 0] == map[0 := 0];
  }

  lemma Checks(c: Config, s: State<nat>, w: nat)
    requires Shaped(c, s) && w < |s.workers| && s.workers[w] == Worker(0, true, Idle)
    requires s.view == View([Missing], map[0 := [true]]) && s.strikes == map[0 := 0]
    ensures StepBy(c, s, Check(w), Move(s, w, Ready))
  {
    assert !s.view.pieces[0].Done?;
  }

  lemma PickTheOnlyPiece(v: View<nat>, window: nat, p: nat)
    requires v == View([Missing], map[0 := [true]]) && window > 0 && p == 0
    ensures IsPick(v, window, p, Some(0)) && AfterPick(v, p, Some(0)) == View([InFlight([0])], map[0 := [true]])
  {
    assert IsFirstNotDone(v.pieces, 0) && 0 in Holders(v.peers, 0);
    assert Urgent(v, window, 0, 0);
  }

  lemma Picks(c: Config, s: State<nat>, w: nat)
    requires Shaped(c, s) && w < |s.workers| && s.workers[w] == Worker(0, true, Ready) && c.window > 0
    requires s.view == View([Missing], map[0 := [true]])
    ensures StepBy(c, s, Pick(w, Some(0)), Move(s.(view := View([InFlight([0])], map[0 := [true]])), w, Waiting(0)))
  {
    PickTheOnlyPiece(s.view, c.window, s.workers[w].peer);
    var asked := s.(view := View([InFlight([0])], map[0 := [true]]));
    assert Next(c, s, Pick(w, Some(0))) == Move(asked, w, Waiting(0));
  }

  /** The peer sends its bitfield again, and the request is forgotten. */
  lemma Resends(c: Config, s: State<nat>)
    requires Shaped(c, s) && s.view == View([InFlight([0])], map[0 := [true]])
    ensures StepBy(c, s, BitfieldMessage(0, [true]), s.(view := View([Missing], map[0 := [true]])))
  {
    assert Without([0], 0) == [];
    assert RemovePeer(s.view, 0).pieces == [Missing];
    assert AddPeer(s.view, 0, [true]) == View([Missing], map[0 := [true]]);
  }

  lemma Answers(c: Config, s: State<nat>, w: nat, enc: Encoding)
    requires Shaped(c, s) && w < |s.workers| && s.workers[w] == Worker(0, true, Waiting(0))
    ensures StepBy(c, s, Answer(w, Reply.Piece(enc)), Move(s, w, Received(0, enc)))
  {
  }

  lemma StoreChecks(c: Config, s: State<nat>, w: nat, enc: Encoding)
    requires Shaped(c, s) && w < |s.workers| && s.workers[w].pc == Received(0, enc) && !s.share.have[0]
    ensures StepBy(c, s, StoreCheck(w), Move(s, w, Storing(0, enc)))
  {
  }

  lemma Begins(c: Config, s: State<nat>, w: nat, enc: Encoding, d: Decoded)
    requires Shaped(c, s) && w < |s.workers| && s.workers[w].pc == Storing(0, enc) && Total(c.m.sizes) == 1
    requires forall k :: 0 <= k < |s.workers| ==> !s.workers[k].pc.Writing?
    requires DecodeBlock(c.m, FileOf(c.m.sizes, 0), BlockIn(c.m.sizes, 0), enc) == Some(d)
    ensures StepBy(c, s, StoreBegin(w, []),
                   Move(s.(share := BeginPiece(s.share, FileOf(c.m.sizes, 0), BlockIn(c.m.sizes, 0), d.block, [])),
                        w, Writing(0, d)))
  {
  }

  lemma Writes(c: Config, s: State<nat>, w: nat, d: Decoded)
    requires Shaped(c, s) && w < |s.workers| && s.workers[w].pc == Writing(0, d) && Total(c.m.sizes) == 1
    requires s.broken == {}
    ensures StepBy(c, s, StoreWrite(w),
                   Move(s.(share := WritePiece(s.share, FileOf(c.m.sizes, 0), BlockIn(c.m.sizes, 0), d.block)),
                        w, Proving(0, d.nodes)))
  {
  }

  lemma Saves(c: Config, s: State<nat>, w: nat, nodes: ProofNodes)
    requires Shaped(c, s) && w < |s.workers| && s.workers[w].pc == Proving(0, nodes) && Total(c.m.sizes) == 1
    ensures StepBy(c, s, StoreProof(w),
                   Move(s.(share := SaveProof(s.share, FileOf(c.m.sizes, 0), nodes)), w, Marking(0)))
  {
  }

  lemma Marks(c: Config, s: State<nat>, w: nat)
    requires Shaped(c, s) && w < |s.workers| && s.workers[w].pc == Marking(0) && Total(c.m.sizes) == 1
    ensures StepBy(c, s, StoreMark(w), Move(s.(share := MarkHave(s.share, 0)), w, Stored(0)))
  {
  }

  lemma Reports(c: Config, s: State<nat>, w: nat)
    requires Shaped(c, s) && w < |s.workers| && s.workers[w] == Worker(0, true, Stored(0))
    requires s.view == View([InFlight([0])], map[0 := [true]]) && s.strikes == map[0 := 0]
    ensures StepBy(c, s, Report(w),
                   Move(s.(view := View([Done], map[0 := [true]]), verified := s.verified + [0]), w, Idle))
  {
    assert Complete(s.view, 0) == View([Done], map[0 := [true]]);
    assert SetStrikes(s, 0, 0) == s.strikes;
  }

  lemma SecondOfPairBegins(
      c: Config, piece: Piece<nat>, a: Pc, share: Share, verified: seq<nat>, enc: Encoding, d: Decoded)
    requires ShareOk(c.m, share) && Total(c.m.sizes) == 1 && a.InRange(1) && !a.Writing?
    requires DecodeBlock(c.m, FileOf(c.m.sizes, 0), BlockIn(c.m.sizes, 0), enc) == Some(d)
    ensures
      var begun := BeginPiece(share, FileOf(c.m.sizes, 0), BlockIn(c.m.sizes, 0), d.block, []);
      StepBy(c, Pair(piece, a, Storing(0, enc), share, verified), StoreBegin(1, []),
             Pair(piece, a, Writing(0, d), begun, verified))
  {
    var begun := BeginPiece(share, FileOf(c.m.sizes, 0), BlockIn(c.m.sizes, 0), d.block, []);
    PairShaped(c, piece, a, Storing(0, enc), share, verified);
    Begins(c, Pair(piece, a, Storing(0, enc), share, verified), 1, enc, d);
    PairMoves(piece, a, Storing(0, enc), begun, verified, a, Writing(0, d));
  }

  // ---- The run ----

  /** The states of the run, one after the other. */
  function Trace(x: Shares6, enc: Encoding, k: nat): State<nat> {
    var asked := InFlight([0]);
    if k == 0 then Start(x.first)
    else if k == 1 then Start(x.first).(connected := {0})
    else if k == 2 then Pair(Missing, Idle, Idle, x.first, [])
    else if k == 3 then Pair(Missing, Ready, Idle, x.first, [])
    else if k == 4 then Pair(asked, Waiting(0), Idle, x.first, [])
    else if k == 5 then Pair(Missing, Waiting(0), Idle, x.first, [])
    else if k == 6 then Pair(Missing, Waiting(0), Ready, x.first, [])
    else if k == 7 then Pair(asked, Waiting(0), Waiting(0), x.first, [])
    else if k == 8 then Pair(asked, Received(0, enc), Waiting(0), x.first, [])
    else if k == 9 then Pair(asked, Received(0, enc), Received(0, enc), x.first, [])
    else if k == 10 then Pair(asked, Storing(0, enc), Received(0, enc), x.first, [])
    else if k == 11 then Pair(asked, Storing(0, enc), Storing(0, enc), x.first, [])
    else if k == 12 then Pair(asked, Writing(0, x.d), Storing(0, enc), x.begun, [])
    else if k == 13 then Pair(asked, Proving(0, x.d.nodes), Storing(0, enc), x.written, [])
    else if k == 14 then Pair(asked, Marking(0), Storing(0, enc), x.proven, [])
    else if k == 15 then Pair(asked, Stored(0), Storing(0, enc), x.claimed, [])
    else if k == 16 then Pair(Done, Idle, Storing(0, enc), x.claimed, [0])
    else Pair(Done, Idle, Writing(0, x.d), x.hole, [0])
  }

  /** The action that takes it on from state `k`. */
  function Taken(enc: Encoding, k: nat): Action<nat> {
    if k == 0 then Connect(0)
    else if k == 1 then Register(0, [true])
    else if k == 2 then Check(0)
    else if k == 3 then Pick(0, Some(0))
    else if k == 4 then BitfieldMessage(0, [true])
    else if k == 5 then Check(1)
    else if k == 6 then Pick(1, Some(0))
    else if k == 7 then Answer(0, Reply.Piece(enc))
    else if k == 8 then Answer(1, Reply.Piece(enc))
    else if k == 9 then StoreCheck(0)
    else if k == 10 then StoreCheck(1)
    else if k == 11 then StoreBegin(0, [])
    else if k == 12 then StoreWrite(0)
    else if k == 13 then StoreProof(0)
    else if k == 14 then StoreMark(0)
    else if k == 15 then Report(0)
    else StoreBegin(1, [])
  }

  ghost predicate Steps(c: Config, x: Shares6, enc: Encoding, k: nat) {
    StepBy(c, Trace(x, enc, k), Taken(enc, k), Trace(x, enc, k + 1))
  }

  lemma FirstAsks(c: Config, contents: seq<seq<byte>>, share: Share, enc: Encoding, k: nat)
    requires Setup(c, contents, share, enc) && k < 5
    ensures Steps(c, SharesOf(c, contents, share, enc), enc, k)
  {
    var x, asked := SharesOf(c, contents, share, enc), InFlight([0]);
    if k == 0 {
      Connects(c, share);
    } else if k == 1 {
      Registers(c, share);
    } else if k == 2 {
      PairShaped(c, Missing, Idle, Idle, share, []);
      Checks(c, Trace(x, enc, 2), 0);
      PairMoves(Missing, Idle, Idle, share, [], Ready, Idle);
    } else if k == 3 {
      PairShaped(c, Missing, Ready, Idle, share, []);
      Picks(c, Trace(x, enc, 3), 0);
      PairMoves(asked, Ready, Idle, share, [], Waiting(0), Idle);
    } else {
      PairShaped(c, asked, Waiting(0), Idle, share, []);
      Resends(c, Trace(x, enc, 4));
    }
  }

  lemma SecondAsks(c: Config, contents: seq<seq<byte>>, share: Share, enc: Encoding, k: nat)
    requires Setup(c, contents, share, enc) && 5 <= k < 7
    ensures Steps(c, SharesOf(c, contents, share, enc), enc, k)
  {
    var x, asked := SharesOf(c, contents, share, enc), InFlight([0]);
    if k == 5 {
      PairShaped(c, Missing, Waiting(0), Idle, share, []);
      Checks(c, Trace(x, enc, 5), 1);
      PairMoves(Missing, Waiting(0), Idle, share, [], Idle, Ready);
    } else {
      PairShaped(c, Missing, Waiting(0), Ready, share, []);
      Picks(c, Trace(x, enc, 6), 1);
      PairMoves(asked, Waiting(0), Ready, share, [], Idle, Waiting(0));
    }
  }

  lemma BothReceive(c: Config, contents: seq<seq<byte>>, share: Share, enc: Encoding, k: nat)
    requires Setup(c, contents, share, enc) && 7 <= k < 11
    ensures Steps(c, SharesOf(c, contents, share, enc), enc, k)
  {
    var x, asked, received := SharesOf(c, contents, share, enc), InFlight([0]), Received(0, enc);
    if k == 7 {
      PairShaped(c, asked, Waiting(0), Waiting(0), share, []);
      Answers(c, Trace(x, enc, 7), 0, enc);
      PairMoves(asked, Waiting(0), Waiting(0), share, [], received, Idle);
    } else if k == 8 {
      PairShaped(c, asked, received, Waiting(0), share, []);
      Answers(c, Trace(x, enc, 8), 1, enc);
      PairMoves(asked, received, Waiting(0), share, [], Idle, received);
    } else if k == 9 {
      PairShaped(c, asked, received, received, share, []);
      StoreChecks(c, Trace(x, enc, 9), 0, enc);
      PairMoves(asked, received, received, share, [], Storing(0, enc), Idle);
    } else {
      PairShaped(c, asked, Storing(0, enc), received, share, []);
      StoreChecks(c, Trace(x, enc, 10), 1, enc);
      PairMoves(asked, Storing(0, enc), received, share, [], Idle, Storing(0, enc));
    }
  }

  lemma FirstWrites(c: Config, contents: seq<seq<byte>>, share: Share, enc: Encoding, k: nat)
    requires Setup(c, contents, share, enc) && 11 <= k < 13
    ensures Steps(c, SharesOf(c, contents, share, enc), enc, k)
  {
    var x, asked, storing := SharesOf(c, contents, share, enc), InFlight([0]), Storing(0, enc);
    SharesAreOk(c, contents, share, enc);
    if k == 11 {
      PairShaped(c, asked, storing, storing, share, []);
      Begins(c, Trace(x, enc, 11), 0, enc, x.d);
      PairMoves(asked, storing, storing, x.begun, [], Writing(0, x.d), Idle);
    } else {
      PairShaped(c, asked, Writing(0, x.d), storing, x.begun, []);
      Writes(c, Trace(x, enc, 12), 0, x.d);
      PairMoves(asked, Writing(0, x.d), storing, x.written, [], Proving(0, x.d.nodes), Idle);
    }
  }

  lemma FirstClaims(c: Config, contents: seq<seq<byte>>, share: Share, enc: Encoding, k: nat)
    requires Setup(c, contents, share, enc) && 13 <= k < 15
    ensures Steps(c, SharesOf(c, contents, share, enc), enc, k)
  {
    var x, asked, storing := SharesOf(c, contents, share, enc), InFlight([0]), Storing(0, enc);
    SharesAreOk(c, contents, share, enc);
    if k == 13 {
      PairShaped(c, asked, Proving(0, x.d.nodes), storing, x.written, []);
      Saves(c, Trace(x, enc, 13), 0, x.d.nodes);
      PairMoves(asked, Proving(0, x.d.nodes), storing, x.proven, [], Marking(0), Idle);
    } else {
      PairShaped(c, asked, Marking(0), storing, x.proven, []);
      Marks(c, Trace(x, enc, 14), 0);
      PairMoves(asked, Marking(0), storing, x.claimed, [], Stored(0), Idle);
    }
  }

  lemma FirstReports(c: Config, contents: seq<seq<byte>>, share: Share, enc: Encoding, k: nat)
    requires Setup(c, contents, share, enc) && k == 15
    ensures Steps(c, SharesOf(c, contents, share, enc), enc, k)
  {
    var x, asked, storing := SharesOf(c, contents, share, enc), InFlight([0]), Storing(0, enc);
    SharesAreOk(c, contents, share, enc);
    PairShaped(c, asked, Stored(0), storing, x.claimed, []);
    Reports(c, Trace(x, enc, 15), 0);
    PairMoves(Done, Stored(0), storing, x.claimed, [0], Idle, Idle);
  }

  lemma SecondBegins(c: Config, contents: seq<seq<byte>>, share: Share, enc: Encoding, k: nat)
    requires Setup(c, contents, share, enc) && k == 16
    ensures Steps(c, SharesOf(c, contents, share, enc), enc, k)
  {
    var x, asked, storing := SharesOf(c, contents, share, enc), InFlight([0]), Storing(0, enc);
    SharesAreOk(c, contents, share, enc);
    SecondOfPairBegins(c, Done, Idle, x.claimed, [0], enc, x.d);
  }

  lemma TraceSteps(c: Config, contents: seq<seq<byte>>, share: Share, enc: Encoding, k: nat)
    requires Setup(c, contents, share, enc) && k < 17
    ensures var x := SharesOf(c, contents, share, enc); Step(c, Trace(x, enc, k), Trace(x, enc, k + 1))
  {
    if k < 5 {
      FirstAsks(c, contents, share, enc, k);
    } else if k < 7 {
      SecondAsks(c, contents, share, enc, k);
    } else if k < 11 {
      BothReceive(c, contents, share, enc, k);
    } else if k < 13 {
      FirstWrites(c, contents, share, enc, k);
    } else if k < 15 {
      FirstClaims(c, contents, share, enc, k);
    } else if k == 15 {
      FirstReports(c, contents, share, enc, k);
    } else {
      SecondBegins(c, contents, share, enc, k);
    }
  }

  /** Every such share has a run after which its download is done and does not verify. */
  lemma DoneNeedNotVerify(c: Config, contents: seq<seq<byte>>, share: Share, enc: Encoding)
    returns (run: seq<State<nat>>)
    requires Setup(c, contents, share, enc)
    ensures |run| > 0 && IsRun(c, share, run) && IsDone(run[|run| - 1])
    ensures var last := run[|run| - 1].share;
            ShareOk(c.m, last) && !L.Verifies(c.m, last, FileOf(c.m.sizes, 0))
  {
    var x := SharesOf(c, contents, share, enc);
    run := seq(18, k requires 0 <= k => Trace(x, enc, k));
    forall k | 0 <= k < 17 ensures Step(c, run[k], run[k + 1]) {
      TraceSteps(c, contents, share, enc, k);
    }
    SharesAreOk(c, contents, share, enc);
    assert run[17] == Pair(Done, Idle, Writing(0, x.d), x.hole, [0]);
    assert run[17].workers[1].pc.piece in BeingWritten(run[17].workers);
    DoneMeansVerified(c, contents, share, run, 17, FileOf(c.m.sizes, 0));
    assert x.hole.files[FileOf(c.m.sizes, 0)].Encrypted?;
  }
}
