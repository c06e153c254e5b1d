/** What each step of the engine does, in full: to requests, bitmaps, strikes, workers,
    reports and files. */
module EngineEffects {
  import opened Blocks
  import opened Chunker
  import opened EngineSafety
  import opened EngineSpec
  import opened Layouts
  import opened SchedulerEffects
  import opened Scheduling
  import opened Shares
  import opened TornWrites
  import opened Wrappers

  /** Only worker `w` moves, to this stage. */
  ghost predicate Moves<P(!new)>(s: State<P>, s': State<P>, w: nat, pc: Pc) {
    && w < |s.workers| == |s'.workers|
    && s'.workers[w] == Worker(s.workers[w].peer, s.workers[w].attached, pc)
    && forall k :: 0 <= k < |s.workers| && k != w ==> s'.workers[k] == s.workers[k]
  }

  /** The scheduler forgets the request for piece `i` to `p`, and no other. */
  ghost predicate RequestEnds<P(!new)>(s: State<P>, s': State<P>, p: P, i: nat) {
    && SameDone(s.view, s'.view)
    && (forall q, j: nat :: Asks(s'.view, q, j) <==> Asks(s.view, q, j) && !(q == p && j == i))
    && forall j: nat :: PieceMissing(s'.view, j) <==> PieceMissing(s.view, j) || (j == i && OnlyAsker(s.view, p, i))
  }

  /** It believes the same of who has what, except perhaps of piece `i` and `p`. */
  ghost predicate BitsAre<P(!new)>(s: State<P>, s': State<P>, p: P, i: nat, loses: bool) {
    && s'.view.peers.Keys == s.view.peers.Keys
    && forall q, j: nat :: q in Holders(s'.view.peers, j) <==>
         q in Holders(s.view.peers, j) && !(loses && q == p && j == i)
  }

  /** `p` has this many strikes, the others as many as before. */
  ghost predicate StrikesAre<P(!new)>(s: State<P>, s': State<P>, p: P, n: nat) {
    && s'.strikes.Keys == s.strikes.Keys
    && forall q :: q in s.strikes ==> s'.strikes[q] == if q == p then n else s.strikes[q]
  }

  ghost predicate FilesAre<P(!new)>(s: State<P>, s': State<P>) {
    s'.share == s.share && s'.connected == s.connected && s'.verified == s.verified
  }

  // ---- Replies ----

  /** A piece is passed on to be stored.  Any other reply ends the request and frees the
      worker.  A peer that does not have the piece is not asked for it again; one that
      is busy loses nothing; one that no longer shares is struck out; and one that
      fails gets a strike. */
  lemma AnswerEffect<P(!new)>(c: Config, s: State<P>, w: nat, reply: Reply)
    requires ViewInv(c, s) && Enabled(c, s, Answer(w, reply))
    ensures
      var s', p, i := Next(c, s, Answer(w, reply)), s.workers[w].peer, s.workers[w].pc.piece;
      && FilesAre(s, s') && s'.broken == s.broken && p in s.strikes
      && (if reply.Piece? then Moves(s, s', w, Received(i, reply.enc)) && s'.view == s.view
          else Moves(s, s', w, Idle) && RequestEnds(s, s', p, i) && BitsAre(s, s', p, i, reply.DontHave?))
      && StrikesAre(s, s', p,
                    match reply
                    case NotFound => 3
                    case Broken => s.strikes[p] + 1
                    case _ => s.strikes[p])
  {
    var i := s.workers[w].pc.piece;
    assert s.workers[w].pc.InRange(Total(c.m.sizes)) && Registered(s.view.peers, s.workers[w]);
    if !reply.Piece? {
      FailedEffect(s.view, i, s.workers[w].peer, reply.DontHave?);
    }
  }

  // ---- Storing ----

  /** A store that is refused or fails: the peer gets a strike and is not asked for the
      piece again; if its connection is gone the job just ends. */
  lemma RefusedEffect<P(!new)>(c: Config, s: State<P>, w: nat, a: Action<P>)
    requires ViewInv(c, s) && Enabled(c, s, a) && w < |s.workers| && s.workers[w].pc.HasPiece()
    requires s.workers[w].pc.piece < Total(c.m.sizes)
    requires
      || a == StoreError(w)
      || (a.StoreBegin? && a.w == w &&
          DecodeBlock(c.m, FileOf(c.m.sizes, s.workers[w].pc.piece), BlockIn(c.m.sizes, s.workers[w].pc.piece),
                      s.workers[w].pc.enc).None?)
    ensures
      var s', p, i := Next(c, s, a), s.workers[w].peer, s.workers[w].pc.piece;
      && FilesAre(s, s') && s'.broken == (if s.workers[w].pc.Writing? then s.broken + {i} else s.broken)
      && (s.workers[w].attached ==>
            && p in s.strikes && Moves(s, s', w, Idle) && RequestEnds(s, s', p, i) && BitsAre(s, s', p, i, true)
            && StrikesAre(s, s', p, s.strikes[p] + 1))
      && (!s.workers[w].attached ==> Moves(s, s', w, Exited) && s'.view == s.view && s'.strikes == s.strikes)
  {
    assert Registered(s.view.peers, s.workers[w]);
    FailedEffect(s.view, s.workers[w].pc.piece, s.workers[w].peer, true);
  }

  /** A job that dies: the request ends, and neither strikes nor bits change. */
  lemma TaskFailedEffect<P(!new)>(c: Config, s: State<P>, w: nat)
    requires ViewInv(c, s) && Enabled(c, s, TaskFailed(w))
    ensures
      var s', p, i := Next(c, s, TaskFailed(w)), s.workers[w].peer, s.workers[w].pc.piece;
      && FilesAre(s, s') && s'.strikes == s.strikes
      && s'.broken == (if s.workers[w].pc.Writing? then s.broken + {i} else s.broken)
      && (s.workers[w].attached ==>
            Moves(s, s', w, Idle) && RequestEnds(s, s', p, i) && BitsAre(s, s', p, i, false))
      && (!s.workers[w].attached ==> Moves(s, s', w, Exited) && s'.view == s.view)
  {
    assert s.workers[w].pc.InRange(Total(c.m.sizes)) && Registered(s.view.peers, s.workers[w]);
    FailedEffect(s.view, s.workers[w].pc.piece, s.workers[w].peer, false);
  }

  /** A piece that is claimed by now is not stored again. */
  lemma StoreCheckEffect<P(!new)>(c: Config, s: State<P>, w: nat)
    requires ViewInv(c, s) && Enabled(c, s, StoreCheck(w))
    ensures
      var s', i := Next(c, s, StoreCheck(w)), s.workers[w].pc.piece;
      && i < |s.share.have| && s'.view == s.view && s'.strikes == s.strikes && s'.broken == s.broken && FilesAre(s, s')
      && Moves(s, s', w, if s.share.have[i] then Stored(i) else Storing(i, s.workers[w].pc.enc))
  {
    assert s.workers[w].pc.InRange(Total(c.m.sizes));
  }

  /** The block of the piece in its file changes, first to something in between and
      then to what was decoded, and no other block, proof or claim. */
  lemma WriteEffect<P(!new)>(c: Config, s: State<P>, a: Action<P>, w: nat)
    requires ViewInv(c, s) && Enabled(c, s, a) && (a.StoreBegin? || a.StoreWrite?) && w == a.w
    requires s.workers[w].pc.piece < Total(c.m.sizes)
    ensures
      var s', i, f, b := Next(c, s, a), s.workers[w].pc.piece,
                         FileOf(c.m.sizes, s.workers[w].pc.piece), BlockIn(c.m.sizes, s.workers[w].pc.piece);
      && s'.share.have == s.share.have && s'.share.outboards == s.share.outboards && s'.verified == s.verified
      && |s'.share.files| == |s.share.files|
      && (forall g :: 0 <= g < |s.share.files| && g != f ==> s'.share.files[g] == s.share.files[g])
      && (a.StoreWrite? && |s.workers[w].pc.d.block| == BlockLen(c.m.sizes[f], b) ==>
            && DiffersAt(c.m, s.share, f, b, s'.share)
            && Written(s'.share.files[f], b)
            && ReadBlock(s'.share.files[f], c.m.sizes[f], b) == s.workers[w].pc.d.block
            && i !in s'.broken && Moves(s, s', w, Proving(i, s.workers[w].pc.d.nodes))
            && s'.view == s.view && s'.strikes == s.strikes)
  {
    var i := s.workers[w].pc.piece;
    var f, b := FileOf(c.m.sizes, i), BlockIn(c.m.sizes, i);
    if a.StoreWrite? && |s.workers[w].pc.d.block| == BlockLen(c.m.sizes[f], b) {
      WriteDiffers(c.m, s.share, f, b, s.workers[w].pc.d.block);
      WrittenIsThere(s.share, f, b, c.m.sizes[f], s.workers[w].pc.d.block);
    }
  }

  /** An accepted piece: its writing begins, and every other block is as before.  In an
      encrypted file the block cannot be read until it is written. */
  lemma BeginEffect<P(!new)>(c: Config, s: State<P>, w: nat, arrived: seq<bool>, d: Decoded)
    requires ViewInv(c, s) && Enabled(c, s, StoreBegin(w, arrived)) && s.workers[w].pc.piece < Total(c.m.sizes)
    requires var i := s.workers[w].pc.piece;
             DecodeBlock(c.m, FileOf(c.m.sizes, i), BlockIn(c.m.sizes, i), s.workers[w].pc.enc) == Some(d)
    ensures
      var s', i := Next(c, s, StoreBegin(w, arrived)), s.workers[w].pc.piece;
      var f, b := FileOf(c.m.sizes, i), BlockIn(c.m.sizes, i);
      && DiffersAt(c.m, s.share, f, b, s'.share) && Moves(s, s', w, Writing(i, d))
      && (s.share.files[f].Encrypted? ==> !Written(s'.share.files[f], b))
      && s'.view == s.view && s'.strikes == s.strikes && s'.verified == s.verified && s'.broken == s.broken
  {
    var i := s.workers[w].pc.piece;
    BeginDiffers(c.m, s.share, FileOf(c.m.sizes, i), BlockIn(c.m.sizes, i), d.block, arrived);
  }

  /** Pairs are saved in the outboard of the piece's file, each in its place. */
  lemma ProofEffect<P(!new)>(c: Config, s: State<P>, w: nat, o: nat)
    requires ViewInv(c, s) && Enabled(c, s, StoreProof(w)) && s.workers[w].pc.piece < Total(c.m.sizes)
    ensures
      var s', i, nodes := Next(c, s, StoreProof(w)), s.workers[w].pc.piece, s.workers[w].pc.nodes;
      var f := FileOf(c.m.sizes, i);
      && s'.share.files == s.share.files && s'.share.have == s.share.have
      && |s'.share.outboards| == |s.share.outboards|
      && (forall g :: 0 <= g < |s.share.outboards| && g != f ==> s'.share.outboards[g] == s.share.outboards[g])
      && (o < |s.share.outboards[f]| && (forall k :: 0 <= k < |nodes| ==> nodes[k].0 != o) ==>
            s'.share.outboards[f][o] == s.share.outboards[f][o])
      && Moves(s, s', w, Marking(i)) && s'.view == s.view && s'.strikes == s.strikes && s'.verified == s.verified
  {
    var f, nodes := FileOf(c.m.sizes, s.workers[w].pc.piece), s.workers[w].pc.nodes;
    if forall k :: 0 <= k < |nodes| ==> nodes[k].0 != o {
      ApplyKeeps(s.share.outboards[f], nodes, o);
    }
  }

  /** The piece is claimed, and nothing else changes but where the worker is. */
  lemma MarkEffect<P(!new)>(c: Config, s: State<P>, w: nat)
    requires ViewInv(c, s) && Enabled(c, s, StoreMark(w))
    ensures
      var s', i := Next(c, s, StoreMark(w)), s.workers[w].pc.piece;
      && s'.share.files == s.share.files && s'.share.outboards == s.share.outboards
      && |s'.share.have| == |s.share.have|
      && (forall j :: 0 <= j < |s.share.have| ==> (s'.share.have[j] <==> s.share.have[j] || j == i))
      && s'.view == s.view && s'.strikes == s.strikes && s'.verified == s.verified && Moves(s, s', w, Stored(i))
  {
    assert s.workers[w].pc.InRange(Total(c.m.sizes));
  }

  /** A stored piece is Done, forgives the peer its strikes, and is reported the first
      time; once the connection is gone nobody hears of it. */
  lemma ReportEffect<P(!new)>(c: Config, s: State<P>, w: nat)
    requires ViewInv(c, s) && Enabled(c, s, Report(w))
    ensures
      var s', p, i := Next(c, s, Report(w)), s.workers[w].peer, s.workers[w].pc.piece;
      && s'.share == s.share && s'.broken == s.broken && s'.connected == s.connected
      && (s.workers[w].attached ==>
            && Moves(s, s', w, Idle) && StrikesAre(s, s', p, 0) && s'.view.peers == s.view.peers
            && (forall j: nat :: PieceDone(s'.view, j) <==> PieceDone(s.view, j) || j == i)
            && (forall q, j: nat :: Asks(s'.view, q, j) <==> Asks(s.view, q, j) && j != i)
            && s'.verified == if PieceDone(s.view, i) then s.verified else s.verified + [i])
      && (!s.workers[w].attached ==>
            && Moves(s, s', w, Exited) && s'.view == s.view && s'.strikes == s.strikes && s'.verified == s.verified)
  {
    assert s.workers[w].pc.InRange(Total(c.m.sizes)) && Registered(s.view.peers, s.workers[w]);
    CompleteEffect(s.view, s.workers[w].pc.piece);
  }

  // ---- Workers and connections ----

  /** A worker stops once the download is done or its peer has three strikes. */
  lemma CheckEffect<P(!new)>(c: Config, s: State<P>, w: nat)
    requires ViewInv(c, s) && Enabled(c, s, Check(w))
    ensures
      var s', p := Next(c, s, Check(w)), s.workers[w].peer;
      && p in s.strikes && FilesAre(s, s') && s'.view == s.view && s'.strikes == s.strikes && s'.broken == s.broken
      && Moves(s, s', w,
               if (forall i :: 0 <= i < |s.view.pieces| ==> s.view.pieces[i].Done?) || s.strikes[p] >= 3
               then Exited
               else Ready)
  {
    assert Registered(s.view.peers, s.workers[w]);
  }

  /** A worker asks for a piece and waits for it; the scheduler knows. */
  lemma PickStepEffect<P(!new)>(c: Config, s: State<P>, w: nat, choice: Option<nat>)
    requires ViewInv(c, s) && Enabled(c, s, Pick(w, choice))
    ensures
      var s', p := Next(c, s, Pick(w, choice)), s.workers[w].peer;
      && FilesAre(s, s') && s'.strikes == s.strikes && s'.broken == s.broken
      && Moves(s, s', w, if choice.Some? then Waiting(choice.value) else Idle)
      && s'.view.peers == s.view.peers && SameDone(s.view, s'.view)
      && (forall q, j: nat :: Asks(s'.view, q, j) <==> Asks(s.view, q, j) || (q == p && choice == Some(j)))
      && forall j: nat :: PieceMissing(s'.view, j) <==> PieceMissing(s.view, j) && choice != Some(j)
  {
    PickEffect(s.view, c.window, s.workers[w].peer, choice);
  }

  /** One more worker with nothing to do. */
  lemma SpawnEffect<P(!new)>(c: Config, s: State<P>, p: P)
    requires ViewInv(c, s) && Enabled(c, s, Spawn(p))
    ensures
      var s' := Next(c, s, Spawn(p));
      && FilesAre(s, s') && s'.view == s.view && s'.strikes == s.strikes && s'.broken == s.broken
      && |s'.workers| == |s.workers| + 1 && s'.workers[..|s.workers|] == s.workers
      && s'.workers[|s.workers|] == Worker(p, true, Idle)
  {
  }

  /** A peer that is registered has just the pieces it announces, no strikes and eight
      workers with nothing to do. */
  lemma RegisterEffect<P(!new)>(c: Config, s: State<P>, p: P, bits: seq<bool>)
    requires ViewInv(c, s) && Enabled(c, s, Register(p, bits))
    ensures
      var s' := Next(c, s, Register(p, bits));
      && FilesAre(s, s') && s'.broken == s.broken && SameDone(s.view, s'.view)
      && s'.view.peers.Keys == s.view.peers.Keys + {p}
      && (forall q, j: nat :: q in Holders(s'.view.peers, j) <==>
            if q == p then j < |bits| && bits[j] else q in Holders(s.view.peers, j))
      && (forall q, j: nat :: Asks(s'.view, q, j) <==> Asks(s.view, q, j))
      && s'.strikes == s.strikes[p := 0]
      && |s'.workers| == |s.workers| + 8 && s'.workers[..|s.workers|] == s.workers
      && forall k :: |s.workers| <= k < |s'.workers| ==> s'.workers[k] == Worker(p, true, Idle)
  {
    AddPeerEffect(s.view, p, bits);
    forall q, j: nat | Asks(s.view, q, j) ensures q != p {
      assert PieceOk(s.view.pieces[j], j, s.view.peers);
    }
  }

  /** A resent bitfield replaces what the peer has, and the scheduler forgets what it
      was asked for, though its workers go on. */
  lemma BitfieldEffect<P(!new)>(c: Config, s: State<P>, p: P, bits: seq<bool>)
    requires ViewInv(c, s) && Enabled(c, s, BitfieldMessage(p, bits))
    ensures
      var s' := Next(c, s, BitfieldMessage(p, bits));
      && FilesAre(s, s') && s'.broken == s.broken && s'.workers == s.workers && s'.strikes == s.strikes
      && SameDone(s.view, s'.view) && s'.view.peers.Keys == s.view.peers.Keys
      && (forall q, j: nat :: q in Holders(s'.view.peers, j) <==>
            if q == p then j < |bits| && bits[j] else q in Holders(s.view.peers, j))
      && forall q, j: nat :: Asks(s'.view, q, j) <==> Asks(s.view, q, j) && q != p
  {
    AddPeerEffect(s.view, p, bits);
  }

  /** An update adds one piece to what the peer has. */
  lemma HaveEffect<P(!new)>(c: Config, s: State<P>, p: P, i: nat)
    requires ViewInv(c, s) && Enabled(c, s, HaveMessage(p, i))
    ensures
      var s' := Next(c, s, HaveMessage(p, i));
      && FilesAre(s, s') && s'.broken == s.broken && s'.workers == s.workers && s'.strikes == s.strikes
      && s'.view.pieces == s.view.pieces && s'.view.peers.Keys == s.view.peers.Keys
      && forall q, j: nat :: q in Holders(s'.view.peers, j) <==>
           q in Holders(s.view.peers, j) || (q == p && j == i && i < |s.view.pieces|)
  {
    SetPeerHasEffect(s.view, p, i);
  }

  /** A lost connection takes the peer's bits, strikes and requests with it, and its
      workers, except that what is being stored goes on being stored. */
  lemma DisconnectEffect<P(!new)>(c: Config, s: State<P>, p: P)
    requires ViewInv(c, s) && Enabled(c, s, Disconnect(p))
    ensures
      var s' := Next(c, s, Disconnect(p));
      && s'.share == s.share && s'.verified == s.verified && s'.broken == s.broken
      && s'.connected == s.connected - {p} && s'.strikes == s.strikes - {p}
      && s'.view.peers == s.view.peers - {p} && SameDone(s.view, s'.view)
      && (forall q, j: nat :: Asks(s'.view, q, j) <==> Asks(s.view, q, j) && q != p)
      && |s'.workers| == |s.workers|
      && forall k :: 0 <= k < |s.workers| ==>
           var was, now := s.workers[k], s'.workers[k];
           if !was.attached || was.peer != p then now == was
           else if was.pc.InTask() then now == Worker(p, false, was.pc)
           else now.pc == Exited && now.peer == p
  {
    RemovePeerEffect(s.view, p);
  }

  // ---- What may happen next ----

  /** A peer may send any bitfield, update and reply, and leave at any time; any job may
      die. */
  lemma AnythingMayHappen<P(!new)>(c: Config, s: State<P>, p: P, i: nat, bits: seq<bool>, w: nat, reply: Reply)
    requires ViewInv(c, s) && |bits| == Total(c.m.sizes)
    ensures p in s.connected ==> Enabled(c, s, Disconnect(p))
    ensures p in s.connected ==> Enabled(c, s, Register(p, bits)) || Enabled(c, s, BitfieldMessage(p, bits))
    ensures p in s.view.peers ==> Enabled(c, s, HaveMessage(p, i))
    ensures p !in s.connected && |s.connected| < 32 ==> Enabled(c, s, Connect(p))
    ensures w < |s.workers| && s.workers[w].pc.Waiting? && s.workers[w].attached ==> Enabled(c, s, Answer(w, reply))
    ensures w < |s.workers| && s.workers[w].pc.InTask() ==> Enabled(c, s, TaskFailed(w))
  {
  }

  /** A worker that has not stopped can go on, unless another one is just writing to the
      same file, and that one can. */
  lemma WorkerCanStep<P(!new)>(c: Config, s: State<P>, w: nat) returns (a: Action<P>)
    requires ViewInv(c, s) && w < |s.workers|
    requires s.workers[w].pc.InTask() || (s.workers[w].attached && !s.workers[w].pc.Exited?)
    ensures Enabled(c, s, a)
    ensures
      var k, was := Mover(a), s.workers[w].pc;
      && k < |s.workers| && Next(c, s, a).workers[k].pc != s.workers[k].pc
      && (k != w ==>
            && was.Storing? && s.workers[k].pc.Writing? && SameFile(c, s.workers[k].pc.piece, was.piece)
            && !Next(c, s, a).workers[k].pc.Writing?)
  {
    var pc := s.workers[w].pc;
    assert pc.InRange(Total(c.m.sizes));
    match pc
    case Idle => a := Check(w);
    case Ready =>
      var choice := PickExists(s.view, c.window, s.workers[w].peer);
      a := Pick(w, choice);
    case Waiting(_) => a := Answer(w, Busy);
    case Received(_, _) => a := StoreCheck(w);
    case Storing(i, _) =>
      if k :| 0 <= k < |s.workers| && s.workers[k].pc.Writing? && SameFile(c, s.workers[k].pc.piece, i) {
        a := StoreWrite(k);
      } else {
        a := StoreBegin(w, []);
      }
    case Writing(_, _) => a := StoreWrite(w);
    case Proving(_, _) => a := StoreProof(w);
    case Marking(_) => a := StoreMark(w);
    case Stored(_) => a := Report(w);
  }

  function Mover<P>(a: Action<P>): nat {
    match a
    case Check(w) => w
    case Pick(w, _) => w
    case Answer(w, _) => w
    case StoreCheck(w) => w
    case StoreBegin(w, _) => w
    case StoreWrite(w) => w
    case StoreProof(w) => w
    case StoreMark(w) => w
    case Report(w) => w
    case _ => 0
  }
}
