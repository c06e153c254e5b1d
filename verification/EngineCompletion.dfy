/** A download completes if one honest peer that has what is missing stays: whatever
    all other peers send, and whichever of them come to nothing. */
module EngineCompletion {
  import opened Blocks
  import opened Chunker
  import opened EngineProgress
  import opened EngineSafety
  import opened EngineSpec
  import opened EngineTermination
  import opened Layouts
  import opened SchedulerEffects
  import opened Scheduling
  import opened Shares
  import opened Wrappers

  /** The encoding is the true one of piece `i`, perhaps with more behind it: see DecodeIsTrue. */
  ghost predicate Accepted(c: Config, i: nat, enc: Encoding) {
    i < Total(c.m.sizes) && |c.m.roots| == |c.m.sizes|
    && DecodeBlock(c.m, FileOf(c.m.sizes, i), BlockIn(c.m.sizes, i), enc).Some?
  }

  predicate OfPeer<P(==,!new)>(s: State<P>, w: nat, p: P) {
    w < |s.workers| && s.workers[w].attached && s.workers[w].peer == p
  }

  /** Peer `p` keeps its connection, answers truly or that it is busy, never takes back
      a piece that is not Done, and storing what it sends is not refused. */
  ghost predicate Honest<P(!new)>(c: Config, s: State<P>, p: P, a: Action<P>) {
    match a
    case Disconnect(q) => q != p
    case Answer(w, reply) =>
      OfPeer(s, w, p) ==>
        || reply.Busy?
        || (reply.Piece? && s.workers[w].pc.HasPiece() && Accepted(c, s.workers[w].pc.piece, reply.enc))
    case BitfieldMessage(q, bits) =>
      q == p ==> forall i :: 0 <= i < |s.view.pieces| && i < |bits| && !s.view.pieces[i].Done? ==> bits[i]
    case StoreError(w) => !OfPeer(s, w, p)
    case _ => true
  }

  /** What was received from `p` and is not yet checked will be accepted. */
  ghost predicate TrueSoFar<P(!new)>(c: Config, worker: Worker<P>, p: P) {
    worker.attached && worker.peer == p ==>
      match worker.pc
      case Received(i, enc) => Accepted(c, i, enc)
      case Storing(i, enc) => Accepted(c, i, enc)
      case _ => true
  }

  /** Peer `p` is registered with every piece that is not Done and has strikes left,
      and worker `w` is one of its workers. */
  ghost predicate Provides<P(!new)>(c: Config, s: State<P>, p: P, w: nat) {
    && Shaped(c, s) && WellFormed(s.view)
    && p in s.view.peers && StrikesOf(s, p) < MAX_STRIKES
    && (forall i :: 0 <= i < |s.view.pieces| && !s.view.pieces[i].Done? ==> p in Holders(s.view.peers, i))
    && OfPeer(s, w, p) && !s.workers[w].pc.Exited?
    && forall k :: 0 <= k < |s.workers| ==> TrueSoFar(c, s.workers[k], p)
  }

  // ---- Every honest step keeps that ----

  /** The view treats `p` as before, and no Done piece is lost. */
  ghost predicate SameFor<P(!new)>(v: View<P>, v': View<P>, p: P) {
    && |v'.pieces| == |v.pieces|
    && (forall i :: 0 <= i < |v.pieces| && v.pieces[i].Done? ==> v'.pieces[i].Done?)
    && (p in v.peers ==> p in v'.peers && v'.peers[p] == v.peers[p])
  }

  /** Enough when one worker moves. */
  lemma MoveProvides<P(!new)>(c: Config, s: State<P>, s': State<P>, p: P, w: nat, k: nat, pc: Pc)
    requires Provides(c, s, p, w) && Shaped(c, s') && WellFormed(s'.view) && k < |s.workers|
    requires s'.workers == s.workers[k := s.workers[k].(pc := pc)] && SameFor(s.view, s'.view, p)
    requires StrikesOf(s', p) <= StrikesOf(s, p)
    requires OfPeer(s, k, p) ==> !pc.Exited?
    requires TrueSoFar(c, s.workers[k].(pc := pc), p)
    ensures Provides(c, s', p, w)
  {
  }

  lemma GiveBackProvides<P(!new)>(
      c: Config, s: State<P>, p: P, w: nat, k: nat, lacksIt: bool, strikes: map<P, nat>)
    requires Provides(c, s, p, w) && k < |s.workers| && s.workers[k].pc.HasPiece()
    requires OfPeer(s, k, p) ==> !lacksIt
    requires s.workers[k].attached ==> (p in strikes <==> p in s.strikes)
    requires s.workers[k].attached && p in strikes ==> strikes[p] == s.strikes[p]
    requires s.workers[k].pc.piece < |s.view.pieces|
    ensures Provides(c, GiveBack(s, k, lacksIt, strikes), p, w)
  {
    var s' := GiveBack(s, k, lacksIt, strikes);
    FailedWellFormed(s.view, s.workers[k].pc.piece, s.workers[k].peer, lacksIt);
    FailedEffect(s.view, s.workers[k].pc.piece, s.workers[k].peer, lacksIt);
    MoveProvides(c, s, s', p, w, k, if s.workers[k].attached then Idle else Exited);
  }

  lemma DisconnectProvides<P(!new)>(c: Config, s: State<P>, p: P, w: nat, q: P)
    requires Provides(c, s, p, w) && Enabled(c, s, Disconnect(q)) && q != p
    ensures Provides(c, Next(c, s, Disconnect(q)), p, w)
  {
    var s' := Next(c, s, Disconnect(q));
    RemovePeerWellFormed(s.view, q);
    RemovePeerEffect(s.view, q);
    forall k | 0 <= k < |s'.workers|
      ensures s'.workers[k].pc.InRange(Total(c.m.sizes)) && TrueSoFar(c, s'.workers[k], p)
    {
      assert s.workers[k].pc.InRange(Total(c.m.sizes)) && TrueSoFar(c, s.workers[k], p);
    }
  }

  lemma PickProvides<P(!new)>(c: Config, s: State<P>, p: P, w: nat, k: nat, choice: Option<nat>)
    requires Provides(c, s, p, w) && Enabled(c, s, Pick(k, choice))
    ensures Provides(c, Next(c, s, Pick(k, choice)), p, w)
  {
    PickWellFormed(s.view, c.window, s.workers[k].peer, choice);
    PickEffect(s.view, c.window, s.workers[k].peer, choice);
    var s' := Next(c, s, Pick(k, choice));
    MoveProvides(c, s, s', p, w, k, s'.workers[k].pc);
  }

  lemma AnswerProvides<P(!new)>(c: Config, s: State<P>, p: P, w: nat, k: nat, reply: Reply)
    requires Provides(c, s, p, w) && Enabled(c, s, Answer(k, reply)) && Honest(c, s, p, Answer(k, reply))
    ensures Provides(c, Next(c, s, Answer(k, reply)), p, w)
  {
    var i := s.workers[k].pc.piece;
    assert s.workers[k].pc.InRange(Total(c.m.sizes));
    match reply
    case Piece(enc) => MoveProvides(c, s, Move(s, k, Received(i, enc)), p, w, k, Received(i, enc));
    case DontHave => GiveBackProvides(c, s, p, w, k, true, s.strikes);
    case Busy => GiveBackProvides(c, s, p, w, k, false, s.strikes);
    case NotFound => GiveBackProvides(c, s, p, w, k, false, SetStrikes(s, s.workers[k].peer, MAX_STRIKES));
    case Broken => GiveBackProvides(c, s, p, w, k, false, AddStrike(s, s.workers[k].peer));
  }

  lemma BeginProvides<P(!new)>(c: Config, s: State<P>, p: P, w: nat, k: nat, arrived: seq<bool>)
    requires Provides(c, s, p, w) && Enabled(c, s, StoreBegin(k, arrived))
    requires Shaped(c, Next(c, s, StoreBegin(k, arrived)))
    ensures Provides(c, Next(c, s, StoreBegin(k, arrived)), p, w)
  {
    var s', pc := Next(c, s, StoreBegin(k, arrived)), s.workers[k].pc;
    assert pc.InRange(Total(c.m.sizes)) && TrueSoFar(c, s.workers[k], p);
    if Accepted(c, pc.piece, pc.enc) {
      MoveProvides(c, s, s', p, w, k, s'.workers[k].pc);
    } else {
      GiveBackProvides(c, s, p, w, k, true, AddStrike(s, s.workers[k].peer));
    }
  }

  lemma ReportProvides<P(!new)>(c: Config, s: State<P>, p: P, w: nat, k: nat)
    requires Provides(c, s, p, w) && Enabled(c, s, Report(k))
    ensures Provides(c, Next(c, s, Report(k)), p, w)
  {
    var s' := Next(c, s, Report(k));
    assert s.workers[k].pc.InRange(Total(c.m.sizes));
    CompleteWellFormed(s.view, s.workers[k].pc.piece);
    MoveProvides(c, s, s', p, w, k, s'.workers[k].pc);
  }

  lemma RegisterProvides<P(!new)>(c: Config, s: State<P>, p: P, w: nat, q: P, bits: seq<bool>)
    requires Provides(c, s, p, w) && Enabled(c, s, Register(q, bits))
    ensures Provides(c, Next(c, s, Register(q, bits)), p, w)
  {
    var s' := Next(c, s, Register(q, bits));
    AddPeerWellFormed(s.view, q, bits);
    AddPeerEffect(s.view, q, bits);
    forall k | 0 <= k < |s'.workers|
      ensures s'.workers[k].pc.InRange(Total(c.m.sizes)) && TrueSoFar(c, s'.workers[k], p)
    {
      assert k < |s.workers| ==> s.workers[k].pc.InRange(Total(c.m.sizes)) && TrueSoFar(c, s.workers[k], p);
    }
  }

  /** Announcements leave the workers alone. */
  lemma MessageProvides<P(!new)>(c: Config, s: State<P>, p: P, w: nat, a: Action<P>)
    requires Provides(c, s, p, w) && Enabled(c, s, a) && Honest(c, s, p, a) && (a.HaveMessage? || a.BitfieldMessage?)
    ensures Provides(c, Next(c, s, a), p, w)
  {
    match a {
      case HaveMessage(q, i) =>
        SetPeerHasWellFormed(s.view, q, i);
        SetPeerHasEffect(s.view, q, i);
      case BitfieldMessage(q, bits) =>
        AddPeerWellFormed(s.view, q, bits);
        AddPeerEffect(s.view, q, bits);
    }
  }

  lemma StepProvides<P(!new)>(
      c: Config, contents: seq<seq<byte>>, restored: seq<bool>, s: State<P>, p: P, w: nat, a: Action<P>)
    requires Inv(c, contents, restored, s) && Provides(c, s, p, w) && !IsDone(s)
    requires Enabled(c, s, a) && Honest(c, s, p, a)
    ensures Provides(c, Next(c, s, a), p, w)
  {
    StepKeepsInv(c, contents, restored, s, a);
    StepProvidesFrom(c, s, p, w, a);
  }

  lemma StepProvidesFrom<P(!new)>(c: Config, s: State<P>, p: P, w: nat, a: Action<P>)
    requires Provides(c, s, p, w) && !IsDone(s)
    requires Enabled(c, s, a) && Honest(c, s, p, a) && Shaped(c, Next(c, s, a))
    ensures Provides(c, Next(c, s, a), p, w)
  {
    var s' := Next(c, s, a);
    match a
    case Connect(_) =>
    case Register(q, bits) => RegisterProvides(c, s, p, w, q, bits);
    case HaveMessage(_, _) => MessageProvides(c, s, p, w, a);
    case BitfieldMessage(_, _) => MessageProvides(c, s, p, w, a);
    case Disconnect(q) => DisconnectProvides(c, s, p, w, q);
    case Spawn(q) =>
    case Check(k) => MoveProvides(c, s, s', p, w, k, s'.workers[k].pc);
    case Pick(k, choice) => PickProvides(c, s, p, w, k, choice);
    case Answer(k, reply) => AnswerProvides(c, s, p, w, k, reply);
    case StoreCheck(k) => StoreProvides(c, s, p, w, a);
    case StoreBegin(k, arrived) => BeginProvides(c, s, p, w, k, arrived);
    case StoreWrite(k) => StoreProvides(c, s, p, w, a);
    case StoreProof(k) => StoreProvides(c, s, p, w, a);
    case StoreMark(k) => StoreProvides(c, s, p, w, a);
    case StoreError(k) =>
      assert s.workers[k].pc.InRange(Total(c.m.sizes));
      GiveBackProvides(c, s, p, w, k, true, AddStrike(s, s.workers[k].peer));
    case TaskFailed(k) =>
      assert s.workers[k].pc.InRange(Total(c.m.sizes));
      GiveBackProvides(c, s, p, w, k, false, s.strikes);
    case Report(k) => ReportProvides(c, s, p, w, k);
  }

  lemma StoreProvides<P(!new)>(c: Config, s: State<P>, p: P, w: nat, a: Action<P>)
    requires Provides(c, s, p, w) && Enabled(c, s, a) && Shaped(c, Next(c, s, a))
    requires a.StoreCheck? || a.StoreWrite? || a.StoreProof? || a.StoreMark?
    ensures Provides(c, Next(c, s, a), p, w)
  {
    var s', k := Next(c, s, a), a.w;
    assert TrueSoFar(c, s.workers[k], p);
    MoveProvides(c, s, s', p, w, k, s'.workers[k].pc);
  }

  // ---- There is such a peer, and it can always do something ----

  /** A peer that has everything provides it from when it is registered. */
  lemma RegisteredProvides<P(!new)>(
      c: Config, contents: seq<seq<byte>>, restored: seq<bool>, s: State<P>, p: P, bits: seq<bool>)
    requires Inv(c, contents, restored, s) && Enabled(c, s, Register(p, bits))
    requires forall i :: 0 <= i < |bits| ==> bits[i]
    ensures Provides(c, Next(c, s, Register(p, bits)), p, |s.workers|)
  {
    var s' := Next(c, s, Register(p, bits));
    RegisterKeepsInv(c, contents, restored, s, p, bits);
    forall k | 0 <= k < |s'.workers| ensures TrueSoFar(c, s'.workers[k], p) {
      if k < |s.workers| {
        assert Registered(s.view.peers, s.workers[k]);
      }
    }
  }

  lemma TrueProofIsAccepted(c: Config, contents: seq<seq<byte>>, i: nat)
    requires Commits(c.m, contents) && i < Total(c.m.sizes)
    ensures Accepted(c, i, TrueProof(c.m, contents, FileOf(c.m.sizes, i), BlockIn(c.m.sizes, i)))
  {
    var f, b := FileOf(c.m.sizes, i), BlockIn(c.m.sizes, i);
    DecodeIsTrue(c.m, contents, f, b, TrueProof(c.m, contents, f, b));
    ProofHasBlock(Split(contents[f]), Top(NumBlocks(c.m.sizes[f])), b);
  }

  /** Until the download is done such a step is possible. */
  lemma HonestCanStep<P(!new)>(
      c: Config, contents: seq<seq<byte>>, restored: seq<bool>, s: State<P>, p: P, w: nat)
    returns (a: Action<P>)
    requires Inv(c, contents, restored, s) && Provides(c, s, p, w)
    ensures Enabled(c, s, a) && Quiet(a) && Honest(c, s, p, a)
  {
    match s.workers[w].pc
    case Idle => a := Check(w);
    case Ready =>
      var choice := PickExists(s.view, c.window, p);
      a := Pick(w, choice);
    case Waiting(i) =>
      assert s.workers[w].pc.InRange(Total(c.m.sizes));
      TrueProofIsAccepted(c, contents, i);
      a := Answer(w, Reply.Piece(TrueProof(c.m, contents, FileOf(c.m.sizes, i), BlockIn(c.m.sizes, i))));
    case Received(_, _) => a := StoreCheck(w);
    case Storing(i, _) =>
      if k :| 0 <= k < |s.workers| && s.workers[k].pc.Writing? && SameFile(c, s.workers[k].pc.piece, i) {
        a := StoreWrite(k);
      } else {
        a := StoreBegin(w, []);
      }
    case Writing(_, _) => a := StoreWrite(w);
    case Proving(_, _) => a := StoreProof(w);
    case Marking(_) => a := StoreMark(w);
    case Stored(_) => a := Report(w);
  }

  // ---- Whole downloads ----

  ghost predicate HonestAt<P(!new)>(c: Config, run: nat -> State<P>, p: P, k: nat) {
    Shaped(c, run(k)) &&
    exists a :: Enabled(c, run(k), a) && Honest(c, run(k), p, a) && run(k + 1) == Next(c, run(k), a)
  }

  /** Until it is done the download goes on with `p` honest, and from `m` on quietly:
      there are finitely many joins, announcements, Busy replies and lost jobs. */
  ghost predicate HonestDownload<P(!new)>(c: Config, run: nat -> State<P>, p: P, m: nat) {
    && (forall k: nat :: DoneAt(run, k) || HonestAt(c, run, p, k))
    && forall k: nat :: m <= k ==> DoneAt(run, k) || QuietAt(c, run, k)
  }

  ghost function ProvidedAt<P(!new)>(
      c: Config, contents: seq<seq<byte>>, restored: seq<bool>, run: nat -> State<P>, p: P, w: nat): nat -> bool
  {
    (k: nat) => Inv(c, contents, restored, run(k)) && Provides(c, run(k), p, w)
  }

  lemma ProvidedNext<P(!new)>(
      c: Config, contents: seq<seq<byte>>, restored: seq<bool>, run: nat -> State<P>, p: P, w: nat, k: nat)
    requires HonestAt(c, run, p, k) && !DoneAt(run, k)
    requires Inv(c, contents, restored, run(k)) && Provides(c, run(k), p, w)
    ensures ProvidedAt(c, contents, restored, run, p, w)(k + 1)
  {
    var a :| Enabled(c, run(k), a) && Honest(c, run(k), p, a) && run(k + 1) == Next(c, run(k), a);
    StepKeepsInv(c, contents, restored, run(k), a);
    StepProvides(c, contents, restored, run(k), p, w, a);
  }

  lemma AlwaysProvided<P(!new)>(
      c: Config, contents: seq<seq<byte>>, restored: seq<bool>, run: nat -> State<P>, p: P, w: nat, m: nat, n: nat)
    requires HonestDownload(c, run, p, m) && NeverDone(run)
    requires Inv(c, contents, restored, run(0)) && Provides(c, run(0), p, w)
    ensures Inv(c, contents, restored, run(n)) && Provides(c, run(n), p, w)
  {
    var provided := ProvidedAt(c, contents, restored, run, p, w);
    forall k: nat ensures StepsOn(provided, k) {
      if provided(k) {
        assert HonestAt(c, run, p, k);
        ProvidedNext(c, contents, restored, run, p, w, k);
      }
    }
    Induct(provided, n);
  }

  /** Nothing is left to get from somebody who has everything. */
  lemma ProvidedIsDone<P(!new)>(c: Config, s: State<P>, p: P, w: nat)
    requires Provides(c, s, p, w) && NothingLeft(s)
    ensures IsDone(s)
  {
    forall i | 0 <= i < |s.view.pieces| ensures s.view.pieces[i].Done? {
      assert NothingLeftAt(s, w, i);
    }
  }

  // ---- What is left of a run after its first `m` steps ----

  ghost function Later<P(!new)>(run: nat -> State<P>, m: nat): nat -> State<P> {
    (k: nat) => run(m + k)
  }

  lemma LaterIsQuiet<P(!new)>(c: Config, run: nat -> State<P>, p: P, m: nat)
    requires HonestDownload(c, run, p, m) && NeverDone(run)
    ensures QuietUntilDone(c, Later(run, m)) && NeverDone(Later(run, m))
  {
    forall k: nat ensures QuietAt(c, Later(run, m), k) && !DoneAt(Later(run, m), k) {
      assert !DoneAt(run, m + k) && (DoneAt(run, m + k) || QuietAt(c, run, m + k));
      LaterQuietAt(c, run, m, k);
    }
  }

  lemma LaterQuietAt<P(!new)>(c: Config, run: nat -> State<P>, m: nat, k: nat)
    ensures QuietAt(c, Later(run, m), k) == QuietAt(c, run, m + k)
    ensures DoneAt(Later(run, m), k) == DoneAt(run, m + k)
  {
    var later := Later(run, m);
    assert later(k) == run(m + k) && later(k + 1) == run(m + k + 1);
  }

  lemma LaterIsFair<P(!new)>(run: nat -> State<P>, m: nat)
    requires Fair(run)
    ensures Fair(Later(run, m))
  {
    forall k: nat, w: nat ensures PollsOn(Later(run, m), k, w) {
      LaterPollsOn(run, m, k, w);
    }
    forall k: nat, w: nat ensures EndsAfter(Later(run, m), k, w) {
      LaterEnds(run, m, k, w);
    }
  }

  lemma LaterPollsOn<P(!new)>(run: nat -> State<P>, m: nat, k: nat, w: nat)
    requires Fair(run)
    ensures PollsOn(Later(run, m), k, w)
  {
    var later := Later(run, m);
    assert PollsOn(run, m + k, w) && later(k) == run(m + k);
    if LiveAt(later(k), w) {
      var j: nat :| m + k <= j && (GoesOn(run, j, w) || DoneAt(run, j));
      var i: nat := j - m;
      assert later(i) == run(j) && later(i + 1) == run(j + 1);
      assert GoesOn(later, i, w) || DoneAt(later, i);
    }
  }

  lemma LaterEnds<P(!new)>(run: nat -> State<P>, m: nat, k: nat, w: nat)
    requires Fair(run)
    ensures EndsAfter(Later(run, m), k, w)
  {
    var later := Later(run, m);
    assert EndsAfter(run, m + k, w) && later(k) == run(m + k);
    if BusyAt(later(k), w) {
      var j: nat :| m + k <= j && (!BusyAt(run(j), w) || DoneAt(run, j));
      var i: nat := j - m;
      assert later(i) == run(j);
      assert !BusyAt(later(i), w) || DoneAt(later, i);
    }
  }

  lemma InTheEndNothingLeft<P(!new)>(
      c: Config, contents: seq<seq<byte>>, restored: seq<bool>, run: nat -> State<P>, p: P, w: nat, m: nat)
    returns (n: nat)
    requires Inv(c, contents, restored, run(0)) && Provides(c, run(0), p, w)
    requires HonestDownload(c, run, p, m) && Fair(run) && NeverDone(run)
    ensures NothingLeft(run(n))
  {
    var later := RestOf(c, run, p, m);
    var k := LaterGetsEverything(c, contents, restored, run, p, w, m, later);
    n := m + k;
    assert LaterAt(later, run, m, k);
  }

  ghost predicate LaterAt<P(!new)>(later: nat -> State<P>, run: nat -> State<P>, m: nat, k: nat) {
    later(k) == run(m + k)
  }

  lemma RestOf<P(!new)>(c: Config, run: nat -> State<P>, p: P, m: nat) returns (later: nat -> State<P>)
    requires HonestDownload(c, run, p, m) && Fair(run) && NeverDone(run)
    ensures forall k: nat :: LaterAt(later, run, m, k)
    ensures QuietUntilDone(c, later) && NeverDone(later) && Fair(later)
  {
    LaterIsQuiet(c, run, p, m);
    LaterIsFair(run, m);
    later := Later(run, m);
  }

  lemma LaterGetsEverything<P(!new)>(
      c: Config, contents: seq<seq<byte>>, restored: seq<bool>, run: nat -> State<P>, p: P, w: nat, m: nat,
      later: nat -> State<P>)
    returns (k: nat)
    requires Inv(c, contents, restored, run(0)) && Provides(c, run(0), p, w)
    requires HonestDownload(c, run, p, m) && NeverDone(run) && LaterAt(later, run, m, 0)
    requires QuietUntilDone(c, later) && NeverDone(later) && Fair(later)
    ensures NothingLeft(later(k))
  {
    AlwaysProvided(c, contents, restored, run, p, w, m, m);
    k := FairRunGetsEverything(c, contents, restored, later);
    assert !DoneAt(later, k);
  }

  /** Every fair download from a reachable state in which an honest peer provides
      what is missing is done in the end, whatever the other peers do and however
      often the honest one is busy first. */
  lemma DownloadCompletes<P(!new)>(
      c: Config, contents: seq<seq<byte>>, restored: seq<bool>, run: nat -> State<P>, p: P, w: nat, m: nat)
    returns (n: nat)
    requires Inv(c, contents, restored, run(0)) && Provides(c, run(0), p, w)
    requires HonestDownload(c, run, p, m) && Fair(run)
    ensures IsDone(run(n))
  {
    if k: nat :| DoneAt(run, k) {
      n := k;
    } else {
      n := InTheEndNothingLeft(c, contents, restored, run, p, w, m);
      AlwaysProvided(c, contents, restored, run, p, w, m, n);
      ProvidedIsDone(c, run(n), p, w);
    }
  }
}
