/** What every action of the engine keeps, and what follows for whole runs. */
module EngineSafety {
  import opened Blocks
  import opened Chunker
  import opened EngineSpec
  import opened Layouts
  import opened SchedulerEffects
  import opened Scheduling
  import opened Shares
  import opened TornWrites
  import L = ShareLaws
  import opened Wrappers

  // ---- The invariant ----

  /** This worker really has a request for piece `i` out to `p`. */
  predicate Outstanding<P(==,!new)>(worker: Worker<P>, p: P, i: nat) {
    worker.attached && worker.peer == p && worker.pc.HasPiece() && worker.pc.piece == i
  }

  ghost predicate Tracked<P(!new)>(v: View<P>, workers: seq<Worker<P>>) {
    forall p, i: nat :: Asks(v, p, i) ==> exists k :: 0 <= k < |workers| && Outstanding(workers[k], p, i)
  }

  predicate Registered<P(==,!new)>(peers: map<P, seq<bool>>, worker: Worker<P>) {
    worker.attached && !worker.pc.Exited? ==> worker.peer in peers
  }

  /** The scheduler is well-formed, every request it counts on is really out, and
      live workers belong to registered peers. */
  ghost predicate ViewInv<P(!new)>(c: Config, s: State<P>) {
    && Shaped(c, s)
    && WellFormed(s.view)
    && Tracked(s.view, s.workers)
    && (forall k :: 0 <= k < |s.workers| ==> Registered(s.view.peers, s.workers[k]))
    && s.view.peers.Keys <= s.connected
    && s.strikes.Keys == s.view.peers.Keys
    && |s.connected| <= MAX_PEERS
  }

  /** What a worker's stage promises about the share. */
  ghost predicate StageTrue(c: Config, contents: seq<seq<byte>>, sh: Share, torn: set<nat>, pc: Pc)
    requires ShareOk(c.m, sh) && Commits(c.m, contents) && pc.InRange(Total(c.m.sizes))
  {
    match pc
    case Writing(i, d) => d == TrueDecoded(c.m, contents, FileOf(c.m.sizes, i), BlockIn(c.m.sizes, i))
    case Proving(i, nodes) =>
      && Landed(c.m, contents, sh, torn, i)
      && nodes == TrueDecoded(c.m, contents, FileOf(c.m.sizes, i), BlockIn(c.m.sizes, i)).nodes
    case Marking(i) => Landed(c.m, contents, sh, torn, i) && PieceProven(c.m, contents, sh, i)
    case Stored(i) => sh.have[i]
    case _ => true
  }

  /** One writer for each file. */
  ghost predicate WritersApart<P(!new)>(c: Config, workers: seq<Worker<P>>) {
    forall j, k ::
      0 <= j < |workers| && 0 <= k < |workers| && j != k && workers[j].pc.Writing? && workers[k].pc.Writing? ==>
      !SameFile(c, workers[j].pc.piece, workers[k].pc.piece)
  }

  /** The share is sound but for unfinished writes, every stage in progress is
      true, and Done pieces are claimed. */
  ghost predicate ShareInv<P(!new)>(c: Config, contents: seq<seq<byte>>, s: State<P>) {
    && Shaped(c, s)
    && SoundBut(c.m, contents, s.share, Torn(s))
    && WritersApart(c, s.workers)
    && (forall k :: 0 <= k < |s.workers| ==> StageTrue(c, contents, s.share, Torn(s), s.workers[k].pc))
    && (forall i :: 0 <= i < |s.view.pieces| && s.view.pieces[i].Done? ==> s.share.have[i])
  }

  /** Exactly the pieces that were not restored and are Done have been reported, once each. */
  ghost predicate ReportInv<P(!new)>(restored: seq<bool>, s: State<P>) {
    && |restored| == |s.view.pieces|
    && Distinct(s.verified)
    && (forall i :: i in s.verified ==> i < |restored| && !restored[i])
    && (forall i: nat :: i < |restored| ==> (s.view.pieces[i].Done? <==> restored[i] || i in s.verified))
  }

  ghost predicate Inv<P(!new)>(c: Config, contents: seq<seq<byte>>, restored: seq<bool>, s: State<P>) {
    ViewInv(c, s) && ShareInv(c, contents, s) && ReportInv(restored, s)
  }

  // ---- One worker moves ----

  lemma TrackedUpdate<P(!new)>(v: View<P>, v': View<P>, workers: seq<Worker<P>>, w: nat, worker: Worker<P>)
    requires Tracked(v, workers) && w < |workers|
    requires forall q, i: nat :: Asks(v', q, i) ==>
               Outstanding(worker, q, i) || (Asks(v, q, i) && !Outstanding(workers[w], q, i))
    ensures Tracked(v', workers[w := worker])
  {
    var after := workers[w := worker];
    forall q, i: nat | Asks(v', q, i) ensures exists k :: 0 <= k < |after| && Outstanding(after[k], q, i) {
      if Outstanding(worker, q, i) {
        assert Outstanding(after[w], q, i);
      } else {
        var k :| 0 <= k < |workers| && Outstanding(workers[k], q, i);
        assert Outstanding(after[k], q, i);
      }
    }
  }

  /** Enough for the view invariant when an action moves one worker. */
  lemma ViewInvUpdate<P(!new)>(c: Config, s: State<P>, s': State<P>, w: nat, pc: Pc)
    requires ViewInv(c, s) && w < |s.workers| && pc.InRange(Total(c.m.sizes))
    requires s'.workers == s.workers[w := s.workers[w].(pc := pc)] && s'.connected == s.connected
    requires ShareOk(c.m, s'.share)
    requires WellFormed(s'.view) && |s'.view.pieces| == |s.view.pieces| && s'.view.peers.Keys == s.view.peers.Keys
    requires s'.strikes.Keys == s.strikes.Keys
    requires s.workers[w].pc.Exited? ==> pc.Exited?
    requires forall q, i: nat :: Asks(s'.view, q, i) ==>
               Outstanding(s'.workers[w], q, i) || (Asks(s.view, q, i) && !Outstanding(s.workers[w], q, i))
    ensures ViewInv(c, s')
  {
    TrackedUpdate(s.view, s'.view, s.workers, w, s.workers[w].(pc := pc));
    forall k | 0 <= k < |s'.workers| ensures Registered(s'.view.peers, s'.workers[k]) {
      assert Registered(s.view.peers, s.workers[k]);
    }
  }

  /** Enough for the share invariant when an action moves one worker. */
  lemma ShareInvUpdate<P(!new)>(c: Config, contents: seq<seq<byte>>, s: State<P>, s': State<P>, w: nat, pc: Pc)
    requires ShareInv(c, contents, s) && Shaped(c, s') && w < |s.workers|
    requires s'.workers == s.workers[w := s.workers[w].(pc := pc)]
    requires SoundBut(c.m, contents, s'.share, Torn(s'))
    requires Kept(c.m, contents, s.share, Torn(s), s'.share, Torn(s'))
    requires forall i :: 0 <= i < |s.share.have| && s.share.have[i] ==> s'.share.have[i]
    requires pc.InRange(Total(c.m.sizes)) && StageTrue(c, contents, s'.share, Torn(s'), pc)
    requires pc.Writing? ==> WriterIsFree(c, s, pc.piece)
    requires forall i :: 0 <= i < |s'.view.pieces| && s'.view.pieces[i].Done? ==>
               s.view.pieces[i].Done? || s'.share.have[i]
    ensures ShareInv(c, contents, s')
  {
    forall k | 0 <= k < |s'.workers| ensures StageTrue(c, contents, s'.share, Torn(s'), s'.workers[k].pc) {
      if k != w {
        StageKept(c, contents, s.share, Torn(s), s'.share, Torn(s'), s.workers[k].pc);
      }
    }
  }

  lemma StageKept(
      c: Config, contents: seq<seq<byte>>, sh: Share, torn: set<nat>, sh': Share, torn': set<nat>, pc: Pc)
    requires ShareOk(c.m, sh) && ShareOk(c.m, sh') && Commits(c.m, contents) && pc.InRange(Total(c.m.sizes))
    requires Kept(c.m, contents, sh, torn, sh', torn')
    requires forall i :: 0 <= i < |sh.have| && sh.have[i] ==> sh'.have[i]
    requires StageTrue(c, contents, sh, torn, pc)
    ensures StageTrue(c, contents, sh', torn', pc)
  {
  }

  // ---- Which writes are unfinished ----

  lemma BeingWrittenUpdate<P(!new)>(workers: seq<Worker<P>>, w: nat, worker: Worker<P>)
    requires w < |workers|
    ensures forall i :: i in BeingWritten(workers[w := worker]) <==>
              (worker.pc.Writing? && worker.pc.piece == i) || OthersWrite(workers, w, i)
    ensures forall i :: i in BeingWritten(workers) <==>
              (workers[w].pc.Writing? && workers[w].pc.piece == i) || OthersWrite(workers, w, i)
  {
    var after := workers[w := worker];
    forall i | OthersWrite(workers, w, i) ensures i in BeingWritten(after) && i in BeingWritten(workers) {
      var k :| 0 <= k < |workers| && k != w && workers[k].pc.Writing? && workers[k].pc.piece == i;
      assert after[k].pc.Writing? && after[k].pc.piece == i;
    }
    assert after[w] == worker;
  }

  ghost predicate OthersWrite<P(!new)>(workers: seq<Worker<P>>, w: nat, i: nat) {
    exists k :: 0 <= k < |workers| && k != w && workers[k].pc.Writing? && workers[k].pc.piece == i
  }

  lemma TornUpdate<P(!new)>(s: State<P>, s': State<P>, w: nat, pc: Pc)
    requires w < |s.workers| && s'.workers == s.workers[w := s.workers[w].(pc := pc)] && !pc.Writing?
    requires s'.broken == if s.workers[w].pc.Writing? then s.broken + {s.workers[w].pc.piece} else s.broken
    ensures Torn(s') == Torn(s)
  {
    BeingWrittenUpdate(s.workers, w, s.workers[w].(pc := pc));
  }

  lemma TornBegin<P(!new)>(s: State<P>, s': State<P>, w: nat, pc: Pc)
    requires w < |s.workers| && s'.workers == s.workers[w := s.workers[w].(pc := pc)]
    requires pc.Writing? && !s.workers[w].pc.Writing? && s'.broken == s.broken
    ensures Torn(s') == Torn(s) + {pc.piece}
  {
    BeingWrittenUpdate(s.workers, w, s.workers[w].(pc := pc));
  }

  lemma TornEnd<P(!new)>(c: Config, s: State<P>, s': State<P>, w: nat, pc: Pc)
    requires w < |s.workers| && s'.workers == s.workers[w := s.workers[w].(pc := pc)] && WritersApart(c, s.workers)
    requires !pc.Writing? && s.workers[w].pc.Writing? && s.workers[w].pc.InRange(Total(c.m.sizes))
    requires s'.broken == s.broken - {s.workers[w].pc.piece}
    ensures Torn(s') == Torn(s) - {s.workers[w].pc.piece}
  {
    BeingWrittenUpdate(s.workers, w, s.workers[w].(pc := pc));
    assert !OthersWrite(s.workers, w, s.workers[w].pc.piece);
  }

  // ---- Actions ----

  lemma GiveBackKeepsView<P(!new)>(c: Config, s: State<P>, w: nat, lacksIt: bool, strikes: map<P, nat>)
    requires ViewInv(c, s) && w < |s.workers| && s.workers[w].pc.HasPiece()
    requires s.workers[w].pc.piece < |s.view.pieces| && strikes.Keys == s.strikes.Keys
    ensures ViewInv(c, GiveBack(s, w, lacksIt, strikes))
  {
    var s' := GiveBack(s, w, lacksIt, strikes);
    if s.workers[w].attached {
      FailedWellFormed(s.view, s.workers[w].pc.piece, s.workers[w].peer, lacksIt);
      FailedEffect(s.view, s.workers[w].pc.piece, s.workers[w].peer, lacksIt);
    }
    ViewInvUpdate(c, s, s', w, if s.workers[w].attached then Idle else Exited);
  }

  lemma GiveBackKeepsInv<P(!new)>(
      c: Config, contents: seq<seq<byte>>, restored: seq<bool>,
      s: State<P>, w: nat, lacksIt: bool, strikes: map<P, nat>)
    requires Inv(c, contents, restored, s) && w < |s.workers| && s.workers[w].pc.HasPiece()
    requires s.workers[w].pc.piece < |s.view.pieces| && strikes.Keys == s.strikes.Keys
    ensures Inv(c, contents, restored, GiveBack(s, w, lacksIt, strikes))
  {
    var s' := GiveBack(s, w, lacksIt, strikes);
    GiveBackKeepsView(c, s, w, lacksIt, strikes);
    if s.workers[w].attached {
      FailedEffect(s.view, s.workers[w].pc.piece, s.workers[w].peer, lacksIt);
    }
    TornUpdate(s, s', w, if s.workers[w].attached then Idle else Exited);
    ShareInvUpdate(c, contents, s, s', w, if s.workers[w].attached then Idle else Exited);
  }

  lemma RegisterKeepsInv<P(!new)>(
      c: Config, contents: seq<seq<byte>>, restored: seq<bool>, s: State<P>, p: P, bits: seq<bool>)
    requires Inv(c, contents, restored, s) && Enabled(c, s, Register(p, bits))
    ensures Inv(c, contents, restored, Next(c, s, Register(p, bits)))
  {
    var s' := Next(c, s, Register(p, bits));
    AddPeerWellFormed(s.view, p, bits);
    RemovePeerEffect(s.view, p);
    forall q, i: nat | Asks(s'.view, q, i)
      ensures exists k :: 0 <= k < |s'.workers| && Outstanding(s'.workers[k], q, i)
    {
      assert Asks(s.view, q, i);
      var k :| 0 <= k < |s.workers| && Outstanding(s.workers[k], q, i);
      assert s'.workers[k] == s.workers[k];
    }
    forall k | 0 <= k < |s.workers| ensures Registered(s'.view.peers, s'.workers[k]) {
      assert Registered(s.view.peers, s.workers[k]);
    }
    RegisterKeepsShare(c, contents, s, p, bits);
  }

  lemma RegisterKeepsShare<P(!new)>(c: Config, contents: seq<seq<byte>>, s: State<P>, p: P, bits: seq<bool>)
    requires ShareInv(c, contents, s) && Enabled(c, s, Register(p, bits)) && WellFormed(s.view)
    ensures ShareInv(c, contents, Next(c, s, Register(p, bits)))
  {
    SameWrites(s, Next(c, s, Register(p, bits)));
    RemovePeerEffect(s.view, p);
  }

  lemma BitfieldKeepsInv<P(!new)>(
      c: Config, contents: seq<seq<byte>>, restored: seq<bool>, s: State<P>, p: P, bits: seq<bool>)
    requires Inv(c, contents, restored, s) && Enabled(c, s, BitfieldMessage(p, bits))
    ensures Inv(c, contents, restored, Next(c, s, BitfieldMessage(p, bits)))
  {
    var s' := Next(c, s, BitfieldMessage(p, bits));
    AddPeerWellFormed(s.view, p, bits);
    RemovePeerEffect(s.view, p);
    forall q, i: nat | Asks(s'.view, q, i)
      ensures exists k :: 0 <= k < |s'.workers| && Outstanding(s'.workers[k], q, i)
    {
      assert Asks(s.view, q, i);
    }
    forall k | 0 <= k < |s.workers| ensures Registered(s'.view.peers, s'.workers[k]) {
      assert Registered(s.view.peers, s.workers[k]);
    }
  }

  lemma HaveKeepsInv<P(!new)>(c: Config, contents: seq<seq<byte>>, restored: seq<bool>, s: State<P>, p: P, i: nat)
    requires Inv(c, contents, restored, s) && Enabled(c, s, HaveMessage(p, i))
    ensures Inv(c, contents, restored, Next(c, s, HaveMessage(p, i)))
  {
    var s' := Next(c, s, HaveMessage(p, i));
    SetPeerHasWellFormed(s.view, p, i);
    forall q, j: nat | Asks(s'.view, q, j)
      ensures exists k :: 0 <= k < |s'.workers| && Outstanding(s'.workers[k], q, j)
    {
      assert Asks(s.view, q, j);
    }
    forall k | 0 <= k < |s.workers| ensures Registered(s'.view.peers, s'.workers[k]) {
      assert Registered(s.view.peers, s.workers[k]);
    }
  }

  lemma DisconnectKeepsInv<P(!new)>(c: Config, contents: seq<seq<byte>>, restored: seq<bool>, s: State<P>, p: P)
    requires Inv(c, contents, restored, s) && Enabled(c, s, Disconnect(p))
    ensures Inv(c, contents, restored, Next(c, s, Disconnect(p)))
  {
    var s' := Next(c, s, Disconnect(p));
    RemovePeerWellFormed(s.view, p);
    RemovePeerEffect(s.view, p);
    forall q, i: nat | Asks(s'.view, q, i)
      ensures exists k :: 0 <= k < |s'.workers| && Outstanding(s'.workers[k], q, i)
    {
      assert Asks(s.view, q, i) && q != p;
      var k :| 0 <= k < |s.workers| && Outstanding(s.workers[k], q, i);
      assert s'.workers[k] == s.workers[k];
    }
    forall k | 0 <= k < |s.workers|
      ensures Registered(s'.view.peers, s'.workers[k]) && s'.workers[k].pc.InRange(Total(c.m.sizes))
      ensures StageTrue(c, contents, s.share, Torn(s), s'.workers[k].pc)
    {
      assert Registered(s.view.peers, s.workers[k]) && s.workers[k].pc.InRange(Total(c.m.sizes));
      assert StageTrue(c, contents, s.share, Torn(s), s.workers[k].pc);
    }
    SameWrites(s, s');
    assert |s'.connected| < |s.connected|;
  }

  /** The same workers are writing the same pieces. */
  lemma SameWrites<P(!new)>(s: State<P>, s': State<P>)
    requires |s.workers| <= |s'.workers| && s'.broken == s.broken
    requires forall k :: 0 <= k < |s.workers| ==>
               (s'.workers[k].pc.Writing? <==> s.workers[k].pc.Writing?)
               && (s.workers[k].pc.Writing? ==> s'.workers[k].pc == s.workers[k].pc)
    requires forall k :: |s.workers| <= k < |s'.workers| ==> !s'.workers[k].pc.Writing?
    ensures Torn(s') == Torn(s)
  {
    forall k | 0 <= k < |s.workers| && s.workers[k].pc.Writing?
      ensures s.workers[k].pc.piece in BeingWritten(s'.workers)
    {
      assert s'.workers[k].pc.Writing?;
    }
  }

  lemma PickKeepsInv<P(!new)>(
      c: Config, contents: seq<seq<byte>>, restored: seq<bool>, s: State<P>, w: nat, choice: Option<nat>)
    requires Inv(c, contents, restored, s) && Enabled(c, s, Pick(w, choice))
    ensures Inv(c, contents, restored, Next(c, s, Pick(w, choice)))
  {
    var s' := Next(c, s, Pick(w, choice));
    PickWellFormed(s.view, c.window, s.workers[w].peer, choice);
    PickEffect(s.view, c.window, s.workers[w].peer, choice);
    ViewInvUpdate(c, s, s', w, s'.workers[w].pc);
    TornUpdate(s, s', w, s'.workers[w].pc);
    ShareInvUpdate(c, contents, s, s', w, s'.workers[w].pc);
  }

  lemma BeginKeepsInv<P(!new)>(
      c: Config, contents: seq<seq<byte>>, restored: seq<bool>, s: State<P>, w: nat, arrived: seq<bool>)
    requires Inv(c, contents, restored, s) && Enabled(c, s, StoreBegin(w, arrived))
    ensures Inv(c, contents, restored, Next(c, s, StoreBegin(w, arrived)))
  {
    var s', pc := Next(c, s, StoreBegin(w, arrived)), s.workers[w].pc;
    var f, b := FileOf(c.m.sizes, pc.piece), BlockIn(c.m.sizes, pc.piece);
    DecodeIsTrue(c.m, contents, f, b, pc.enc);
    if DecodeBlock(c.m, f, b, pc.enc).None? {
      GiveBackKeepsInv(c, contents, restored, s, w, true, AddStrike(s, s.workers[w].peer));
    } else {
      TornBegin(s, s', w, s'.workers[w].pc);
      BeginStage(c.m, contents, s.share, Torn(s), pc.piece, arrived);
      KeptIsSoundBut(c.m, contents, s.share, Torn(s), s'.share, Torn(s'));
      ViewInvUpdate(c, s, s', w, s'.workers[w].pc);
      ShareInvUpdate(c, contents, s, s', w, s'.workers[w].pc);
    }
  }

  lemma WriteKeepsInv<P(!new)>(c: Config, contents: seq<seq<byte>>, restored: seq<bool>, s: State<P>, w: nat)
    requires Inv(c, contents, restored, s) && Enabled(c, s, StoreWrite(w))
    ensures Inv(c, contents, restored, Next(c, s, StoreWrite(w)))
  {
    var s', pc := Next(c, s, StoreWrite(w)), s.workers[w].pc;
    assert StageTrue(c, contents, s.share, Torn(s), pc);
    TornEnd(c, s, s', w, s'.workers[w].pc);
    EndStage(c.m, contents, s.share, Torn(s), pc.piece);
    KeptIsSoundBut(c.m, contents, s.share, Torn(s), s'.share, Torn(s'));
    ViewInvUpdate(c, s, s', w, s'.workers[w].pc);
    ShareInvUpdate(c, contents, s, s', w, s'.workers[w].pc);
  }

  lemma ProofKeepsInv<P(!new)>(c: Config, contents: seq<seq<byte>>, restored: seq<bool>, s: State<P>, w: nat)
    requires Inv(c, contents, restored, s) && Enabled(c, s, StoreProof(w))
    ensures Inv(c, contents, restored, Next(c, s, StoreProof(w)))
  {
    var s', pc := Next(c, s, StoreProof(w)), s.workers[w].pc;
    assert StageTrue(c, contents, s.share, Torn(s), pc);
    TornUpdate(s, s', w, s'.workers[w].pc);
    SaveStage(c.m, contents, s.share, Torn(s), pc.piece);
    KeptIsSoundBut(c.m, contents, s.share, Torn(s), s'.share, Torn(s'));
    ViewInvUpdate(c, s, s', w, s'.workers[w].pc);
    ShareInvUpdate(c, contents, s, s', w, s'.workers[w].pc);
  }

  lemma MarkKeepsInv<P(!new)>(c: Config, contents: seq<seq<byte>>, restored: seq<bool>, s: State<P>, w: nat)
    requires Inv(c, contents, restored, s) && Enabled(c, s, StoreMark(w))
    ensures Inv(c, contents, restored, Next(c, s, StoreMark(w)))
  {
    var s', pc := Next(c, s, StoreMark(w)), s.workers[w].pc;
    assert StageTrue(c, contents, s.share, Torn(s), pc);
    TornUpdate(s, s', w, s'.workers[w].pc);
    MarkKeeps(c.m, contents, s.share, Torn(s), pc.piece);
    ViewInvUpdate(c, s, s', w, s'.workers[w].pc);
    ShareInvUpdate(c, contents, s, s', w, s'.workers[w].pc);
  }

  lemma ReportKeepsInv<P(!new)>(c: Config, contents: seq<seq<byte>>, restored: seq<bool>, s: State<P>, w: nat)
    requires Inv(c, contents, restored, s) && Enabled(c, s, Report(w))
    ensures Inv(c, contents, restored, Next(c, s, Report(w)))
  {
    var s', i := Next(c, s, Report(w)), s.workers[w].pc.piece;
    assert StageTrue(c, contents, s.share, Torn(s), s.workers[w].pc);
    assert s.workers[w].pc.InRange(Total(c.m.sizes));
    TornUpdate(s, s', w, s'.workers[w].pc);
    if s.workers[w].attached {
      CompleteWellFormed(s.view, i);
    }
    ViewInvUpdate(c, s, s', w, s'.workers[w].pc);
    ShareInvUpdate(c, contents, s, s', w, s'.workers[w].pc);
    ReportKeepsReports(c, restored, s, w);
  }

  lemma ReportKeepsReports<P(!new)>(c: Config, restored: seq<bool>, s: State<P>, w: nat)
    requires Shaped(c, s) && ReportInv(restored, s) && Enabled(c, s, Report(w))
    ensures ReportInv(restored, Next(c, s, Report(w)))
  {
    assert s.workers[w].pc.InRange(Total(c.m.sizes));
  }

  /** Every action of every interleaving keeps the invariant. */
  lemma StepKeepsInv<P(!new)>(c: Config, contents: seq<seq<byte>>, restored: seq<bool>, s: State<P>, a: Action<P>)
    requires Inv(c, contents, restored, s) && Enabled(c, s, a)
    ensures Inv(c, contents, restored, Next(c, s, a))
  {
    match a
    case Connect(p) =>
    case Register(p, bits) => RegisterKeepsInv(c, contents, restored, s, p, bits);
    case HaveMessage(p, i) => HaveKeepsInv(c, contents, restored, s, p, i);
    case BitfieldMessage(p, bits) => BitfieldKeepsInv(c, contents, restored, s, p, bits);
    case Disconnect(p) => DisconnectKeepsInv(c, contents, restored, s, p);
    case Spawn(p) => SpawnKeepsInv(c, contents, restored, s, p);
    case Check(w) => CheckKeepsInv(c, contents, restored, s, w);
    case Pick(w, choice) => PickKeepsInv(c, contents, restored, s, w, choice);
    case Answer(w, reply) => AnswerKeepsInv(c, contents, restored, s, w, reply);
    case StoreCheck(w) => StoreCheckKeepsInv(c, contents, restored, s, w);
    case StoreBegin(w, arrived) => BeginKeepsInv(c, contents, restored, s, w, arrived);
    case StoreWrite(w) => WriteKeepsInv(c, contents, restored, s, w);
    case StoreProof(w) => ProofKeepsInv(c, contents, restored, s, w);
    case StoreMark(w) => MarkKeepsInv(c, contents, restored, s, w);
    case StoreError(w) =>
      assert s.workers[w].pc.InRange(Total(c.m.sizes));
      GiveBackKeepsInv(c, contents, restored, s, w, true, AddStrike(s, s.workers[w].peer));
    case TaskFailed(w) =>
      assert s.workers[w].pc.InRange(Total(c.m.sizes));
      GiveBackKeepsInv(c, contents, restored, s, w, false, s.strikes);
    case Report(w) => ReportKeepsInv(c, contents, restored, s, w);
  }

  lemma CheckKeepsInv<P(!new)>(c: Config, contents: seq<seq<byte>>, restored: seq<bool>, s: State<P>, w: nat)
    requires Inv(c, contents, restored, s) && Enabled(c, s, Check(w))
    ensures Inv(c, contents, restored, Next(c, s, Check(w)))
  {
    PlainMoveKeepsInv(c, contents, restored, s, w, Next(c, s, Check(w)).workers[w].pc);
  }

  lemma AnswerKeepsInv<P(!new)>(
      c: Config, contents: seq<seq<byte>>, restored: seq<bool>, s: State<P>, w: nat, reply: Reply)
    requires Inv(c, contents, restored, s) && Enabled(c, s, Answer(w, reply))
    ensures Inv(c, contents, restored, Next(c, s, Answer(w, reply)))
  {
    assert s.workers[w].pc.InRange(Total(c.m.sizes));
    match reply
    case Piece(enc) => PlainMoveKeepsInv(c, contents, restored, s, w, Received(s.workers[w].pc.piece, enc));
    case DontHave => GiveBackKeepsInv(c, contents, restored, s, w, true, s.strikes);
    case Busy => GiveBackKeepsInv(c, contents, restored, s, w, false, s.strikes);
    case NotFound =>
      GiveBackKeepsInv(c, contents, restored, s, w, false, SetStrikes(s, s.workers[w].peer, MAX_STRIKES));
    case Broken => GiveBackKeepsInv(c, contents, restored, s, w, false, AddStrike(s, s.workers[w].peer));
  }

  lemma StoreCheckKeepsInv<P(!new)>(c: Config, contents: seq<seq<byte>>, restored: seq<bool>, s: State<P>, w: nat)
    requires Inv(c, contents, restored, s) && Enabled(c, s, StoreCheck(w))
    ensures Inv(c, contents, restored, Next(c, s, StoreCheck(w)))
  {
    assert s.workers[w].pc.InRange(Total(c.m.sizes));
    PlainMoveKeepsInv(c, contents, restored, s, w, Next(c, s, StoreCheck(w)).workers[w].pc);
  }

  lemma SpawnKeepsInv<P(!new)>(c: Config, contents: seq<seq<byte>>, restored: seq<bool>, s: State<P>, p: P)
    requires Inv(c, contents, restored, s) && Enabled(c, s, Spawn(p))
    ensures Inv(c, contents, restored, Next(c, s, Spawn(p)))
  {
    var s' := Next(c, s, Spawn(p));
    forall q, i: nat | Asks(s.view, q, i)
      ensures exists k :: 0 <= k < |s'.workers| && Outstanding(s'.workers[k], q, i)
    {
      var k :| 0 <= k < |s.workers| && Outstanding(s.workers[k], q, i);
      assert s'.workers[k] == s.workers[k];
    }
    SameWrites(s, s');
  }

  /** A worker moves on with the same piece, or none, and nothing else changes. */
  lemma PlainMoveKeepsInv<P(!new)>(
      c: Config, contents: seq<seq<byte>>, restored: seq<bool>, s: State<P>, w: nat, pc: Pc)
    requires Inv(c, contents, restored, s) && w < |s.workers|
    requires pc.InRange(Total(c.m.sizes)) && StageTrue(c, contents, s.share, Torn(s), pc)
    requires !pc.Writing? && !s.workers[w].pc.Writing?
    requires s.workers[w].pc.Exited? ==> pc.Exited?
    requires s.workers[w].pc.HasPiece() ==> pc.HasPiece() && pc.piece == s.workers[w].pc.piece
    ensures Inv(c, contents, restored, Move(s, w, pc))
  {
    ViewInvUpdate(c, s, Move(s, w, pc), w, pc);
    TornUpdate(s, Move(s, w, pc), w, pc);
    ShareInvUpdate(c, contents, s, Move(s, w, pc), w, pc);
  }

  // ---- Whole runs ----

  ghost predicate Step<P(!new)>(c: Config, s: State<P>, s': State<P>) {
    Shaped(c, s) && exists a :: Enabled(c, s, a) && s' == Next(c, s, a)
  }

  ghost predicate IsRun<P(!new)>(c: Config, share: Share, run: seq<State<P>>) {
    && |run| > 0
    && run[0] == Start(share)
    && forall k :: 0 <= k < |run| - 1 ==> Step(c, run[k], run[k + 1])
  }

  lemma StartHasInv<P(!new)>(c: Config, contents: seq<seq<byte>>, share: Share)
    requires Sound(c.m, contents, share)
    ensures Inv<P>(c, contents, share.have, Start(share))
  {
    assert Torn<P>(Start(share)) == {};
    SoundButNothing(c.m, contents, share);
  }

  /** The invariant holds in every state of every run from a sound share. */
  lemma {:induction false} RunHasInv<P(!new)>(
      c: Config, contents: seq<seq<byte>>, share: Share, run: seq<State<P>>, k: nat)
    requires Sound(c.m, contents, share) && IsRun(c, share, run) && k < |run|
    ensures Inv(c, contents, share.have, run[k])
  {
    if k == 0 {
      StartHasInv<P>(c, contents, share);
    } else {
      RunHasInv(c, contents, share, run, k - 1);
      assert Step(c, run[k - 1], run[k]);
      var a :| Enabled(c, run[k - 1], a) && run[k] == Next(c, run[k - 1], a);
      StepKeepsInv(c, contents, share.have, run[k - 1], a);
    }
  }

  /** End to end: whatever peers send and however workers interleave, a piece the
      scheduler calls Done is claimed, and a claimed piece is provable, and on disk
      exactly unless a write of it to an encrypted file is unfinished. */
  lemma DoneMeansTrue<P(!new)>(c: Config, contents: seq<seq<byte>>, share: Share, run: seq<State<P>>, k: nat, i: nat)
    requires Sound(c.m, contents, share) && IsRun(c, share, run) && k < |run| && i < Total(c.m.sizes)
    ensures ShareOk(c.m, run[k].share)
    ensures |run[k].view.pieces| == Total(c.m.sizes) && (run[k].view.pieces[i].Done? ==> run[k].share.have[i])
    ensures run[k].share.have[i] ==>
              && PieceProven(c.m, contents, run[k].share, i)
              && (PieceOnDisk(c.m, contents, run[k].share, i) <==> !Hole(c.m, run[k].share, Torn(run[k]), i))
  {
    RunHasInv(c, contents, share, run, k);
    if run[k].share.have[i] {
      OnDiskIff(c.m, contents, run[k].share, Torn(run[k]), i);
    }
  }

  /** Such a piece encodes, to the true encoding, exactly unless that write is
      unfinished and the piece is not all zeros. */
  lemma ClaimedEncodesIff<P(!new)>(
      c: Config, contents: seq<seq<byte>>, share: Share, run: seq<State<P>>, k: nat, i: nat)
    requires Sound(c.m, contents, share) && IsRun(c, share, run) && k < |run| && i < Total(c.m.sizes)
    requires ShareOk(c.m, run[k].share) && run[k].share.have[i]
    ensures var f, b, r := FileOf(c.m.sizes, i), BlockIn(c.m.sizes, i), L.EncodePiece(c.m, run[k].share, i);
            && (r.Some? <==>
                  || !Hole(c.m, run[k].share, Torn(run[k]), i)
                  || Split(contents[f])[b] == Zeros(BlockLen(c.m.sizes[f], b)))
            && (r.Some? ==> r.value == TrueProof(c.m, contents, f, b))
  {
    RunHasInv(c, contents, share, run, k);
    EncodesIff(c.m, contents, run[k].share, Torn(run[k]), i);
  }

  /** Once `is_done`, a file verifies, and is then the shared file byte for byte,
      exactly if it is plain or none of its pieces is being written again. */
  lemma DoneMeansVerified<P(!new)>(
      c: Config, contents: seq<seq<byte>>, share: Share, run: seq<State<P>>, k: nat, f: nat)
    requires Sound(c.m, contents, share) && IsRun(c, share, run) && k < |run| && IsDone(run[k]) && f < |c.m.sizes|
    ensures ShareOk(c.m, run[k].share)
    ensures L.Verifies(c.m, run[k].share, f) <==>
              || run[k].share.files[f].Plain?
              || forall i :: 0 <= i < Total(c.m.sizes) && FileOf(c.m.sizes, i) == f ==> i !in Torn(run[k])
    ensures L.Verifies(c.m, run[k].share, f) ==> L.FileBytes(run[k].share.files[f], c.m.sizes[f]) == contents[f]
  {
    RunHasInv(c, contents, share, run, k);
    FileVerifiesIff(c.m, contents, run[k].share, Torn(run[k]), f);
  }

  /** Nothing is left half written: every file of a finished download verifies. */
  lemma SettledMeansVerified<P(!new)>(
      c: Config, contents: seq<seq<byte>>, share: Share, run: seq<State<P>>, k: nat, f: nat)
    requires Sound(c.m, contents, share) && IsRun(c, share, run) && k < |run| && IsDone(run[k]) && f < |c.m.sizes|
    requires run[k].broken == {} && forall w :: 0 <= w < |run[k].workers| ==> !run[k].workers[w].pc.Writing?
    ensures ShareOk(c.m, run[k].share) && L.Verifies(c.m, run[k].share, f)
    ensures L.FileBytes(run[k].share.files[f], c.m.sizes[f]) == contents[f]
  {
    DoneMeansVerified(c, contents, share, run, k, f);
  }

  /** From start to end: whatever files are there, whatever was saved before and
      whatever happens, once the download is done and nothing is being written every
      file is the shared one. */
  lemma DownloadIsTheShare<P(!new)>(
      c: Config, contents: seq<seq<byte>>, onDisk: seq<FileData>, existed: seq<bool>, saved: seq<seq<HashPair>>,
      run: seq<State<P>>, k: nat, f: nat)
    requires Commits(c.m, contents) && |c.m.sizes| == |onDisk| == |existed|
    requires forall g :: 0 <= g < |c.m.sizes| ==> FileOk(onDisk[g], c.m.sizes[g])
    requires IsRun(c, L.Restore(c.m, L.NewShare(c.m, onDisk, existed), saved), run)
    requires k < |run| && IsDone(run[k]) && f < |c.m.sizes|
    requires run[k].broken == {} && forall w :: 0 <= w < |run[k].workers| ==> !run[k].workers[w].pc.Writing?
    ensures ShareOk(c.m, run[k].share) && L.Verifies(c.m, run[k].share, f)
    ensures L.FileBytes(run[k].share.files[f], c.m.sizes[f]) == contents[f]
  {
    var share := L.NewShare(c.m, onDisk, existed);
    L.NewShareIsSound(c.m, contents, onDisk, existed);
    L.ResumeIsSound(c.m, contents, share, saved);
    SettledMeansVerified(c, contents, L.Restore(c.m, share, saved), run, k, f);
  }

  // ---- Saving and resuming ----

  lemma NextKeepsHave<P(!new)>(c: Config, s: State<P>, a: Action<P>, i: nat)
    requires Shaped(c, s) && Enabled(c, s, a) && i < |s.share.have| && s.share.have[i]
    ensures i < |Next(c, s, a).share.have| && Next(c, s, a).share.have[i]
  {
  }

  lemma StepKeepsHave<P(!new)>(c: Config, s: State<P>, s': State<P>, i: nat)
    requires Step(c, s, s') && i < |s.share.have| && s.share.have[i]
    ensures i < |s'.share.have| && s'.share.have[i]
  {
    var a :| Enabled(c, s, a) && s' == Next(c, s, a);
    NextKeepsHave(c, s, a, i);
  }

  lemma {:induction false} RunKeepsHave<P(!new)>(c: Config, share: Share, run: seq<State<P>>, k: nat, j: nat, i: nat)
    requires IsRun(c, share, run) && k <= j < |run| && i < |run[k].share.have| && run[k].share.have[i]
    ensures i < |run[j].share.have| && run[j].share.have[i]
    decreases j - k
  {
    if k < j {
      RunKeepsHave(c, share, run, k, j - 1, i);
      RunStepKeepsHave(c, share, run, j, i);
    }
  }

  lemma RunStepKeepsHave<P(!new)>(c: Config, share: Share, run: seq<State<P>>, j: nat, i: nat)
    requires IsRun(c, share, run) && 0 < j < |run| && i < |run[j - 1].share.have| && run[j - 1].share.have[i]
    ensures i < |run[j].share.have| && run[j].share.have[i]
  {
    assert Step(c, run[j - 1], run[j - 1 + 1]);
    StepKeepsHave(c, run[j - 1], run[j], i);
  }

  /** Each file's outboard was saved at a time of its own, at or after `k`. */
  ghost predicate SavedSince<P(!new)>(
      c: Config, run: seq<State<P>>, k: nat, times: seq<nat>, saved: seq<seq<HashPair>>)
  {
    && |times| == |saved| == |c.m.sizes|
    && forall f :: 0 <= f < |saved| ==>
         k <= times[f] < |run| && f < |run[times[f]].share.outboards| && saved[f] == run[times[f]].share.outboards[f]
  }

  /** Saving takes the files one after the other while stores go on: a piece claimed
      before it began is claimed again after a restart that finds it on disk. */
  lemma ResumeLosesNothing<P(!new)>(
      c: Config, contents: seq<seq<byte>>, share: Share, run: seq<State<P>>, k: nat,
      times: seq<nat>, saved: seq<seq<HashPair>>, sh: Share, i: nat)
    requires Sound(c.m, contents, share) && IsRun(c, share, run) && k < |run| && i < Total(c.m.sizes)
    requires i < |run[k].share.have| && run[k].share.have[i] && SavedSince(c, run, k, times, saved)
    requires ShareOk(c.m, sh) && PieceOnDisk(c.m, contents, sh, i)
    ensures L.Restore(c.m, sh, saved).have[i]
  {
    var j := times[FileOf(c.m.sizes, i)];
    RunKeepsHave(c, share, run, k, j, i);
    DoneMeansTrue(c, contents, share, run, j, i);
    L.ResumeIsComplete(c.m, contents, run[j].share, saved, sh, i);
  }

  // ---- No stall ----

  /** While some peer holds a piece that is not Done, either a request for an
      unfinished piece is out, or `pick` gives that peer something to do. */
  lemma NoStall<P(!new)>(c: Config, s: State<P>, p: P, i: nat, choice: Option<nat>)
    requires ViewInv(c, s)
    requires i < |s.view.pieces| && !s.view.pieces[i].Done? && p in Holders(s.view.peers, i)
    requires IsPick(s.view, c.window, p, choice)
    ensures
      || choice.Some?
      || exists k, q, j: nat ::
           0 <= k < |s.workers| && Outstanding(s.workers[k], q, j) && j < |s.view.pieces| && !s.view.pieces[j].Done?
  {
    PickNothingIff(s.view, c.window, p, choice);
    if s.view.pieces[i].InFlight? {
      assert PieceOk(s.view.pieces[i], i, s.view.peers);
      assert Asks(s.view, s.view.pieces[i].askers[0], i);
    } else {
      assert Wanted(s.view, p, i);
    }
  }

  // ---- Reports and bytes ----

  function ReportedBytes(lens: seq<nat>, verified: seq<nat>): nat {
    if verified == [] then 0
    else
      var last := verified[|verified| - 1];
      ReportedBytes(lens, verified[..|verified| - 1]) + if last < |lens| then lens[last] else 0
  }

  function Marked(restored: seq<bool>, verified: seq<nat>): seq<bool> {
    seq(|restored|, i requires 0 <= i < |restored| => restored[i] || i in verified)
  }

  lemma {:induction false} ReportedBytesAddUp(lens: seq<nat>, restored: seq<bool>, verified: seq<nat>)
    requires |lens| == |restored| && Distinct(verified)
    requires forall i :: i in verified ==> i < |restored| && !restored[i]
    ensures BytesOf(lens, Marked(restored, verified), |restored|)
             == BytesOf(lens, restored, |restored|) + ReportedBytes(lens, verified)
    decreases |verified|
  {
    if verified == [] {
      assert Marked(restored, verified) == restored;
    } else {
      var init, last := verified[..|verified| - 1], verified[|verified| - 1];
      assert forall i :: i in verified <==> i in init || i == last;
      assert last !in init;
      ReportedBytesAddUp(lens, restored, init);
      BytesOfOneMore(lens, Marked(restored, init), last, |restored|);
      assert Marked(restored, verified) == Marked(restored, init)[last := true];
    }
  }

  lemma CompleteReportsAddUp(sizes: seq<nat>, restored: seq<bool>, verified: seq<nat>)
    requires |restored| == Total(sizes) && Distinct(verified)
    requires forall i: nat :: i in verified <==> i < |restored| && !restored[i]
    ensures BytesOf(PieceLens(sizes), restored, |restored|) + ReportedBytes(PieceLens(sizes), verified)
             == TotalSize(sizes, |sizes|)
  {
    ReportedBytesAddUp(PieceLens(sizes), restored, verified);
    AllPiecesAreAllBytes(sizes, Marked(restored, verified));
  }

  /** In a finished download every piece that was not restored was reported
      exactly once, and the restored and reported bytes are the share's size. */
  lemma ReportsAddUp<P(!new)>(c: Config, contents: seq<seq<byte>>, share: Share, run: seq<State<P>>, k: nat)
    requires Sound(c.m, contents, share) && IsRun(c, share, run) && k < |run| && IsDone(run[k])
    ensures Distinct(run[k].verified)
    ensures forall i: nat :: i in run[k].verified <==> i < |share.have| && !share.have[i]
    ensures
      BytesOf(PieceLens(c.m.sizes), share.have, |share.have|) + ReportedBytes(PieceLens(c.m.sizes), run[k].verified)
      == TotalSize(c.m.sizes, |c.m.sizes|)
  {
    RunHasInv(c, contents, share, run, k);
    CompleteReportsAddUp(c.m.sizes, share.have, run[k].verified);
  }
}
