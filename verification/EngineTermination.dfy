/** The engine does a bounded amount of work: once peers stop joining, announcing
    pieces and answering Busy, and tasks stop failing, an infinite run from any
    reachable state is eventually nothing but idle polling. */
module EngineTermination {
  import opened Blocks
  import opened EngineSafety
  import opened EngineSpec
  import opened Layouts
  import opened SchedulerEffects
  import opened Scheduling
  import opened Sets
  import opened Shares
  import opened Wrappers

  /** The actions that may go on for ever: others are what the theorem leaves out. */
  predicate Quiet<P>(a: Action<P>) {
    match a
    case Connect(_) => false
    case Register(_, _) => false
    case HaveMessage(_, _) => false
    case BitfieldMessage(_, _) => false
    case TaskFailed(_) => false
    case Answer(_, reply) => reply != Busy
    case _ => true
  }

  /** An idle worker looking for something to do: the check that lets it go on,
      and a `pick` that finds nothing. */
  ghost predicate IsPoll<P(!new)>(s: State<P>, a: Action<P>) {
    match a
    case Check(w) => At(s, w) && !IsDone(s) && !Struck(s, s.workers[w].peer)
    case Pick(w, choice) => choice.None?
    case _ => false
  }

  // ---- The measure ----

  function Sum(xs: seq<nat>): nat {
    if xs == [] then 0 else Sum(xs[..|xs| - 1]) + xs[|xs| - 1]
  }

  lemma {:induction false} SumUpdate(xs: seq<nat>, i: nat, x: nat)
    requires i < |xs|
    ensures Sum(xs[i := x]) + xs[i] == Sum(xs) + x
    decreases |xs|
  {
    var n := |xs| - 1;
    if i < n {
      SumUpdate(xs[..n], i, x);
      assert xs[i := x][..n] == xs[..n][i := x];
    } else {
      assert xs[i := x][..n] == xs[..n];
    }
  }

  predicate Struck<P(==,!new)>(s: State<P>, p: P) {
    StrikesOf(s, p) >= MAX_STRIKES
  }

  ghost function Unfinished<P(!new)>(s: State<P>): set<nat> {
    set i: nat | i < |s.view.pieces| && !s.view.pieces[i].Done?
  }

  ghost function Bits<P(!new)>(s: State<P>): set<(P, nat)> {
    set p, i: nat | p in s.view.peers && i < |s.view.peers[p]| && s.view.peers[p][i] :: (p, i)
  }

  ghost function StrikesLeft<P(!new)>(s: State<P>): set<(P, nat)> {
    set p, k: nat | p in s.strikes && k < MAX_STRIKES && s.strikes[p] <= k :: (p, k)
  }

  ghost function FreeSlots<P(!new)>(s: State<P>): set<(P, nat)> {
    if IsDone(s) then {}
    else set p, k: nat | p in s.view.peers && k < MAX_REQUESTS_PER_PEER && ActiveWorkers(s.workers, p) <= k :: (p, k)
  }

  /** 1 for a live request for a piece that is already Done. */
  ghost function LateRank<P(!new)>(s: State<P>, worker: Worker<P>): nat {
    if
      worker.attached && worker.pc.HasPiece() && worker.pc.piece < |s.view.pieces| &&
      s.view.pieces[worker.pc.piece].Done?
    then 1
    else 0
  }

  /** 1 for a live request for a piece its peer is no longer believed to hold. */
  ghost function StaleRank<P(!new)>(s: State<P>, worker: Worker<P>): nat {
    if worker.attached && worker.pc.HasPiece() && worker.peer !in Holders(s.view.peers, worker.pc.piece) then 1 else 0
  }

  /** What a worker of a struck-out peer can still do. */
  ghost function StruckRank<P(!new)>(s: State<P>, worker: Worker<P>): nat {
    if !worker.attached || !Struck(s, worker.peer) || worker.pc.Exited? then 0
    else if worker.pc.Idle? then 1
    else if worker.pc.Ready? then 3
    else 2
  }

  /** How far a worker is from the end of its request. */
  function StageRank(pc: Pc): nat {
    match pc
    case Idle => 8
    case Ready => 8
    case Waiting(_) => 7
    case Received(_, _) => 6
    case Storing(_, _) => 5
    case Writing(_, _) => 4
    case Proving(_, _) => 3
    case Marking(_) => 2
    case Stored(_) => 1
    case Exited => 0
  }

  ghost function LateRanks<P(!new)>(s: State<P>): seq<nat> {
    seq(|s.workers|, k requires 0 <= k < |s.workers| => LateRank(s, s.workers[k]))
  }

  ghost function StaleRanks<P(!new)>(s: State<P>): seq<nat> {
    seq(|s.workers|, k requires 0 <= k < |s.workers| => StaleRank(s, s.workers[k]))
  }

  ghost function StruckRanks<P(!new)>(s: State<P>): seq<nat> {
    seq(|s.workers|, k requires 0 <= k < |s.workers| => StruckRank(s, s.workers[k]))
  }

  ghost function StageRanks<P(!new)>(s: State<P>): seq<nat> {
    seq(|s.workers|, k requires 0 <= k < |s.workers| => StageRank(s.workers[k].pc))
  }

  /** Compared from left to right. */
  datatype Measure = Measure(
    connected: nat, unfinished: nat, late: nat, bits: nat, stale: nat, strikesLeft: nat, struck: nat, stages: nat)

  ghost function MeasureOf<P(!new)>(s: State<P>): Measure {
    Measure(|s.connected|, |Unfinished(s)|, Sum(LateRanks(s)), |Bits(s)|, Sum(StaleRanks(s)), |StrikesLeft(s)|,
            Sum(StruckRanks(s)), Sum(StageRanks(s)) + 9 * |FreeSlots(s)|)
  }

  predicate Less(a: Measure, b: Measure) {
    || a.connected < b.connected
    || (a.connected == b.connected &&
        (|| a.unfinished < b.unfinished
         || (a.unfinished == b.unfinished &&
             (|| a.late < b.late
              || (a.late == b.late &&
                  (|| a.bits < b.bits
                   || (a.bits == b.bits &&
                       (|| a.stale < b.stale
                        || (a.stale == b.stale &&
                            (|| a.strikesLeft < b.strikesLeft
                             || (a.strikesLeft == b.strikesLeft &&
                                 (|| a.struck < b.struck
                                  || (a.struck == b.struck && a.stages < b.stages)))))))))))))
  }

  // ---- How an action that moves one worker changes each component ----

  /** The pieces Done, the bits and the strikes are as before. */
  ghost predicate SameFacts<P(!new)>(s: State<P>, s': State<P>) {
    SameDone(s.view, s'.view) && s'.view.peers == s.view.peers && s'.strikes == s.strikes && s'.connected == s.connected
  }

  lemma LateUpdate<P(!new)>(s: State<P>, s': State<P>, w: nat)
    requires w < |s.workers| == |s'.workers| && SameDone(s.view, s'.view)
    requires forall k :: 0 <= k < |s.workers| && k != w ==> s'.workers[k] == s.workers[k]
    ensures Sum(LateRanks(s')) + LateRank(s, s.workers[w]) == Sum(LateRanks(s)) + LateRank(s, s'.workers[w])
  {
    SumUpdate(LateRanks(s), w, LateRank(s, s'.workers[w]));
    assert LateRanks(s') == LateRanks(s)[w := LateRank(s, s'.workers[w])];
  }

  lemma StaleUpdate<P(!new)>(s: State<P>, s': State<P>, w: nat)
    requires w < |s.workers| == |s'.workers| && s'.view.peers == s.view.peers
    requires forall k :: 0 <= k < |s.workers| && k != w ==> s'.workers[k] == s.workers[k]
    ensures Sum(StaleRanks(s')) + StaleRank(s, s.workers[w]) == Sum(StaleRanks(s)) + StaleRank(s, s'.workers[w])
  {
    SumUpdate(StaleRanks(s), w, StaleRank(s, s'.workers[w]));
    assert StaleRanks(s') == StaleRanks(s)[w := StaleRank(s, s'.workers[w])];
  }

  lemma StruckUpdate<P(!new)>(s: State<P>, s': State<P>, w: nat)
    requires w < |s.workers| == |s'.workers|
    requires forall p :: Struck(s', p) == Struck(s, p)
    requires forall k :: 0 <= k < |s.workers| && k != w ==> s'.workers[k] == s.workers[k]
    ensures Sum(StruckRanks(s')) + StruckRank(s, s.workers[w]) == Sum(StruckRanks(s)) + StruckRank(s, s'.workers[w])
  {
    SumUpdate(StruckRanks(s), w, StruckRank(s, s'.workers[w]));
    assert StruckRanks(s') == StruckRanks(s)[w := StruckRank(s, s'.workers[w])];
  }

  lemma StageUpdate<P(!new)>(s: State<P>, s': State<P>, w: nat)
    requires w < |s.workers| == |s'.workers|
    requires forall k :: 0 <= k < |s.workers| && k != w ==> s'.workers[k] == s.workers[k]
    ensures Sum(StageRanks(s')) + StageRank(s.workers[w].pc) == Sum(StageRanks(s)) + StageRank(s'.workers[w].pc)
  {
    SumUpdate(StageRanks(s), w, StageRank(s'.workers[w].pc));
    assert StageRanks(s') == StageRanks(s)[w := StageRank(s'.workers[w].pc)];
  }

  predicate Active<P(==,!new)>(worker: Worker<P>, p: P) {
    worker.attached && !worker.pc.Exited? && worker.peer == p
  }

  lemma {:induction false} ActiveUpdate<P(!new)>(workers: seq<Worker<P>>, w: nat, worker: Worker<P>, p: P)
    requires w < |workers| && Active(workers[w], p) == Active(worker, p)
    ensures ActiveWorkers(workers[w := worker], p) == ActiveWorkers(workers, p)
    decreases |workers|
  {
    var n := |workers| - 1;
    if w < n {
      ActiveUpdate(workers[..n], w, worker, p);
      assert workers[w := worker][..n] == workers[..n][w := worker];
    } else {
      assert workers[w := worker][..n] == workers[..n];
    }
  }

  /** Nothing but one worker's stage changes, and it stays alive if it was. */
  lemma MoveMeasure<P(!new)>(s: State<P>, s': State<P>, w: nat)
    requires w < |s.workers| == |s'.workers| && SameFacts(s, s')
    requires s'.workers == s.workers[w := s.workers[w].(pc := s'.workers[w].pc)]
    requires s.workers[w].attached ==> (s.workers[w].pc.Exited? <==> s'.workers[w].pc.Exited?)
    ensures var m, m' := MeasureOf(s), MeasureOf(s');
            && m'.connected == m.connected && m'.unfinished == m.unfinished
            && m'.bits == m.bits && m'.strikesLeft == m.strikesLeft
            && m'.late + LateRank(s, s.workers[w]) == m.late + LateRank(s, s'.workers[w])
            && m'.stale + StaleRank(s, s.workers[w]) == m.stale + StaleRank(s, s'.workers[w])
            && m'.struck + StruckRank(s, s.workers[w]) == m.struck + StruckRank(s, s'.workers[w])
            && m'.stages + StageRank(s.workers[w].pc) == m.stages + StageRank(s'.workers[w].pc)
  {
    LateUpdate(s, s', w);
    StaleUpdate(s, s', w);
    StruckUpdate(s, s', w);
    StageUpdate(s, s', w);
    assert Unfinished(s') == Unfinished(s);
    forall p ensures ActiveWorkers(s'.workers, p) == ActiveWorkers(s.workers, p) {
      ActiveUpdate(s.workers, w, s'.workers[w], p);
    }
    assert FreeSlots(s') == FreeSlots(s);
  }

  // ---- Each action ----

  lemma DisconnectDecreases<P(!new)>(c: Config, s: State<P>, p: P)
    requires Shaped(c, s) && Enabled(c, s, Disconnect(p))
    ensures Less(MeasureOf(Next(c, s, Disconnect(p))), MeasureOf(s))
  {
    ProperSubsetSize(s.connected - {p}, s.connected);
  }

  lemma SpawnDecreases<P(!new)>(c: Config, s: State<P>, p: P)
    requires Shaped(c, s) && Enabled(c, s, Spawn(p))
    ensures Less(MeasureOf(Next(c, s, Spawn(p))), MeasureOf(s))
  {
    var s', idle := Next(c, s, Spawn(p)), Worker(p, true, Idle);
    assert LateRanks(s') == LateRanks(s) + [0];
    assert StaleRanks(s') == StaleRanks(s) + [0];
    assert StruckRanks(s') == StruckRanks(s) + [0];
    assert StageRanks(s') == StageRanks(s) + [8];
    assert Unfinished(s') == Unfinished(s) && Bits(s') == Bits(s) && StrikesLeft(s') == StrikesLeft(s);
    assert s'.workers[..|s'.workers| - 1] == s.workers;
    var slot := (p, ActiveWorkers(s.workers, p));
    assert slot in FreeSlots(s) && slot !in FreeSlots(s');
    assert FreeSlots(s') <= FreeSlots(s);
    ProperSubsetSize(FreeSlots(s'), FreeSlots(s));
  }

  /** An idle worker leaves. */
  lemma ExitMeasure<P(!new)>(s: State<P>, w: nat)
    requires w < |s.workers| && s.workers[w].attached && s.workers[w].pc.Idle?
    ensures var m, m' := MeasureOf(s), MeasureOf(Move(s, w, Exited));
            && m'.connected == m.connected && m'.unfinished == m.unfinished && m'.late == m.late
            && m'.bits == m.bits && m'.stale == m.stale && m'.strikesLeft == m.strikesLeft
            && m'.struck + StruckRank(s, s.workers[w]) == m.struck
  {
    var s' := Move(s, w, Exited);
    LateUpdate(s, s', w);
    StaleUpdate(s, s', w);
    StruckUpdate(s, s', w);
    assert Unfinished(s') == Unfinished(s) && Bits(s') == Bits(s) && StrikesLeft(s') == StrikesLeft(s);
  }

  lemma DoneExitStages<P(!new)>(s: State<P>, w: nat)
    requires w < |s.workers| && s.workers[w].pc.Idle? && IsDone(s)
    ensures MeasureOf(Move(s, w, Exited)).stages < MeasureOf(s).stages
  {
    StageUpdate(s, Move(s, w, Exited), w);
    assert FreeSlots(s) == {} == FreeSlots(Move(s, w, Exited));
  }

  lemma ExitDecreases<P(!new)>(c: Config, s: State<P>, w: nat)
    requires Shaped(c, s) && Enabled(c, s, Check(w)) && !IsPoll(s, Check(w))
    ensures Less(MeasureOf(Next(c, s, Check(w))), MeasureOf(s))
  {
    ExitMeasure(s, w);
    if !Struck(s, s.workers[w].peer) {
      DoneExitStages(s, w);
    }
  }

  lemma PickDecreases<P(!new)>(c: Config, s: State<P>, w: nat, choice: Option<nat>)
    requires Shaped(c, s) && WellFormed(s.view) && Enabled(c, s, Pick(w, choice))
    ensures var m, m' := MeasureOf(s), MeasureOf(Next(c, s, Pick(w, choice)));
            Less(m', m) || (choice.None? && m' == m)
  {
    var s' := Next(c, s, Pick(w, choice));
    PickWellFormed(s.view, c.window, s.workers[w].peer, choice);
    PickEffect(s.view, c.window, s.workers[w].peer, choice);
    MoveMeasure(s, s', w);
  }

  /** A request goes on to its next stage. */
  lemma StageDecreases<P(!new)>(s: State<P>, s': State<P>, w: nat)
    requires w < |s.workers| == |s'.workers| && SameFacts(s, s')
    requires s'.workers == s.workers[w := s.workers[w].(pc := s'.workers[w].pc)]
    requires s.workers[w].pc.HasPiece() && s'.workers[w].pc.HasPiece()
             && s'.workers[w].pc.piece == s.workers[w].pc.piece
    requires StageRank(s'.workers[w].pc) < StageRank(s.workers[w].pc)
    ensures Less(MeasureOf(s'), MeasureOf(s))
  {
    MoveMeasure(s, s', w);
  }

  /** A blocking job whose connection is lost ends. */
  lemma OrphanDecreases<P(!new)>(s: State<P>, s': State<P>, w: nat)
    requires w < |s.workers| && !s.workers[w].attached && s.workers[w].pc.HasPiece() && SameFacts(s, s')
    requires s'.workers == Move(s, w, Exited).workers
    ensures Less(MeasureOf(s'), MeasureOf(s))
  {
    MoveMeasure(s, s', w);
  }

  /** A peer turns out to lack a piece: one bit fewer, or one stale request fewer. */
  lemma LacksDecreases<P(!new)>(c: Config, s: State<P>, w: nat, strikes: map<P, nat>)
    requires ViewInv(c, s) && w < |s.workers| && s.workers[w].attached && s.workers[w].pc.HasPiece()
    requires s.workers[w].pc.piece < |s.view.pieces|
    ensures Less(MeasureOf(GiveBack(s, w, true, strikes)), MeasureOf(s))
  {
    var s', p, i := GiveBack(s, w, true, strikes), s.workers[w].peer, s.workers[w].pc.piece;
    FailedEffect(s.view, i, p, true);
    LateUpdate(s, s', w);
    assert Unfinished(s') == Unfinished(s);
    assert Registered(s.view.peers, s.workers[w]);
    if s.view.peers[p][i] {
      assert (p, i) in Bits(s) && (p, i) !in Bits(s');
      assert Bits(s') <= Bits(s);
      ProperSubsetSize(Bits(s'), Bits(s));
    } else {
      assert s.view.peers[p][i := false] == s.view.peers[p];
      assert s'.view.peers == s.view.peers;
      StaleUpdate(s, s', w);
      assert Bits(s') == Bits(s);
    }
  }

  /** A failed request leaves everything before the strikes as it was. */
  lemma StrikeMeasure<P(!new)>(c: Config, s: State<P>, w: nat, strikes: map<P, nat>)
    requires ViewInv(c, s) && w < |s.workers| && s.workers[w].attached && s.workers[w].pc.HasPiece()
    requires s.workers[w].pc.piece < |s.view.pieces|
    ensures var m, m' := MeasureOf(s), MeasureOf(GiveBack(s, w, false, strikes));
            && m'.connected == m.connected && m'.unfinished == m.unfinished && m'.bits == m.bits
            && m'.late <= m.late && m'.stale <= m.stale
  {
    var s', p := GiveBack(s, w, false, strikes), s.workers[w].peer;
    FailedEffect(s.view, s.workers[w].pc.piece, p, false);
    LateUpdate(s, s', w);
    StaleUpdate(s, s', w);
    assert Unfinished(s') == Unfinished(s) && Bits(s') == Bits(s);
  }

  lemma StruckStrike<P(!new)>(c: Config, s: State<P>, w: nat, strikes: map<P, nat>)
    requires ViewInv(c, s) && w < |s.workers| && s.workers[w].attached && s.workers[w].pc.HasPiece()
    requires s.workers[w].pc.piece < |s.view.pieces|
    requires var p := s.workers[w].peer;
             p in s.strikes && s.strikes[p] >= MAX_STRIKES && p in strikes && strikes[p] >= MAX_STRIKES
             && strikes == s.strikes[p := strikes[p]]
    ensures var m, m' := MeasureOf(s), MeasureOf(GiveBack(s, w, false, strikes));
            m'.strikesLeft == m.strikesLeft && m'.struck < m.struck
  {
    var s' := GiveBack(s, w, false, strikes);
    assert StrikesLeft(s') == StrikesLeft(s);
    StruckUpdate(s, s', w);
  }

  /** A request fails: one strike left fewer, or one chance fewer for a struck-out peer. */
  lemma StrikeDecreases<P(!new)>(c: Config, s: State<P>, w: nat, strikes: map<P, nat>)
    requires ViewInv(c, s) && w < |s.workers| && s.workers[w].attached && s.workers[w].pc.HasPiece()
    requires s.workers[w].pc.piece < |s.view.pieces|
    requires var p := s.workers[w].peer;
             p in s.strikes && (strikes == s.strikes[p := s.strikes[p] + 1] || strikes == s.strikes[p := MAX_STRIKES])
    ensures Less(MeasureOf(GiveBack(s, w, false, strikes)), MeasureOf(s))
  {
    var s', p := GiveBack(s, w, false, strikes), s.workers[w].peer;
    StrikeMeasure(c, s, w, strikes);
    if s.strikes[p] < MAX_STRIKES {
      assert (p, s.strikes[p]) in StrikesLeft(s) && (p, s.strikes[p]) !in StrikesLeft(s');
      assert StrikesLeft(s') <= StrikesLeft(s);
      ProperSubsetSize(StrikesLeft(s'), StrikesLeft(s));
    } else {
      StruckStrike(c, s, w, strikes);
    }
  }

  lemma ReportDecreases<P(!new)>(c: Config, s: State<P>, w: nat)
    requires ViewInv(c, s) && Enabled(c, s, Report(w)) && s.workers[w].attached
    ensures Less(MeasureOf(Next(c, s, Report(w))), MeasureOf(s))
  {
    var s', i := Next(c, s, Report(w)), s.workers[w].pc.piece;
    assert s.workers[w].pc.InRange(Total(c.m.sizes));
    if s.view.pieces[i].Done? {
      assert s'.view == s.view;
      LateUpdate(s, s', w);
    } else {
      assert i in Unfinished(s) && i !in Unfinished(s');
      assert Unfinished(s') <= Unfinished(s);
      ProperSubsetSize(Unfinished(s'), Unfinished(s));
    }
  }

  /** Every quiet action makes the measure smaller, except idle polling, which
      does not make it larger. */
  lemma QuietDecreases<P(!new)>(c: Config, s: State<P>, a: Action<P>)
    requires ViewInv(c, s) && Enabled(c, s, a) && Quiet(a)
    ensures var m, m' := MeasureOf(s), MeasureOf(Next(c, s, a));
            Less(m', m) || (IsPoll(s, a) && m' == m)
  {
    match a
    case Disconnect(p) => DisconnectDecreases(c, s, p);
    case Spawn(p) => SpawnDecreases(c, s, p);
    case Check(w) =>
      if IsPoll(s, a) {
        MoveMeasure(s, Next(c, s, a), w);
      } else {
        ExitDecreases(c, s, w);
      }
    case Pick(w, choice) => PickDecreases(c, s, w, choice);
    case Answer(w, reply) => AnswerDecreases(c, s, w, reply);
    case StoreCheck(w) => StageDecreases(s, Next(c, s, a), w);
    case StoreBegin(w, arrived) => BeginDecreases(c, s, w, arrived);
    case StoreWrite(w) => StageDecreases(s, Next(c, s, a), w);
    case StoreProof(w) => StageDecreases(s, Next(c, s, a), w);
    case StoreMark(w) => StageDecreases(s, Next(c, s, a), w);
    case StoreError(w) => BadPieceDecreases(c, s, w);
    case Report(w) =>
      if s.workers[w].attached {
        ReportDecreases(c, s, w);
      } else {
        OrphanDecreases(s, Next(c, s, a), w);
      }
  }

  lemma AnswerDecreases<P(!new)>(c: Config, s: State<P>, w: nat, reply: Reply)
    requires ViewInv(c, s) && Enabled(c, s, Answer(w, reply)) && reply != Busy
    ensures Less(MeasureOf(Next(c, s, Answer(w, reply))), MeasureOf(s))
  {
    assert s.workers[w].pc.InRange(Total(c.m.sizes)) && Registered(s.view.peers, s.workers[w]);
    match reply {
      case Piece(enc) => StageDecreases(s, Next(c, s, Answer(w, reply)), w);
      case DontHave => LacksDecreases(c, s, w, s.strikes);
      case NotFound => StrikeDecreases(c, s, w, SetStrikes(s, s.workers[w].peer, MAX_STRIKES));
      case Broken => StrikeDecreases(c, s, w, AddStrike(s, s.workers[w].peer));
    }
  }

  lemma BadPieceDecreases<P(!new)>(c: Config, s: State<P>, w: nat)
    requires ViewInv(c, s) && w < |s.workers| && s.workers[w].pc.InTask()
    requires s.workers[w].pc.piece < |s.view.pieces|
    ensures Less(MeasureOf(GiveBack(s, w, true, AddStrike(s, s.workers[w].peer))), MeasureOf(s))
  {
    if s.workers[w].attached {
      LacksDecreases(c, s, w, AddStrike(s, s.workers[w].peer));
    } else {
      OrphanDecreases(s, GiveBack(s, w, true, AddStrike(s, s.workers[w].peer)), w);
    }
  }

  lemma BeginDecreases<P(!new)>(c: Config, s: State<P>, w: nat, arrived: seq<bool>)
    requires ViewInv(c, s) && Enabled(c, s, StoreBegin(w, arrived))
    ensures Less(MeasureOf(Next(c, s, StoreBegin(w, arrived))), MeasureOf(s))
  {
    var pc := s.workers[w].pc;
    assert pc.InRange(Total(c.m.sizes));
    if DecodeBlock(c.m, FileOf(c.m.sizes, pc.piece), BlockIn(c.m.sizes, pc.piece), pc.enc).None? {
      BadPieceDecreases(c, s, w);
    } else {
      StageDecreases(s, Next(c, s, StoreBegin(w, arrived)), w);
    }
  }

  // ---- Infinite runs ----

  ghost predicate QuietStep<P(!new)>(c: Config, s: State<P>, s': State<P>) {
    Shaped(c, s) && exists a :: Enabled(c, s, a) && Quiet(a) && s' == Next(c, s, a)
  }

  ghost predicate PollStep<P(!new)>(c: Config, s: State<P>, s': State<P>) {
    Shaped(c, s) && exists a :: Enabled(c, s, a) && IsPoll(s, a) && s' == Next(c, s, a)
  }

  ghost predicate QuietAt<P(!new)>(c: Config, run: nat -> State<P>, k: nat) {
    QuietStep(c, run(k), run(k + 1))
  }

  ghost predicate PollsAt<P(!new)>(c: Config, run: nat -> State<P>, k: nat) {
    PollStep(c, run(k), run(k + 1))
  }

  ghost predicate QuietRun<P(!new)>(c: Config, run: nat -> State<P>) {
    forall k: nat :: QuietAt(c, run, k)
  }

  ghost predicate OnlyPollsFrom<P(!new)>(c: Config, run: nat -> State<P>, n: nat) {
    forall k: nat :: n <= k ==> PollsAt(c, run, k)
  }

  lemma QuietStepKeepsInv<P(!new)>(
      c: Config, contents: seq<seq<byte>>, restored: seq<bool>, run: nat -> State<P>, k: nat)
    requires QuietRun(c, run) && HasInv(c, contents, restored, run)(k)
    ensures HasInv(c, contents, restored, run)(k + 1)
  {
    assert QuietAt(c, run, k);
    var a :| Enabled(c, run(k), a) && Quiet(a) && run(k + 1) == Next(c, run(k), a);
    StepKeepsInv(c, contents, restored, run(k), a);
  }

  ghost function HasInv<P(!new)>(
      c: Config, contents: seq<seq<byte>>, restored: seq<bool>, run: nat -> State<P>): nat -> bool
  {
    (k: nat) => Inv(c, contents, restored, run(k))
  }

  ghost predicate StepsOn(p: nat -> bool, k: nat) {
    p(k) ==> p(k + 1)
  }

  lemma {:induction false} Induct(p: nat -> bool, k: nat)
    requires p(0) && forall j :: StepsOn(p, j)
    ensures p(k)
  {
    if k > 0 {
      Induct(p, k - 1);
      assert StepsOn(p, k - 1);
    }
  }

  lemma QuietRunHasInv<P(!new)>(
      c: Config, contents: seq<seq<byte>>, restored: seq<bool>, run: nat -> State<P>, k: nat)
    requires QuietRun(c, run) && Inv(c, contents, restored, run(0))
    ensures Inv(c, contents, restored, run(k))
  {
    var p := HasInv(c, contents, restored, run);
    forall j ensures StepsOn(p, j) {
      if p(j) {
        QuietStepKeepsInv(c, contents, restored, run, j);
      }
    }
    Induct(p, k);
  }

  lemma QuietStepMeasure<P(!new)>(c: Config, s: State<P>, s': State<P>)
    requires ViewInv(c, s) && QuietStep(c, s, s')
    ensures Less(MeasureOf(s'), MeasureOf(s)) || (PollStep(c, s, s') && MeasureOf(s') == MeasureOf(s))
  {
    var a :| Enabled(c, s, a) && Quiet(a) && s' == Next(c, s, a);
    QuietDecreases(c, s, a);
  }

  /** `f` falls at `k`, or stays the same where there is no work. */
  ghost predicate FallsAt(f: nat -> Measure, work: nat -> bool, k: nat) {
    Less(f(k + 1), f(k)) || (!work(k) && f(k + 1) == f(k))
  }

  ghost predicate Falling(f: nat -> Measure, work: nat -> bool) {
    forall k: nat :: FallsAt(f, work, k)
  }

  lemma {:induction false} FallsBetween(f: nat -> Measure, work: nat -> bool, n: nat, k: nat)
    requires Falling(f, work) && n <= k
    ensures f(k) == f(n) || Less(f(k), f(n))
    decreases k - n
  {
    if n < k {
      FallsBetween(f, work, n, k - 1);
      assert FallsAt(f, work, k - 1);
      LessTransitive(f(k), f(k - 1), f(n));
    }
  }

  lemma LessTransitive(a: Measure, b: Measure, c: Measure)
    ensures Less(a, b) && Less(b, c) ==> Less(a, c)
  {
  }

  /** The comparison is well-founded: work stops. */
  lemma {:induction false} WorkStops(f: nat -> Measure, work: nat -> bool, n: nat) returns (m: nat)
    requires Falling(f, work)
    ensures forall k: nat :: m <= k ==> !work(k)
    decreases f(n).connected, f(n).unfinished, f(n).late, f(n).bits, f(n).stale, f(n).strikesLeft, f(n).struck,
        f(n).stages
  {
    if k: nat :| n <= k && work(k) {
      FallsBetween(f, work, n, k);
      assert FallsAt(f, work, k);
      LessTransitive(f(k + 1), f(k), f(n));
      m := WorkStops(f, work, k + 1);
    } else {
      m := n;
    }
  }

  lemma RunStepFalls<P(!new)>(c: Config, contents: seq<seq<byte>>, restored: seq<bool>, run: nat -> State<P>, k: nat)
    requires QuietRun(c, run) && Inv(c, contents, restored, run(0))
    ensures
      || Less(MeasureOf(run(k + 1)), MeasureOf(run(k)))
      || (PollsAt(c, run, k) && MeasureOf(run(k + 1)) == MeasureOf(run(k)))
  {
    QuietRunHasInv(c, contents, restored, run, k);
    assert QuietAt(c, run, k);
    QuietStepMeasure(c, run(k), run(k + 1));
  }

  /** Every infinite quiet run from a reachable state ends in idle polling: only
      finitely many requests, replies, stores, exits and disconnects happen. */
  lemma WorkIsBounded<P(!new)>(c: Config, contents: seq<seq<byte>>, restored: seq<bool>, run: nat -> State<P>)
    requires QuietRun(c, run) && Inv(c, contents, restored, run(0))
    ensures exists m: nat :: OnlyPollsFrom(c, run, m)
  {
    var f: nat -> Measure := (k: nat) => MeasureOf(run(k));
    var work: nat -> bool := (k: nat) => !PollsAt(c, run, k);
    forall k: nat ensures FallsAt(f, work, k) {
      RunStepFalls(c, contents, restored, run, k);
    }
    var m := WorkStops(f, work, 0);
    forall k: nat | m <= k ensures PollsAt(c, run, k) {
      assert !work(k);
    }
    assert OnlyPollsFrom(c, run, m);
  }
}
