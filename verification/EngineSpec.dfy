/** The download engine (crates/chorrent/src/download.rs, `Engine`) as a state
    machine.  Each action is one section of the program that runs under a lock,
    one reply from a peer, or one stage of storing a piece; any enabled action may
    come next.  Peers are arbitrary: they may send anything, lie about what they
    hold, and come and go. */
module EngineSpec {
  import opened Chunker
  import opened Layouts
  import opened Scheduling
  import opened Shares
  import opened TornWrites
  import opened Wrappers

  const MAX_STRIKES: nat := 3
  const REQUESTS_PER_PEER: nat := 8
  const MAX_REQUESTS_PER_PEER: nat := 48
  const MAX_PEERS: nat := 32

  /** Where a worker is in its loop.  The stages from `Received` to `Stored` run
      in a blocking task, which outlives its worker. */
  datatype Pc =
    | Idle                                    // top of the loop
    | Ready                                   // passed the done/strikes check, about to pick
    | Waiting(piece: nat)                     // request sent
    | Received(piece: nat, enc: Encoding)     // before the `has` check of store_piece
    | Storing(piece: nat, enc: Encoding)      // before decode_range
    | Writing(piece: nat, d: Decoded)         // in decode_range, the block accepted and being written
    | Proving(piece: nat, nodes: ProofNodes)  // written, before apply_proof
    | Marking(piece: nat)                     // proof saved, before mark_have
    | Stored(piece: nat)                      // store_piece returned Ok
    | Exited
  {
    predicate HasPiece() {
      !Idle? && !Ready? && !Exited?
    }

    predicate InRange(total: nat) {
      HasPiece() ==> piece < total
    }

    predicate InTask() {
      Received? || Storing? || Writing? || Proving? || Marking? || Stored?
    }
  }

  /** `attached`: its connection is still there. */
  datatype Worker<P> = Worker(peer: P, attached: bool, pc: Pc)

  datatype State<P> = State(
    view: View<P>,
    share: Share,
    connected: set<P>,
    strikes: map<P, nat>,
    workers: seq<Worker<P>>,
    /** Pieces whose last write broke off. */
    broken: set<nat>,
    /** Pieces reported with PieceVerified, in order. */
    verified: seq<nat>)

  datatype Config = Config(m: Manifest, window: nat)

  datatype Reply = Piece(enc: Encoding) | DontHave | Busy | NotFound | Broken

  datatype Action<P> =
    | Connect(p: P)
    | Register(p: P, bits: seq<bool>)
    | HaveMessage(p: P, i: nat)
    | BitfieldMessage(p: P, bits: seq<bool>)
    | Disconnect(p: P)
    | Spawn(p: P)
    | Check(w: nat)
    | Pick(w: nat, choice: Option<nat>)
    | Answer(w: nat, reply: Reply)
    | StoreCheck(w: nat)
    | StoreBegin(w: nat, arrived: seq<bool>)
    | StoreWrite(w: nat)
    | StoreProof(w: nat)
    | StoreMark(w: nat)
    | StoreError(w: nat)
    | TaskFailed(w: nat)
    | Report(w: nat)

  ghost predicate IsDone<P>(s: State<P>) {
    AllDone(s.view.pieces)
  }

  function StrikesOf<P(==,!new)>(s: State<P>, p: P): nat {
    if p in s.strikes then s.strikes[p] else 0
  }

  function AddStrike<P(==,!new)>(s: State<P>, p: P): map<P, nat> {
    if p in s.strikes then s.strikes[p := s.strikes[p] + 1] else s.strikes
  }

  function SetStrikes<P(==,!new)>(s: State<P>, p: P, n: nat): map<P, nat> {
    if p in s.strikes then s.strikes[p := n] else s.strikes
  }

  function ActiveWorkers<P(==,!new)>(workers: seq<Worker<P>>, p: P): nat {
    if workers == [] then 0
    else
      ActiveWorkers(workers[..|workers| - 1], p) +
      var w := workers[|workers| - 1];
      if w.attached && !w.pc.Exited? && w.peer == p then 1 else 0
  }

  ghost predicate At<P>(s: State<P>, w: nat) {
    w < |s.workers|
  }

  ghost predicate SameFile(c: Config, i: nat, j: nat) {
    i < Total(c.m.sizes) && j < Total(c.m.sizes) && FileOf(c.m.sizes, i) == FileOf(c.m.sizes, j)
  }

  /** Nobody holds the writer of the file that piece `i` is in. */
  ghost predicate WriterIsFree<P(!new)>(c: Config, s: State<P>, i: nat) {
    forall k :: 0 <= k < |s.workers| && s.workers[k].pc.Writing? ==> !SameFile(c, s.workers[k].pc.piece, i)
  }

  ghost function BeingWritten<P(!new)>(workers: seq<Worker<P>>): set<nat> {
    set k | 0 <= k < |workers| && workers[k].pc.Writing? :: workers[k].pc.piece
  }

  /** The pieces whose last write has not finished: it is under way or broke off. */
  ghost function Torn<P(!new)>(s: State<P>): set<nat> {
    s.broken + BeingWritten(s.workers)
  }

  ghost predicate Enabled<P(!new)>(c: Config, s: State<P>, a: Action<P>) {
    match a
    case Connect(p) => p !in s.connected && |s.connected| < MAX_PEERS
    case Register(p, bits) => p in s.connected && p !in s.view.peers && |bits| == Total(c.m.sizes)
    case HaveMessage(p, i) => p in s.view.peers
    case BitfieldMessage(p, bits) => p in s.view.peers && |bits| == Total(c.m.sizes)
    case Disconnect(p) => p in s.connected
    case Spawn(p) =>
      p in s.view.peers && !IsDone(s) && StrikesOf(s, p) < MAX_STRIKES
          && ActiveWorkers(s.workers, p) < MAX_REQUESTS_PER_PEER
    case Check(w) => At(s, w) && s.workers[w].attached && s.workers[w].pc.Idle?
    case Pick(w, choice) =>
      At(s, w) && s.workers[w].attached && s.workers[w].pc.Ready? && IsPick(s.view, c.window, s.workers[w].peer, choice)
    case Answer(w, reply) => At(s, w) && s.workers[w].attached && s.workers[w].pc.Waiting?
    case StoreCheck(w) => At(s, w) && s.workers[w].pc.Received?
    case StoreBegin(w, arrived) => At(s, w) && s.workers[w].pc.Storing? && WriterIsFree(c, s, s.workers[w].pc.piece)
    case StoreWrite(w) => At(s, w) && s.workers[w].pc.Writing?
    case StoreProof(w) => At(s, w) && s.workers[w].pc.Proving?
    case StoreMark(w) => At(s, w) && s.workers[w].pc.Marking?
    case StoreError(w) =>
      At(s, w) && (s.workers[w].pc.Storing? || s.workers[w].pc.Writing? || s.workers[w].pc.Proving?)
    case TaskFailed(w) => At(s, w) && s.workers[w].pc.InTask()
    case Report(w) => At(s, w) && s.workers[w].pc.Stored?
  }

  /** Piece numbers are in range everywhere. */
  ghost predicate Shaped<P>(c: Config, s: State<P>) {
    && ShareOk(c.m, s.share)
    && |s.view.pieces| == Total(c.m.sizes)
    && forall k :: 0 <= k < |s.workers| ==> s.workers[k].pc.InRange(Total(c.m.sizes))
  }

  function Move<P>(s: State<P>, w: nat, pc: Pc): State<P>
    requires w < |s.workers|
  {
    s.(workers := s.workers[w := s.workers[w].(pc := pc)])
  }

  /** A request ended without the piece: give it back (or, if the connection is
      gone, just end).  A write under way is broken off. */
  ghost function GiveBack<P(!new)>(s: State<P>, w: nat, lacksIt: bool, strikes: map<P, nat>): State<P>
    requires w < |s.workers| && s.workers[w].pc.HasPiece() && s.workers[w].pc.piece < |s.view.pieces|
  {
    var i := s.workers[w].pc.piece;
    var s' := if s.workers[w].pc.Writing? then s.(broken := s.broken + {i}) else s;
    if !s.workers[w].attached then Move(s', w, Exited)
    else Move(s'.(view := Failed(s.view, i, s.workers[w].peer, lacksIt), strikes := strikes), w, Idle)
  }

  function Leave<P(==,!new)>(worker: Worker<P>, p: P): Worker<P> {
    if !worker.attached || worker.peer != p then worker
    else if worker.pc.InTask() then worker.(attached := false)
    else worker.(pc := Exited)
  }

  ghost function Next<P(!new)>(c: Config, s: State<P>, a: Action<P>): State<P>
    requires Enabled(c, s, a) && Shaped(c, s)
  {
    match a
    case Connect(p) => s.(connected := s.connected + {p})
    case Register(p, bits) =>
      s.(view := AddPeer(s.view, p, bits), strikes := s.strikes[p := 0],
         workers := s.workers + seq(REQUESTS_PER_PEER, _ => Worker(p, true, Idle)))
    case HaveMessage(p, i) => s.(view := SetPeerHas(s.view, p, i))
    case BitfieldMessage(p, bits) => s.(view := AddPeer(s.view, p, bits))
    case Disconnect(p) =>
      s.(view := RemovePeer(s.view, p), connected := s.connected - {p}, strikes := s.strikes - {p},
         workers := seq(|s.workers|, k requires 0 <= k < |s.workers| => Leave(s.workers[k], p)))
    case Spawn(p) => s.(workers := s.workers + [Worker(p, true, Idle)])
    case Check(w) =>
      Move(s, w, if IsDone(s) || StrikesOf(s, s.workers[w].peer) >= MAX_STRIKES then Exited else Ready)
    case Pick(w, choice) =>
      Move(s.(view := AfterPick(s.view, s.workers[w].peer, choice)), w,
          if choice.Some? then Waiting(choice.value) else Idle)
    case Answer(w, reply) =>
      (match reply
       case Piece(enc) => Move(s, w, Received(s.workers[w].pc.piece, enc))
       case DontHave => GiveBack(s, w, true, s.strikes)
       case Busy => GiveBack(s, w, false, s.strikes)
       case NotFound => GiveBack(s, w, false, SetStrikes(s, s.workers[w].peer, MAX_STRIKES))
       case Broken => GiveBack(s, w, false, AddStrike(s, s.workers[w].peer)))
    case StoreCheck(w) =>
      var pc := s.workers[w].pc;
      Move(s, w, if s.share.have[pc.piece] then Stored(pc.piece) else Storing(pc.piece, pc.enc))
    case StoreBegin(w, arrived) =>
      var pc := s.workers[w].pc;
      var f, b := FileOf(c.m.sizes, pc.piece), BlockIn(c.m.sizes, pc.piece);
      var d := DecodeBlock(c.m, f, b, pc.enc);
      if d.None? then GiveBack(s, w, true, AddStrike(s, s.workers[w].peer))
      else Move(s.(share := BeginPiece(s.share, f, b, d.value.block, arrived)), w, Writing(pc.piece, d.value))
    case StoreWrite(w) =>
      var pc := s.workers[w].pc;
      var f, b := FileOf(c.m.sizes, pc.piece), BlockIn(c.m.sizes, pc.piece);
      Move(s.(share := WritePiece(s.share, f, b, pc.d.block), broken := s.broken - {pc.piece}),
           w, Proving(pc.piece, pc.d.nodes))
    case StoreProof(w) =>
      var pc := s.workers[w].pc;
      Move(s.(share := SaveProof(s.share, FileOf(c.m.sizes, pc.piece), pc.nodes)), w, Marking(pc.piece))
    case StoreMark(w) =>
      var pc := s.workers[w].pc;
      Move(s.(share := MarkHave(s.share, pc.piece)), w, Stored(pc.piece))
    case StoreError(w) => GiveBack(s, w, true, AddStrike(s, s.workers[w].peer))
    case TaskFailed(w) => GiveBack(s, w, false, s.strikes)
    case Report(w) =>
      var i := s.workers[w].pc.piece;
      if !s.workers[w].attached then Move(s, w, Exited)
      else
        Move(s.(view := Complete(s.view, i), strikes := SetStrikes(s, s.workers[w].peer, 0),
                verified := if s.view.pieces[i].Done? then s.verified else s.verified + [i]), w, Idle)
  }

  /** The state `run` starts the swarm in, from a share with some pieces restored. */
  function Start<P(!new)>(share: Share): State<P> {
    State(View(seq(|share.have|, i requires 0 <= i < |share.have| => if share.have[i] then Done else Missing), map[]),
          share, {}, map[], [], {}, [])
  }
}
