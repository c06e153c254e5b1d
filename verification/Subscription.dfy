/** How a peer keeps up with the pieces we have: a snapshot, then single updates
    from a bounded broadcast that overwrites what a slow reader has not taken
    (serve_subscription in crates/chorrent/src/handler.rs, mark_have in
    crates/chorrent/src/local.rs, and the reader in crates/chorrent/src/download.rs). */
module Subscription {
  import opened Protocol

  /** What the broadcast keeps for a reader. */
  const CAPACITY: nat := 4096

  datatype Message = Bitfield(bits: seq<bv8>) | Have(piece: nat)

  /** Fresh: not subscribed. Behind: the next thing to send is a snapshot. */
  datatype Stage = Fresh | Behind | Following

  /** `sending` holds the pieces set by threads that have not broadcast them yet,
      `sent` everything ever broadcast, `queue` the messages under way to the peer. */
  datatype State = State(
    have: seq<bool>, sending: set<nat>, sent: seq<nat>,
    stage: Stage, cursor: nat, queue: seq<Message>, replica: seq<bool>)

  datatype Action =
    | Mark(piece: nat)
    | Broadcast(piece: nat)
    | Subscribe
    | Snapshot
    | Receive
    | Deliver

  predicate Enabled(s: State, a: Action) {
    match a
    case Mark(i) => i < |s.have|
    case Broadcast(i) => i in s.sending
    case Subscribe => s.stage.Fresh?
    case Snapshot => s.stage.Behind?
    case Receive => s.stage.Following? && s.cursor < |s.sent|
    case Deliver => s.queue != []
  }

  /** What the peer makes of a message. */
  function Apply(replica: seq<bool>, msg: Message): seq<bool> {
    match msg
    case Bitfield(bits) => UnpackBits(bits, |replica|)
    case Have(i) => if i < |replica| then replica[i := true] else replica
  }

  ghost function Next(s: State, a: Action): State
    requires Enabled(s, a)
  {
    match a
    case Mark(i) => if s.have[i] then s else s.(have := s.have[i := true], sending := s.sending + {i})
    case Broadcast(i) => s.(sending := s.sending - {i}, sent := s.sent + [i % U32])
    case Subscribe => s.(stage := Behind, cursor := |s.sent|)
    case Snapshot => s.(stage := Following, queue := s.queue + [Bitfield(Packed(s.have))])
    case Receive =>
      if |s.sent| - s.cursor > CAPACITY then s.(stage := Behind, cursor := |s.sent| - CAPACITY)
      else s.(cursor := s.cursor + 1, queue := s.queue + [Have(s.sent[s.cursor])])
    case Deliver => s.(replica := Apply(s.replica, s.queue[0]), queue := s.queue[1..])
  }

  function Start(have: seq<bool>): State {
    State(have, {}, [], Fresh, 0, [], seq(|have|, _ => false))
  }

  // ---- What the peer will believe ----

  function Replay(replica: seq<bool>, queue: seq<Message>): seq<bool> {
    if queue == [] then replica else Apply(Replay(replica, queue[..|queue| - 1]), queue[|queue| - 1])
  }

  ghost predicate Within(a: seq<bool>, b: seq<bool>) {
    |a| == |b| && forall i :: 0 <= i < |a| && a[i] ==> b[i]
  }

  /** No message takes anything back. */
  ghost predicate Growing(replica: seq<bool>, queue: seq<Message>) {
    queue == [] ||
    (Growing(replica, queue[..|queue| - 1]) && Within(Replay(replica, queue[..|queue| - 1]), Replay(replica, queue)))
  }

  lemma {:induction false} ReplayFirst(replica: seq<bool>, queue: seq<Message>)
    requires queue != []
    ensures Replay(Apply(replica, queue[0]), queue[1..]) == Replay(replica, queue)
    ensures Growing(replica, queue) ==> Growing(Apply(replica, queue[0]), queue[1..])
    ensures Growing(replica, queue) ==> Within(replica, Apply(replica, queue[0]))
  {
    var n := |queue| - 1;
    if n == 0 {
      assert queue[..0] == [];
    } else {
      ReplayFirst(replica, queue[..n]);
      assert queue[1..][..n - 1] == queue[..n][1..];
    }
  }

  lemma {:induction false} GrowingIsWithin(replica: seq<bool>, queue: seq<Message>)
    requires Growing(replica, queue)
    ensures Within(replica, Replay(replica, queue))
  {
    if queue != [] {
      GrowingIsWithin(replica, queue[..|queue| - 1]);
    }
  }

  lemma ReplayMore(replica: seq<bool>, queue: seq<Message>, msg: Message)
    ensures Replay(replica, queue + [msg]) == Apply(Replay(replica, queue), msg)
    ensures Growing(replica, queue + [msg])
            <==> Growing(replica, queue) && Within(Replay(replica, queue), Apply(Replay(replica, queue), msg))
  {
    assert (queue + [msg])[..|queue|] == queue;
  }

  // ---- The invariant ----

  /** Broadcasts name pieces we have, each at most once. */
  ghost predicate SentOnce(s: State) {
    && (forall i :: i in s.sending ==> i < |s.have| && s.have[i] && i !in s.sent)
    && (forall k :: 0 <= k < |s.sent| ==> s.sent[k] < |s.have| && s.have[s.sent[k]])
    && forall j, k :: 0 <= j < k < |s.sent| ==> s.sent[j] != s.sent[k]
  }

  /** A piece the peer will not hear about from the messages under way is about to
      be broadcast, or to be received. */
  ghost predicate Accounted(s: State) {
    forall i: nat :: i < |s.have| && s.have[i] ==>
      i in s.sending || ToReceive(s, i) || Has(Replay(s.replica, s.queue), i)
  }

  ghost predicate ToReceive(s: State, i: nat) {
    exists k :: s.cursor <= k < |s.sent| && s.sent[k] == i
  }

  ghost predicate Inv(s: State) {
    && |s.have| <= U32 && s.cursor <= |s.sent|
    && SentOnce(s)
    && Growing(s.replica, s.queue)
    && Within(Replay(s.replica, s.queue), s.have)
    && (s.stage.Following? ==> Accounted(s))
  }

  lemma StartHasInv(have: seq<bool>)
    requires |have| <= U32
    ensures Inv(Start(have))
  {
  }

  lemma MarkKeepsInv(s: State, i: nat)
    requires Inv(s) && i < |s.have|
    ensures Inv(Next(s, Mark(i)))
  {
  }

  lemma BroadcastKeepsInv(s: State, i: nat)
    requires Inv(s) && i in s.sending
    ensures Inv(Next(s, Broadcast(i)))
  {
    var s' := Next(s, Broadcast(i));
    assert i % U32 == i;
    assert s'.sent[|s.sent|] == i;
    forall j: nat | ToReceive(s, j) ensures ToReceive(s', j) {
      var k :| s.cursor <= k < |s.sent| && s.sent[k] == j;
      assert s'.sent[k] == j;
    }
  }

  lemma SnapshotKeepsInv(s: State)
    requires Inv(s) && s.stage.Behind?
    ensures Inv(Next(s, Snapshot))
  {
    var msg := Bitfield(Packed(s.have));
    BitsRoundTrip(s.have);
    ReplayMore(s.replica, s.queue, msg);
  }

  lemma ReceiveKeepsInv(s: State)
    requires Inv(s) && s.stage.Following? && s.cursor < |s.sent|
    ensures Inv(Next(s, Receive))
  {
    var s', i := Next(s, Receive), s.sent[s.cursor];
    if |s.sent| - s.cursor <= CAPACITY {
      ReplayMore(s.replica, s.queue, Have(i));
      assert Replay(s'.replica, s'.queue) == Replay(s.replica, s.queue)[i := true];
      forall j: nat | ToReceive(s, j) && j != i ensures ToReceive(s', j) {
        var k :| s.cursor <= k < |s.sent| && s.sent[k] == j;
        assert s'.cursor <= k < |s'.sent| && s'.sent[k] == j;
      }
    }
  }

  /** Once the snapshot arrives the peer believes just what we have when it is sent. */
  lemma SnapshotEffect(s: State)
    requires Inv(s) && s.stage.Behind?
    ensures var s' := Next(s, Snapshot);
            s'.stage.Following? && s'.have == s.have && Replay(s'.replica, s'.queue) == s.have
  {
    BitsRoundTrip(s.have);
    ReplayMore(s.replica, s.queue, Bitfield(Packed(s.have)));
  }

  /** An update adds its piece to what the peer will believe, and nothing else; a reader
      more than 4096 behind is sent nothing, skips to the updates that are kept and owes
      a snapshot. */
  lemma ReceiveEffect(s: State, j: nat)
    requires Inv(s) && s.stage.Following? && s.cursor < |s.sent| && j < |s.have|
    ensures
      var s', late := Next(s, Receive), |s.sent| > s.cursor + 4096;
      && (s'.stage.Behind? <==> late) && (s'.stage.Following? <==> !late)
      && |s'.sent| - s'.cursor == (if late then 4096 else |s.sent| - s.cursor - 1)
      && |Replay(s'.replica, s'.queue)| == |s.have|
      && (Replay(s'.replica, s'.queue)[j] <==> Replay(s.replica, s.queue)[j] || (!late && j == s.sent[s.cursor]))
  {
    ReplayMore(s.replica, s.queue, Have(s.sent[s.cursor]));
  }

  /** Every step keeps the invariant, and the peer never forgets a piece. */
  lemma StepKeepsInv(s: State, a: Action)
    requires Inv(s) && Enabled(s, a)
    ensures Inv(Next(s, a))
    ensures Within(s.replica, Next(s, a).replica) && Within(s.have, Next(s, a).have)
  {
    GrowingIsWithin(s.replica, s.queue);
    match a
    case Mark(i) => MarkKeepsInv(s, i);
    case Broadcast(i) => BroadcastKeepsInv(s, i);
    case Subscribe =>
    case Snapshot => SnapshotKeepsInv(s);
    case Receive => ReceiveKeepsInv(s);
    case Deliver => ReplayFirst(s.replica, s.queue);
  }

  // ---- Whole runs ----

  ghost function Run(s: State, actions: seq<Action>): (r: State)
    requires Runs(s, actions)
    decreases |actions|
  {
    if actions == [] then s else Run(Next(s, actions[0]), actions[1..])
  }

  ghost predicate Runs(s: State, actions: seq<Action>)
    decreases |actions|
  {
    actions == [] || (Enabled(s, actions[0]) && Runs(Next(s, actions[0]), actions[1..]))
  }

  lemma {:induction false} RunKeepsInv(s: State, actions: seq<Action>)
    requires Inv(s) && Runs(s, actions)
    ensures Inv(Run(s, actions)) && Within(s.replica, Run(s, actions).replica)
    decreases |actions|
  {
    if actions != [] {
      StepKeepsInv(s, actions[0]);
      RunKeepsInv(Next(s, actions[0]), actions[1..]);
    }
  }

  /** Nothing is left to do. */
  predicate Drained(s: State) {
    s.sending == {} && s.stage.Following? && s.cursor == |s.sent| && s.queue == []
  }

  /** However subscribing, marking, broadcasting, lagging and delivering interleave:
      the peer never believes in a piece we lack, and no piece is broadcast twice;
      and once everything is drained the peer believes exactly what we have. */
  lemma ReplicaIsFaithful(have: seq<bool>, actions: seq<Action>)
    requires |have| <= U32 && Runs(Start(have), actions)
    ensures var s := Run(Start(have), actions);
            && Within(s.replica, s.have)
            && (forall j, k :: 0 <= j < k < |s.sent| ==> s.sent[j] != s.sent[k])
            && (Drained(s) ==> s.replica == s.have)
  {
    StartHasInv(have);
    RunKeepsInv(Start(have), actions);
    var s := Run(Start(have), actions);
    GrowingIsWithin(s.replica, s.queue);
  }

  // ---- Draining ----

  function StageRank(s: State): nat {
    if s.stage.Fresh? then 2 else if s.stage.Behind? then 1 else 0
  }

  /** Unless everything is drained there is a step to take. */
  lemma NotDrainedCanStep(s: State) returns (a: Action)
    requires Inv(s) && !Drained(s)
    ensures Enabled(s, a) && !a.Mark?
  {
    if s.sending != {} {
      var i :| i in s.sending;
      a := Broadcast(i);
    } else if s.queue != [] {
      a := Deliver;
    } else {
      a := match s.stage case Fresh => Subscribe case Behind => Snapshot case Following => Receive;
    }
  }

  /** The measure falls with every step but marking. */
  lemma StepFalls(s: State, a: Action)
    requires Inv(s) && Enabled(s, a) && !a.Mark?
    ensures Next(s, a).have == s.have
    ensures var s' := Next(s, a);
            || |s'.sending| < |s.sending|
            || (|s'.sending| == |s.sending| &&
                (|| |s'.sent| - s'.cursor < |s.sent| - s.cursor
                 || (|s'.sent| - s'.cursor == |s.sent| - s.cursor &&
                     (StageRank(s') < StageRank(s) || (StageRank(s') == StageRank(s) && |s'.queue| < |s.queue|)))))
  {
  }

  /** Some step other than marking is taken, unless everything is drained. */
  ghost predicate DrainsAt(run: nat -> State, k: nat) {
    Drained(run(k)) || exists a :: Enabled(run(k), a) && !a.Mark? && run(k + 1) == Next(run(k), a)
  }

  /** While no more pieces are marked, whichever of those steps are taken, the
      peer comes to believe exactly what we have, in spite of the lag. */
  lemma {:induction false} DrainsToFaithful(run: nat -> State, n: nat) returns (m: nat)
    requires Inv(run(n)) && forall k :: n <= k ==> DrainsAt(run, k)
    ensures n <= m && Drained(run(m)) && run(m).replica == run(m).have == run(n).have
    decreases |run(n).sending|, |run(n).sent| - run(n).cursor, StageRank(run(n)), |run(n).queue|
  {
    if Drained(run(n)) {
      GrowingIsWithin(run(n).replica, run(n).queue);
      return n;
    }
    assert DrainsAt(run, n);
    var a :| Enabled(run(n), a) && !a.Mark? && run(n + 1) == Next(run(n), a);
    StepFalls(run(n), a);
    StepKeepsInv(run(n), a);
    m := DrainsToFaithful(run, n + 1);
  }
}
