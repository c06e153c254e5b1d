/** What the piece scheduler means (crates/chorrent/src/scheduler.rs): the state
    of every piece and the bitmap of every connected peer, the operations on
    them, and a description of the piece `pick` must choose that mentions
    neither counters nor scan order. */
module Scheduling {
  import opened Sets
  import opened Wrappers

  const ENDGAME_DUPLICATES: nat := 3
  const RAREST_SAMPLE: nat := 64

  datatype Piece<K> = Missing | InFlight(askers: seq<K>) | Done

  datatype View<K> = View(pieces: seq<Piece<K>>, peers: map<K, seq<bool>>)

  // ---- The meaning of the counters ----

  ghost function MissingSet<K>(pieces: seq<Piece<K>>): set<nat> {
    set i: nat | i < |pieces| && pieces[i].Missing?
  }

  ghost function DoneSet<K>(pieces: seq<Piece<K>>): set<nat> {
    set i: nat | i < |pieces| && pieces[i].Done?
  }

  /** The peers whose bitmap has piece `i`. */
  ghost function Holders<K(!new)>(peers: map<K, seq<bool>>, i: nat): set<K> {
    set p | p in peers && i < |peers[p]| && peers[p][i]
  }

  ghost predicate IsFirstNotDone<K>(pieces: seq<Piece<K>>, k: nat) {
    && k <= |pieces|
    && (forall i :: 0 <= i < k ==> pieces[i].Done?)
    && (k < |pieces| ==> !pieces[k].Done?)
  }

  ghost predicate AllDone<K>(pieces: seq<Piece<K>>) {
    forall i :: 0 <= i < |pieces| ==> pieces[i].Done?
  }

  ghost predicate Distinct<K(!new)>(s: seq<K>) {
    forall i, j :: 0 <= i < j < |s| ==> s[i] != s[j]
  }

  /** What holds of one piece in every reachable state: a request list is
      non-empty, has no duplicates, is at most ENDGAME_DUPLICATES long and names
      only connected peers that hold the piece. */
  ghost predicate PieceOk<K(!new)>(piece: Piece<K>, i: nat, peers: map<K, seq<bool>>) {
    piece.InFlight? ==>
      && 0 < |piece.askers| <= ENDGAME_DUPLICATES
      && Distinct(piece.askers)
      && forall p :: p in piece.askers ==> p in Holders(peers, i)
  }

  ghost predicate WellFormed<K(!new)>(v: View<K>) {
    && (forall p :: p in v.peers ==> |v.peers[p]| == |v.pieces|)
    && (forall i :: 0 <= i < |v.pieces| ==> PieceOk(v.pieces[i], i, v.peers))
  }

  /** The scheduler believes `p` was asked for piece `i`. */
  predicate Asks<K(==,!new)>(v: View<K>, p: K, i: nat) {
    i < |v.pieces| && v.pieces[i].InFlight? && p in v.pieces[i].askers
  }

  predicate PieceMissing<K(!new)>(v: View<K>, i: nat) {
    i < |v.pieces| && v.pieces[i].Missing?
  }

  predicate PieceDone<K(!new)>(v: View<K>, i: nat) {
    i < |v.pieces| && v.pieces[i].Done?
  }

  // ---- Operations on views ----

  function Without<K(==,!new)>(s: seq<K>, k: K): (r: seq<K>)
    ensures forall x :: x in r <==> x in s && x != k
    ensures |r| <= |s|
    ensures Distinct(s) ==> Distinct(r)
  {
    if s == [] then []
    else
      var rest := Without(s[1..], k);
      assert Distinct(s) ==> Distinct(s[1..]) && s[0] !in s[1..];
      if s[0] == k then rest else [s[0]] + rest
  }

  ghost function Drop<K(!new)>(piece: Piece<K>, p: K): Piece<K> {
    match piece
    case InFlight(askers) => if Without(askers, p) == [] then Missing else InFlight(Without(askers, p))
    case _ => piece
  }

  ghost function DropRequest<K(!new)>(v: View<K>, i: nat, p: K): View<K>
    requires i < |v.pieces|
  {
    v.(pieces := v.pieces[i := Drop(v.pieces[i], p)])
  }

  ghost function RemovePeer<K(!new)>(v: View<K>, p: K): View<K> {
    if p !in v.peers then v
    else View(seq(|v.pieces|, i requires 0 <= i < |v.pieces| => Drop(v.pieces[i], p)), v.peers - {p})
  }

  ghost function AddPeer<K(!new)>(v: View<K>, p: K, bits: seq<bool>): View<K> {
    var r := RemovePeer(v, p);
    r.(peers := r.peers[p := bits])
  }

  ghost function SetPeerHas<K(!new)>(v: View<K>, p: K, i: nat): View<K> {
    if p in v.peers && i < |v.peers[p]| then v.(peers := v.peers[p := v.peers[p][i := true]]) else v
  }

  ghost function Complete<K(!new)>(v: View<K>, i: nat): View<K>
    requires i < |v.pieces|
  {
    v.(pieces := v.pieces[i := Done])
  }

  ghost function Failed<K(!new)>(v: View<K>, i: nat, p: K, peerLacksIt: bool): View<K>
    requires i < |v.pieces|
  {
    var d := DropRequest(v, i, p);
    if peerLacksIt && p in d.peers && i < |d.peers[p]| then d.(peers := d.peers[p := d.peers[p][i := false]]) else d
  }

  // ---- What `pick` must choose ----

  /** Peer `p` holds the missing piece `i`. */
  ghost predicate Wanted<K(!new)>(v: View<K>, p: K, i: nat) {
    i < |v.pieces| && v.pieces[i].Missing? && p in Holders(v.peers, i)
  }

  ghost function WantedBelow<K(!new)>(v: View<K>, p: K, x: nat): set<nat> {
    set m: nat | m < x && Wanted(v, p, m)
  }

  /** `i` is at most `window` places after the first piece that is not Done. */
  ghost predicate InWindow<K>(pieces: seq<Piece<K>>, window: nat, i: nat) {
    exists f: nat :: IsFirstNotDone(pieces, f) && f <= i < f + window
  }

  ghost predicate Urgent<K(!new)>(v: View<K>, window: nat, p: K, i: nat) {
    Wanted(v, p, i) && InWindow(v.pieces, window, i)
  }

  /** One of the first RAREST_SAMPLE pieces wanted from `p`. */
  ghost predicate Sampled<K(!new)>(v: View<K>, p: K, i: nat) {
    Wanted(v, p, i) && |WantedBelow(v, p, i)| < RAREST_SAMPLE
  }

  ghost predicate Rarest<K(!new)>(v: View<K>, p: K, i: nat) {
    && Sampled(v, p, i)
    && forall j: nat :: Sampled(v, p, j) ==>
         || |Holders(v.peers, i)| < |Holders(v.peers, j)|
         || (|Holders(v.peers, i)| == |Holders(v.peers, j)| && i <= j)
  }

  /** A piece others are fetching that `p` may fetch as well. */
  ghost predicate Helpable<K(!new)>(v: View<K>, p: K, i: nat) {
    && i < |v.pieces|
    && v.pieces[i].InFlight?
    && p in Holders(v.peers, i)
    && p !in v.pieces[i].askers
    && |v.pieces[i].askers| < ENDGAME_DUPLICATES
  }

  ghost predicate LeastHelped<K(!new)>(v: View<K>, p: K, i: nat) {
    && Helpable(v, p, i)
    && forall j: nat :: Helpable(v, p, j) ==>
         || |v.pieces[i].askers| < |v.pieces[j].askers|
         || (|v.pieces[i].askers| == |v.pieces[j].askers| && i <= j)
  }

  ghost predicate NoneMissing<K>(pieces: seq<Piece<K>>) {
    forall i :: 0 <= i < |pieces| ==> !pieces[i].Missing?
  }

  /** The piece `pick` must return: the lowest wanted piece in the urgent window;
      else the rarest of the sampled ones (lowest index on a tie); else, once
      nothing is missing, the in-flight piece with the fewest requests (lowest
      index on a tie); else nothing. */
  ghost predicate IsPick<K(!new)>(v: View<K>, window: nat, p: K, r: Option<nat>) {
    if exists i: nat :: Urgent(v, window, p, i) then
      r.Some? && Urgent(v, window, p, r.value) && forall j: nat :: Urgent(v, window, p, j) ==> r.value <= j
    else if exists i: nat :: Wanted(v, p, i) then
      r.Some? && Rarest(v, p, r.value)
    else if NoneMissing(v.pieces) && exists i: nat :: Helpable(v, p, i) then
      r.Some? && LeastHelped(v, p, r.value)
    else
      r.None?
  }

  ghost function AfterPick<K(!new)>(v: View<K>, p: K, r: Option<nat>): View<K> {
    match r
    case None => v
    case Some(i) =>
      if i >= |v.pieces| then v
      else match v.pieces[i]
           case Missing => v.(pieces := v.pieces[i := InFlight([p])])
           case InFlight(askers) => v.(pieces := v.pieces[i := InFlight(askers + [p])])
           case Done => v
  }

  // ---- Counting lemmas ----

  lemma HoldersDrop<K(!new)>(peers: map<K, seq<bool>>, p: K, i: nat)
    requires p in peers && i < |peers[p]|
    ensures Holders(peers - {p}, i) == Holders(peers, i) - {p}
    ensures |Holders(peers, i)| == |Holders(peers - {p}, i)| + if peers[p][i] then 1 else 0
  {
    assert Holders(peers - {p}, i) == Holders(peers, i) - {p};
    assert p in Holders(peers, i) <==> peers[p][i];
  }

  lemma HoldersSet<K(!new)>(peers: map<K, seq<bool>>, p: K, bits: seq<bool>, i: nat)
    requires i < |bits|
    ensures Holders(peers[p := bits], i) == if bits[i] then Holders(peers, i) + {p} else Holders(peers, i) - {p}
    ensures |Holders(peers[p := bits], i)| + (if p in Holders(peers, i) then 1 else 0)
             == |Holders(peers, i)| + if bits[i] then 1 else 0
  {
    SizeExcept(Holders(peers, i), Holders(peers[p := bits], i), p);
  }

  /** How replacing one piece changes the two counts. */
  lemma CountsAt<K>(pieces: seq<Piece<K>>, i: nat, x: Piece<K>)
    requires i < |pieces|
    ensures |MissingSet(pieces[i := x])| + (if pieces[i].Missing? then 1 else 0)
             == |MissingSet(pieces)| + if x.Missing? then 1 else 0
    ensures |DoneSet(pieces[i := x])| + (if pieces[i].Done? then 1 else 0)
             == |DoneSet(pieces)| + if x.Done? then 1 else 0
  {
    var after := pieces[i := x];
    assert forall j :: j != i ==> (j in MissingSet(after) <==> j in MissingSet(pieces));
    assert forall j :: j != i ==> (j in DoneSet(after) <==> j in DoneSet(pieces));
    SizeExcept(MissingSet(pieces), MissingSet(after), i);
    SizeExcept(DoneSet(pieces), DoneSet(after), i);
  }

  lemma CountsAppend<K>(pieces: seq<Piece<K>>, x: Piece<K>)
    ensures |MissingSet(pieces + [x])| == |MissingSet(pieces)| + if x.Missing? then 1 else 0
    ensures |DoneSet(pieces + [x])| == |DoneSet(pieces)| + if x.Done? then 1 else 0
  {
    var n, after := |pieces|, pieces + [x];
    assert MissingSet(after) == if x.Missing? then MissingSet(pieces) + {n} else MissingSet(pieces);
    assert DoneSet(after) == if x.Done? then DoneSet(pieces) + {n} else DoneSet(pieces);
  }

  lemma NothingMissing<K>(pieces: seq<Piece<K>>)
    ensures |MissingSet(pieces)| == 0 <==> NoneMissing(pieces)
  {
    if i :| 0 <= i < |pieces| && pieces[i].Missing? {
      assert i in MissingSet(pieces);
    }
  }

  /** The counter test of `is_done` is the real thing. */
  lemma DoneCountFull<K>(pieces: seq<Piece<K>>)
    ensures |DoneSet(pieces)| <= |pieces|
    ensures |DoneSet(pieces)| == |pieces| <==> AllDone(pieces)
  {
    var all := Below(|pieces|);
    SubsetSize(DoneSet(pieces), all);
    if AllDone(pieces) {
      assert DoneSet(pieces) == all;
    } else {
      var i :| 0 <= i < |pieces| && !pieces[i].Done?;
      SubsetSize(DoneSet(pieces), all - {i});
    }
  }

  // ---- Every operation keeps views well-formed ----

  lemma RemovePeerWellFormed<K(!new)>(v: View<K>, p: K)
    requires WellFormed(v)
    ensures WellFormed(RemovePeer(v, p))
  {
    var w := RemovePeer(v, p);
    if p in v.peers {
      forall i | 0 <= i < |v.pieces| ensures PieceOk(w.pieces[i], i, w.peers) {
        HoldersDrop(v.peers, p, i);
        assert PieceOk(v.pieces[i], i, v.peers);
      }
    }
  }

  lemma AddPeerWellFormed<K(!new)>(v: View<K>, p: K, bits: seq<bool>)
    requires WellFormed(v) && |bits| == |v.pieces|
    ensures WellFormed(AddPeer(v, p, bits))
  {
    RemovePeerWellFormed(v, p);
    var r, w := RemovePeer(v, p), AddPeer(v, p, bits);
    forall i | 0 <= i < |w.pieces| ensures PieceOk(w.pieces[i], i, w.peers) {
      HoldersSet(r.peers, p, bits, i);
      assert PieceOk(r.pieces[i], i, r.peers);
      assert p !in Holders(r.peers, i);
    }
  }

  lemma SetPeerHasWellFormed<K(!new)>(v: View<K>, p: K, i: nat)
    requires WellFormed(v)
    ensures WellFormed(SetPeerHas(v, p, i))
  {
    var w := SetPeerHas(v, p, i);
    forall j | 0 <= j < |w.pieces| ensures PieceOk(w.pieces[j], j, w.peers) {
      assert PieceOk(v.pieces[j], j, v.peers);
      assert Holders(v.peers, j) <= Holders(w.peers, j);
    }
  }

  lemma CompleteWellFormed<K(!new)>(v: View<K>, i: nat)
    requires WellFormed(v) && i < |v.pieces|
    ensures WellFormed(Complete(v, i))
  {
  }

  lemma FailedWellFormed<K(!new)>(v: View<K>, i: nat, p: K, peerLacksIt: bool)
    requires WellFormed(v) && i < |v.pieces|
    ensures WellFormed(Failed(v, i, p, peerLacksIt))
  {
    var w := Failed(v, i, p, peerLacksIt);
    forall j | 0 <= j < |w.pieces| ensures PieceOk(w.pieces[j], j, w.peers) {
      assert PieceOk(v.pieces[j], j, v.peers);
      forall q | q in Holders(v.peers, j) && (q != p || j != i) ensures q in Holders(w.peers, j) {
      }
    }
  }

  /** `pick` only ever chooses a piece the peer holds, that is not Done, and that
      the peer is not already fetching, so its `unreachable!` is never reached. */
  lemma PickWellFormed<K(!new)>(v: View<K>, window: nat, p: K, r: Option<nat>)
    requires WellFormed(v) && IsPick(v, window, p, r)
    ensures r.Some? ==> r.value < |v.pieces| && !v.pieces[r.value].Done? && p in Holders(v.peers, r.value)
    ensures r.Some? && v.pieces[r.value].InFlight? ==> p !in v.pieces[r.value].askers
    ensures WellFormed(AfterPick(v, p, r))
  {
    if r.Some? {
      var w := AfterPick(v, p, r);
      forall i | 0 <= i < |w.pieces| ensures PieceOk(w.pieces[i], i, w.peers) {
        assert PieceOk(v.pieces[i], i, v.peers);
      }
    }
  }

  // ---- `pick` is determined by its description ----

  lemma PickIsUnique<K(!new)>(v: View<K>, window: nat, p: K, a: Option<nat>, b: Option<nat>)
    requires IsPick(v, window, p, a) && IsPick(v, window, p, b)
    ensures a == b
  {
  }

  /** `pick` gives nothing exactly when the peer holds no missing piece and it is
      either too early to duplicate requests or nothing is left to duplicate. */
  lemma PickNothingIff<K(!new)>(v: View<K>, window: nat, p: K, r: Option<nat>)
    requires IsPick(v, window, p, r)
    ensures r.None? <==>
      && (forall i: nat :: !Wanted(v, p, i))
      && (!NoneMissing(v.pieces) || forall i: nat :: !Helpable(v, p, i))
  {
    if i: nat :| Urgent(v, window, p, i) {
      assert Wanted(v, p, i);
    }
  }

  /** A non-empty set has a member of least key, and of least number among those. */
  lemma {:induction false} Least(candidates: set<nat>, key: nat -> nat) returns (i: nat)
    requires candidates != {}
    ensures i in candidates
    ensures forall j: nat :: j in candidates ==> key(i) < key(j) || (key(i) == key(j) && i <= j)
    decreases |candidates|
  {
    var x :| x in candidates;
    if candidates == {x} {
      i := x;
    } else {
      var y := Least(candidates - {x}, key);
      i := if key(x) < key(y) || (key(x) == key(y) && x <= y) then x else y;
      assert forall j :: j in candidates ==> j == x || j in candidates - {x};
    }
  }

  /** `pick` always has an answer. */
  lemma PickExists<K(!new)>(v: View<K>, window: nat, p: K) returns (r: Option<nat>)
    ensures IsPick(v, window, p, r)
  {
    if i: nat :| Urgent(v, window, p, i) {
      var urgent := set j: nat | j < |v.pieces| && Urgent(v, window, p, j);
      assert i in urgent;
      var least := Least(urgent, _ => 0);
      assert forall j: nat :: Urgent(v, window, p, j) ==> j in urgent;
      r := Some(least);
    } else if i: nat :| Wanted(v, p, i) {
      var rarest := RarestExists(v, p, i);
      r := Some(rarest);
    } else if i: nat :| NoneMissing(v.pieces) && Helpable(v, p, i) {
      var least := LeastHelpedExists(v, p, i);
      r := Some(least);
    } else {
      r := None;
    }
  }

  lemma RarestExists<K(!new)>(v: View<K>, p: K, i: nat) returns (r: nat)
    requires Wanted(v, p, i)
    ensures Rarest(v, p, r)
  {
    var wanted := set j: nat | j < |v.pieces| && Wanted(v, p, j);
    assert i in wanted;
    var first := Least(wanted, _ => 0);
    assert forall j: nat :: Wanted(v, p, j) ==> j in wanted;
    assert WantedBelow(v, p, first) == {};
    var sampled := set j: nat | j < |v.pieces| && Sampled(v, p, j);
    assert first in sampled;
    r := Least(sampled, j => |Holders(v.peers, j)|);
    assert forall j: nat :: Sampled(v, p, j) ==> j in sampled;
  }

  lemma LeastHelpedExists<K(!new)>(v: View<K>, p: K, i: nat) returns (r: nat)
    requires Helpable(v, p, i)
    ensures LeastHelped(v, p, r)
  {
    var helpable := set j: nat | j < |v.pieces| && Helpable(v, p, j);
    assert i in helpable;
    r := Least(helpable, j => AskersOf(v, j));
    assert forall j: nat :: Helpable(v, p, j) ==> j in helpable;
  }

  ghost function AskersOf<K>(v: View<K>, i: nat): nat {
    if i < |v.pieces| && v.pieces[i].InFlight? then |v.pieces[i].askers| else 0
  }

  lemma WantedNext<K(!new)>(v: View<K>, p: K, x: nat)
    ensures WantedBelow(v, p, x + 1) == WantedBelow(v, p, x) + if Wanted(v, p, x) then {x} else {}
    ensures x !in WantedBelow(v, p, x)
  {
  }

  /** The lowest-index piece of least availability wanted below `x`. */
  ghost function Champion<K(!new)>(v: View<K>, p: K, x: nat): Option<nat> {
    if x == 0 then None
    else
      var best := Champion(v, p, x - 1);
      if Wanted(v, p, x - 1) && (best.None? || |Holders(v.peers, x - 1)| < |Holders(v.peers, best.value)|)
      then Some(x - 1)
      else best
  }

  lemma {:induction false} ChampionIsBest<K(!new)>(v: View<K>, p: K, x: nat)
    ensures var best := Champion(v, p, x);
            && (best.None? <==> WantedBelow(v, p, x) == {})
            && (best.Some? ==> best.value in WantedBelow(v, p, x))
            && (forall j: nat :: best.Some? && j < x && Wanted(v, p, j) ==>
                  || |Holders(v.peers, best.value)| < |Holders(v.peers, j)|
                  || (|Holders(v.peers, best.value)| == |Holders(v.peers, j)| && best.value <= j))
  {
    if x > 0 {
      ChampionIsBest(v, p, x - 1);
      WantedNext(v, p, x - 1);
      forall j: nat | j < x - 1 && Wanted(v, p, j) ensures j in WantedBelow(v, p, x - 1) {
      }
    }
  }

  ghost function WantedCount<K(!new)>(v: View<K>, p: K, x: nat): nat {
    if x == 0 then 0 else WantedCount(v, p, x - 1) + if Wanted(v, p, x - 1) then 1 else 0
  }

  lemma {:induction false} WantedCountIsSize<K(!new)>(v: View<K>, p: K, x: nat)
    ensures WantedCount(v, p, x) == |WantedBelow(v, p, x)|
  {
    if x > 0 {
      WantedCountIsSize(v, p, x - 1);
      WantedNext(v, p, x - 1);
    }
  }

  /** Neither early exit of the rarest-first scan changes its answer. */
  lemma ChampionIsRarest<K(!new)>(v: View<K>, p: K, x: nat)
    requires WantedCount(v, p, x) <= RAREST_SAMPLE
    requires
      || x >= |v.pieces|
      || WantedCount(v, p, x) == RAREST_SAMPLE
      || (Champion(v, p, x).Some? && |Holders(v.peers, Champion(v, p, x).value)| <= 1)
    ensures Champion(v, p, x).Some? ==> Rarest(v, p, Champion(v, p, x).value)
    ensures Champion(v, p, x).None? ==> forall j: nat :: !Wanted(v, p, j)
  {
    ChampionIsBest(v, p, x);
    WantedCountIsSize(v, p, x);
    if Champion(v, p, x).Some? {
      var b := Champion(v, p, x).value;
      assert b !in WantedBelow(v, p, b);
      ProperSubsetSize(WantedBelow(v, p, b), WantedBelow(v, p, x));
      forall j: nat | Sampled(v, p, j)
        ensures
          || |Holders(v.peers, b)| < |Holders(v.peers, j)|
          || (|Holders(v.peers, b)| == |Holders(v.peers, j)| && b <= j)
      {
        if j >= x {
          SubsetSize(WantedBelow(v, p, x), WantedBelow(v, p, j));
          SubsetSize({p}, Holders(v.peers, j));
        }
      }
    } else {
      forall j: nat ensures !Wanted(v, p, j) {
        assert j !in WantedBelow(v, p, x);
      }
    }
  }

  lemma ChampionAtPlayhead<K(!new)>(v: View<K>, p: K, start: nat)
    requires IsFirstNotDone(v.pieces, start)
    ensures WantedCount(v, p, start) == 0 && Champion(v, p, start) == None
  {
    assert WantedBelow(v, p, start) == {};
    WantedCountIsSize(v, p, start);
    ChampionIsBest(v, p, start);
  }
}
