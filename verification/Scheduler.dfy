/** The piece scheduler the engine uses (crates/chorrent/src/scheduler.rs).
    Besides the pieces and the bitmaps it keeps the counters `missing` and
    `done`, the per-piece `availability` and the playhead `firstNotDone`; every
    method is proved against an operation on views. */
module PieceScheduler {
  import opened Wrappers
  import opened V = Scheduling

  class Scheduler<K(==,!new)> {
    var pieces: seq<Piece<K>>
    /** For each piece, the number of its holders. */
    var availability: seq<nat>
    var peers: map<K, seq<bool>>
    const urgentWindow: nat
    /** The playhead. */
    var firstNotDone: nat
    var missing: nat
    var done: nat

    ghost function AsView(): View<K>
      reads this
    {
      View(pieces, peers)
    }

    /** The piece counters are exact. */
    ghost predicate Counted()
      reads this
    {
      && missing == |MissingSet(pieces)|
      && done == |DoneSet(pieces)|
      && IsFirstNotDone(pieces, firstNotDone)
    }

    ghost predicate Valid()
      reads this
    {
      && WellFormed(AsView())
      && Counted()
      && |availability| == |pieces|
      && forall i :: 0 <= i < |pieces| ==> availability[i] == |Holders(peers, i)|
    }

    constructor (have: seq<bool>, window: nat)
      ensures Valid()
      ensures urgentWindow == window
      ensures peers == map[] && |pieces| == |have|
      ensures forall i :: 0 <= i < |have| ==> pieces[i] == if have[i] then Done else Missing
    {
      urgentWindow := window;
      availability := seq(|have|, _ => 0);
      peers := map[];
      firstNotDone := 0;
      pieces := [];
      missing, done := 0, 0;
      new;
      var i := 0;
      while i < |have|
        invariant i <= |have| && |pieces| == i
        invariant |availability| == |have| && forall j :: 0 <= j < |have| ==> availability[j] == 0
        invariant peers == map[] && firstNotDone == 0
        invariant forall j :: 0 <= j < i ==> pieces[j] == if have[j] then Done else Missing
        invariant missing == |MissingSet(pieces)| && done == |DoneSet(pieces)|
      {
        CountsAppend(pieces, if have[i] then Done else Missing);
        pieces := pieces + [if have[i] then Done else Missing];
        if have[i] {
          done := done + 1;
        } else {
          missing := missing + 1;
        }
        i := i + 1;
      }
      forall j: nat ensures Holders(peers, j) == {} {
      }
      AdvancePlayhead();
    }

    method IsDone() returns (r: bool)
      requires Valid()
      ensures r <==> AllDone(pieces)
    {
      DoneCountFull(pieces);
      r := done == |pieces|;
    }

    method AddPeer(peer: K, have: seq<bool>)
      requires Valid() && |have| == |pieces|
      modifies this
      ensures Valid()
      ensures AsView() == V.AddPeer(old(AsView()), peer, have)
    {
      AddPeerWellFormed(AsView(), peer, have);
      RemovePeer(peer);
      Hold(peer, have);
    }

    /** Put a bitmap into `availability` and `peers`. */
    method Hold(peer: K, have: seq<bool>)
      requires peer !in peers && |have| == |pieces| == |availability|
      requires forall i :: 0 <= i < |pieces| ==> availability[i] == |Holders(peers, i)|
      modifies `peers, `availability
      ensures peers == old(peers)[peer := have]
      ensures |availability| == |pieces|
      ensures forall i :: 0 <= i < |pieces| ==> availability[i] == |Holders(peers, i)|
    {
      var i := 0;
      while i < |have|
        modifies `availability
        invariant 0 <= i <= |have|
        invariant |availability| == |pieces|
        invariant forall j :: 0 <= j < i ==> availability[j] == |Holders(peers[peer := have], j)|
        invariant forall j :: i <= j < |pieces| ==> availability[j] == |Holders(peers, j)|
      {
        HoldersSet(peers, peer, have, i);
        if have[i] {
          availability := availability[i := availability[i] + 1];
        }
        i := i + 1;
      }
      peers := peers[peer := have];
    }

    method SetPeerHas(peer: K, piece: nat)
      requires Valid()
      modifies `peers, `availability
      ensures Valid()
      ensures AsView() == V.SetPeerHas(old(AsView()), peer, piece)
    {
      SetPeerHasWellFormed(AsView(), peer, piece);
      if peer in peers && piece < |peers[peer]| && !peers[peer][piece] {
        ghost var before := peers;
        var bits := peers[peer][piece := true];
        forall j | 0 <= j < |pieces|
          ensures availability[j] + (if j == piece then 1 else 0) == |Holders(before[peer := bits], j)|
        {
          HoldersSet(before, peer, bits, j);
          assert peer in Holders(before, j) <==> before[peer][j];
        }
        peers := peers[peer := bits];
        availability := availability[piece := availability[piece] + 1];
      } else if peer in peers && piece < |peers[peer]| {
        assert peers[peer][piece := true] == peers[peer];
        assert peers[peer := peers[peer]] == peers;
      }
    }

    /** Take out the peer's bitmap and its requests. */
    method RemovePeer(peer: K)
      requires Valid()
      modifies this
      ensures Valid()
      ensures AsView() == V.RemovePeer(old(AsView()), peer)
      ensures peer !in peers
    {
      if peer !in peers {
        return;
      }
      RemovePeerWellFormed(AsView(), peer);
      Unhold(peer);
      DropRequests(peer);
    }

    /** Take the peer's bitmap out of `peers` and `availability`. */
    method Unhold(peer: K)
      requires peer in peers && |peers[peer]| == |pieces| == |availability|
      requires forall i :: 0 <= i < |pieces| ==> availability[i] == |Holders(peers, i)|
      modifies `peers, `availability
      ensures peers == old(peers) - {peer}
      ensures |availability| == |pieces|
      ensures forall i :: 0 <= i < |pieces| ==> availability[i] == |Holders(peers, i)|
    {
      var bits := peers[peer];
      ghost var before := peers;
      peers := peers - {peer};
      var i := 0;
      while i < |bits|
        modifies `availability
        invariant 0 <= i <= |bits|
        invariant |availability| == |pieces|
        invariant forall j :: 0 <= j < i ==> availability[j] == |Holders(before - {peer}, j)|
        invariant forall j :: i <= j < |pieces| ==> availability[j] == |Holders(before, j)|
      {
        HoldersDrop(before, peer, i);
        if bits[i] {
          availability := availability[i := availability[i] - 1];
        }
        i := i + 1;
      }
    }

    method DropRequests(peer: K)
      requires Counted()
      modifies `pieces, `missing
      ensures Counted()
      ensures |pieces| == |old(pieces)|
      ensures forall i :: 0 <= i < |pieces| ==> pieces[i] == Drop(old(pieces)[i], peer)
    {
      var i := 0;
      while i < |pieces|
        modifies `pieces, `missing
        invariant 0 <= i <= |pieces| == |old(pieces)|
        invariant Counted()
        invariant forall j :: 0 <= j < i ==> pieces[j] == Drop(old(pieces)[j], peer)
        invariant forall j :: i <= j < |pieces| ==> pieces[j] == old(pieces)[j]
      {
        DropRequest(i, peer);
        i := i + 1;
      }
    }

    /** Choose a piece to ask `peer` for, and record that it was asked. */
    method Pick(peer: K) returns (choice: Option<nat>)
      requires Valid()
      modifies `pieces, `missing
      ensures Valid()
      ensures IsPick(old(AsView()), urgentWindow, peer, choice)
      ensures AsView() == AfterPick(old(AsView()), peer, choice)
    {
      choice := Choose(peer);
      PickWellFormed(AsView(), urgentWindow, peer, choice);
      if choice.Some? {
        var i := choice.value;
        match pieces[i] {
          case Missing =>
            CountsAt(pieces, i, InFlight([peer]));
            pieces := pieces[i := InFlight([peer])];
            missing := missing - 1;
          case InFlight(askers) =>
            CountsAt(pieces, i, InFlight(askers + [peer]));
            pieces := pieces[i := InFlight(askers + [peer])];
        }
      }
    }

    /** The choice itself: the three stages, each tried only when those before it
        found nothing. */
    method Choose(peer: K) returns (choice: Option<nat>)
      requires Valid()
      ensures IsPick(AsView(), urgentWindow, peer, choice)
    {
      if peer !in peers {
        return None;
      }
      NothingMissing(pieces);
      choice := FirstUrgent(peer);
      if choice.None? && missing > 0 && |pieces| > 0 {
        choice := RarestSampled(peer);
      }
      if choice.None? && missing == 0 {
        choice := LeastAsked(peer);
      }
    }

    /** Make the piece Done; says whether it was not before. */
    method Complete(piece: nat) returns (newly: bool)
      requires Valid() && piece < |pieces|
      modifies `pieces, `missing, `done, `firstNotDone
      ensures Valid()
      ensures newly <==> !old(pieces)[piece].Done?
      ensures AsView() == V.Complete(old(AsView()), piece)
    {
      CompleteWellFormed(AsView(), piece);
      CountsAt(pieces, piece, Done);
      var was := pieces[piece];
      pieces := pieces[piece := Done];
      match was {
        case Done =>
          newly := false;
        case Missing =>
          missing := missing - 1;
          done := done + 1;
          AdvancePlayhead();
          newly := true;
        case InFlight(_) =>
          done := done + 1;
          AdvancePlayhead();
          newly := true;
      }
    }

    /** Take back one request, and the bit for it too if `peerLacksIt`. */
    method Failed(piece: nat, peer: K, peerLacksIt: bool)
      requires Valid() && piece < |pieces|
      modifies `pieces, `missing, `peers, `availability
      ensures Valid()
      ensures AsView() == V.Failed(old(AsView()), piece, peer, peerLacksIt)
    {
      FailedWellFormed(AsView(), piece, peer, peerLacksIt);
      DropRequest(piece, peer);
      if peerLacksIt && peer in peers && peers[peer][piece] {
        ghost var before := peers;
        var bits := peers[peer][piece := false];
        forall j | 0 <= j < |pieces|
          ensures availability[j] == |Holders(before[peer := bits], j)| + if j == piece then 1 else 0
        {
          HoldersSet(before, peer, bits, j);
          assert peer in Holders(before, j) <==> before[peer][j];
        }
        peers := peers[peer := bits];
        availability := availability[piece := availability[piece] - 1];
      } else if peerLacksIt && peer in peers {
        assert peers[peer][piece := false] == peers[peer];
        assert peers[peer := peers[peer]] == peers;
      }
    }

    method DropRequest(piece: nat, peer: K)
      requires Counted() && piece < |pieces|
      modifies `pieces, `missing
      ensures Counted()
      ensures pieces == old(pieces)[piece := Drop(old(pieces)[piece], peer)]
    {
      match pieces[piece] {
        case InFlight(askers) =>
          var rest := Without(askers, peer);
          CountsAt(pieces, piece, Drop(pieces[piece], peer));
          if rest == [] {
            pieces := pieces[piece := Missing];
            missing := missing + 1;
          } else {
            pieces := pieces[piece := InFlight(rest)];
          }
        case _ =>
      }
    }

    method AdvancePlayhead()
      requires firstNotDone <= |pieces|
      requires forall i :: 0 <= i < firstNotDone ==> pieces[i].Done?
      modifies `firstNotDone
      ensures IsFirstNotDone(pieces, firstNotDone)
    {
      while firstNotDone < |pieces| && pieces[firstNotDone].Done?
        invariant firstNotDone <= |pieces|
        invariant forall i :: 0 <= i < firstNotDone ==> pieces[i].Done?
      {
        firstNotDone := firstNotDone + 1;
      }
    }

    // The three stages of `pick`.

    /** The first stage: the lowest urgent piece. */
    method FirstUrgent(peer: K) returns (choice: Option<nat>)
      requires Valid() && peer in peers
      ensures choice.None? ==> forall i: nat :: !Urgent(AsView(), urgentWindow, peer, i)
      ensures choice.Some? ==> Urgent(AsView(), urgentWindow, peer, choice.value)
      ensures choice.Some? ==> forall i: nat :: Urgent(AsView(), urgentWindow, peer, i) ==> choice.value <= i
    {
      var end := if firstNotDone + urgentWindow < |pieces| then firstNotDone + urgentWindow else |pieces|;
      var i := firstNotDone;
      while i < end
        invariant firstNotDone <= i
        invariant forall j: nat :: firstNotDone <= j < i ==> !Wanted(AsView(), peer, j)
      {
        if peers[peer][i] && pieces[i] == Missing {
          return Some(i);
        }
        i := i + 1;
      }
      choice := None;
    }

    /** Rarest-first over the first RAREST_SAMPLE candidates, scanning from the
        playhead and wrapping round, and stopping early at a piece only this peer
        holds. */
    method RarestSampled(peer: K) returns (choice: Option<nat>)
      requires peer in peers && |peers[peer]| == |pieces| == |availability|
      requires IsFirstNotDone(pieces, firstNotDone)
      requires forall i :: 0 <= i < |pieces| ==> availability[i] == |Holders(peers, i)|
      ensures choice.None? ==> forall i: nat :: !Wanted(AsView(), peer, i)
      ensures choice.Some? ==> Rarest(AsView(), peer, choice.value)
    {
      ghost var v := AsView();
      var total, start := |pieces|, firstNotDone;
      var best: Option<nat>, bestRarity := None, 0;
      var seen, k := 0, 0;
      var stop := false;
      ghost var seenUpTo: nat := start;
      ChampionAtPlayhead(v, peer, start);
      while k < total && !stop
        invariant 0 <= k <= total
        invariant stop || seenUpTo == if start + k < total then start + k else total
        invariant seen == WantedCount(v, peer, seenUpTo) <= RAREST_SAMPLE
        invariant best == Champion(v, peer, seenUpTo)
        invariant best.Some? ==> bestRarity == |Holders(v.peers, best.value)|
        invariant stop <==> seen == RAREST_SAMPLE || (best.Some? && bestRarity <= 1)
      {
        var i := if start + k < total then start + k else start + k - total;
        k := k + 1;
        seenUpTo := if start + k < total then start + k else total;
        if peers[peer][i] && pieces[i] == Missing {
          var rarity := availability[i];
          if best.None? || rarity < bestRarity {
            best, bestRarity := Some(i), rarity;
          }
          seen := seen + 1;
          stop := seen >= RAREST_SAMPLE || rarity <= 1;
        }
      }
      ChampionIsRarest(v, peer, seenUpTo);
      choice := best;
    }

    /** The third: join the requests for the piece with fewest of them. */
    method LeastAsked(peer: K) returns (choice: Option<nat>)
      requires Valid() && peer in peers
      ensures choice.None? ==> forall i: nat :: !Helpable(AsView(), peer, i)
      ensures choice.Some? ==> LeastHelped(AsView(), peer, choice.value)
    {
      var best: Option<(nat, nat)> := None;
      var i := firstNotDone;
      while i < |pieces|
        invariant firstNotDone <= i <= |pieces|
        invariant best.None? ==> forall j: nat :: j < i ==> !Helpable(AsView(), peer, j)
        invariant best.Some? ==>
          && best.value.0 < i
          && Helpable(AsView(), peer, best.value.0)
          && best.value.1 == |pieces[best.value.0].askers|
          && forall j: nat :: j < i && Helpable(AsView(), peer, j) ==>
               || best.value.1 < |pieces[j].askers|
               || (best.value.1 == |pieces[j].askers| && best.value.0 <= j)
      {
        if peers[peer][i] {
          match pieces[i] {
            case InFlight(askers) =>
              if |askers| < ENDGAME_DUPLICATES && peer !in askers && (best.None? || |askers| < best.value.1) {
                best := Some((i, |askers|));
              }
            case _ =>
          }
        }
        i := i + 1;
      }
      choice := if best.Some? then Some(best.value.0) else None;
    }
  }
}
