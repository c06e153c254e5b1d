/** What each operation of the scheduler does, in full: who is asked for what, which
    pieces are missing and Done, and who has which piece afterwards. */
module SchedulerEffects {
  import opened Scheduling
  import opened Wrappers

  /** `p` and nobody else was asked for piece `i`. */
  ghost predicate OnlyAsker<K(!new)>(v: View<K>, p: K, i: nat) {
    Asks(v, p, i) && forall q :: Asks(v, q, i) ==> q == p
  }

  /** The views have the same pieces Done. */
  ghost predicate SameDone<K(!new)>(v: View<K>, w: View<K>) {
    && |v.pieces| == |w.pieces|
    && forall i :: 0 <= i < |v.pieces| ==> (v.pieces[i].Done? <==> w.pieces[i].Done?)
  }

  lemma DropEffect<K(!new)>(v: View<K>, i: nat, p: K)
    requires WellFormed(v) && i < |v.pieces|
    ensures var w := DropRequest(v, i, p);
            && w.peers == v.peers && SameDone(v, w)
            && (forall q, j: nat :: Asks(w, q, j) <==> Asks(v, q, j) && !(q == p && j == i))
            && forall j: nat :: PieceMissing(w, j) <==> PieceMissing(v, j) || (j == i && OnlyAsker(v, p, i))
  {
    var w := DropRequest(v, i, p);
    assert PieceOk(v.pieces[i], i, v.peers);
    if v.pieces[i].InFlight? {
      DropIsMissing(v, i, p, v.pieces[i].askers);
    }
  }

  lemma DropIsMissing<K(!new)>(v: View<K>, i: nat, p: K, askers: seq<K>)
    requires i < |v.pieces| && v.pieces[i] == InFlight(askers) && askers != []
    ensures Without(askers, p) == [] <==> OnlyAsker(v, p, i)
  {
    var rest := Without(askers, p);
    if rest == [] {
      assert forall q :: q in askers ==> q == p;
      assert askers[0] in askers;
    } else {
      assert rest[0] in rest;
      assert Asks(v, rest[0], i) && rest[0] != p;
    }
  }

  /** `failed`: only this request goes, and only this peer's bit, if it lacks the piece. */
  lemma FailedEffect<K(!new)>(v: View<K>, i: nat, p: K, lacksIt: bool)
    requires WellFormed(v) && i < |v.pieces|
    ensures var w := Failed(v, i, p, lacksIt);
            && w.peers.Keys == v.peers.Keys && SameDone(v, w)
            && (forall q, j: nat :: Asks(w, q, j) <==> Asks(v, q, j) && !(q == p && j == i))
            && (forall j: nat :: PieceMissing(w, j) <==> PieceMissing(v, j) || (j == i && OnlyAsker(v, p, i)))
            && forall q, j: nat :: q in Holders(w.peers, j) <==>
                 q in Holders(v.peers, j) && !(lacksIt && q == p && j == i)
  {
    DropEffect(v, i, p);
    var d, w := DropRequest(v, i, p), Failed(v, i, p, lacksIt);
    assert w.pieces == d.pieces;
    forall q, j: nat ensures Asks(w, q, j) <==> Asks(d, q, j) {
    }
    forall j: nat ensures PieceMissing(w, j) <==> PieceMissing(d, j) {
    }
  }

  /** `remove_peer`: every request of the peer goes and no other, and its bitmap. */
  lemma RemovePeerEffect<K(!new)>(v: View<K>, p: K)
    requires WellFormed(v)
    ensures var w := RemovePeer(v, p);
            && w.peers == v.peers - {p} && SameDone(v, w)
            && (forall q, j: nat :: Asks(w, q, j) <==> Asks(v, q, j) && q != p)
            && forall j: nat :: PieceMissing(w, j) <==> PieceMissing(v, j) || OnlyAsker(v, p, j)
  {
    var w := RemovePeer(v, p);
    forall q, j: nat ensures Asks(w, q, j) <==> Asks(v, q, j) && q != p {
      if j < |v.pieces| {
        assert PieceOk(v.pieces[j], j, v.peers);
      }
    }
    forall j: nat ensures PieceMissing(w, j) <==> PieceMissing(v, j) || OnlyAsker(v, p, j) {
      if j < |v.pieces| {
        assert PieceOk(v.pieces[j], j, v.peers);
        if v.pieces[j].InFlight? {
          DropIsMissing(v, j, p, v.pieces[j].askers);
        }
      }
    }
  }

  /** `add_peer`: the same, and then it has just what it announces. */
  lemma AddPeerEffect<K(!new)>(v: View<K>, p: K, bits: seq<bool>)
    requires WellFormed(v) && |bits| == |v.pieces|
    ensures var w := AddPeer(v, p, bits);
            && w.peers.Keys == v.peers.Keys + {p} && SameDone(v, w)
            && (forall q, j: nat :: Asks(w, q, j) <==> Asks(v, q, j) && q != p)
            && (forall j: nat :: PieceMissing(w, j) <==> PieceMissing(v, j) || OnlyAsker(v, p, j))
            && forall q, j: nat :: q in Holders(w.peers, j) <==>
                 if q == p then j < |bits| && bits[j] else q in Holders(v.peers, j)
  {
    RemovePeerEffect(v, p);
    var r, w := RemovePeer(v, p), AddPeer(v, p, bits);
    forall q, j: nat ensures Asks(w, q, j) <==> Asks(r, q, j) {
    }
    forall j: nat ensures PieceMissing(w, j) <==> PieceMissing(r, j) {
    }
  }

  /** `set_peer_has`: a registered peer has one more piece, if there is such a piece. */
  lemma SetPeerHasEffect<K(!new)>(v: View<K>, p: K, i: nat)
    requires WellFormed(v)
    ensures var w := SetPeerHas(v, p, i);
            && w.pieces == v.pieces && w.peers.Keys == v.peers.Keys
            && forall q, j: nat :: q in Holders(w.peers, j) <==>
                 q in Holders(v.peers, j) || (q == p && j == i && p in v.peers && i < |v.pieces|)
  {
  }

  /** `complete`: this piece is Done and nobody is asked for it; nothing else changes. */
  lemma CompleteEffect<K(!new)>(v: View<K>, i: nat)
    requires i < |v.pieces|
    ensures var w := Complete(v, i);
            && w.peers == v.peers && |w.pieces| == |v.pieces|
            && (forall j: nat :: PieceDone(w, j) <==> PieceDone(v, j) || j == i)
            && (forall q, j: nat :: Asks(w, q, j) <==> Asks(v, q, j) && j != i)
            && forall j: nat :: PieceMissing(w, j) <==> PieceMissing(v, j) && j != i
  {
  }

  /** `pick`: the request is recorded, and nothing else changes. */
  lemma PickEffect<K(!new)>(v: View<K>, window: nat, p: K, r: Option<nat>)
    requires WellFormed(v) && IsPick(v, window, p, r)
    ensures var w := AfterPick(v, p, r);
            && w.peers == v.peers && SameDone(v, w)
            && (forall q, j: nat :: Asks(w, q, j) <==> Asks(v, q, j) || (q == p && r == Some(j)))
            && (forall j: nat :: PieceMissing(w, j) <==> PieceMissing(v, j) && r != Some(j))
            && forall j :: 0 <= j < |v.pieces| && r != Some(j) ==> w.pieces[j] == v.pieces[j]
    ensures r.Some? ==> r.value < |v.pieces| && !PieceDone(v, r.value) && !Asks(v, p, r.value)
  {
    PickWellFormed(v, window, p, r);
  }

  /** A peer that asks twice is not given the same piece twice, unless in between the
      piece was given back. */
  lemma NeverPickedTwice<K(!new)>(v: View<K>, window: nat, p: K, r: Option<nat>, w: View<K>, again: Option<nat>)
    requires WellFormed(v) && IsPick(v, window, p, r) && r.Some?
    requires WellFormed(w) && IsPick(w, window, p, again)
    requires Asks(AfterPick(v, p, r), p, r.value) ==> Asks(w, p, r.value)
    ensures again != r
  {
    PickEffect(v, window, p, r);
    PickEffect(w, window, p, again);
  }

  lemma PicksDiffer<K(!new)>(v: View<K>, window: nat, p: K, r: Option<nat>, again: Option<nat>)
    requires WellFormed(v) && IsPick(v, window, p, r) && IsPick(AfterPick(v, p, r), window, p, again)
    ensures r.Some? ==> again != r
  {
    if r.Some? {
      PickWellFormed(v, window, p, r);
      NeverPickedTwice(v, window, p, r, AfterPick(v, p, r), again);
    }
  }
}
