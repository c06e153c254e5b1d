/** What follows from the description of the piece `pick` chooses, for the cases the
    scheduler's own examples are about (crates/chorrent/src/scheduler.rs:222-270). */
module PickLaws {
  import opened Scheduling
  import opened Wrappers

  /** A peer that has the first open piece is asked for it, if nobody was. */
  lemma FirstOpenPieceFirst<K(!new)>(v: View<K>, window: nat, p: K, f: nat, r: Option<nat>)
    requires IsFirstNotDone(v.pieces, f) && Wanted(v, p, f) && window > 0 && IsPick(v, window, p, r)
    ensures r == Some(f)
  {
    assert Urgent(v, window, p, f);
  }

  /** Of two pieces a peer is asked for the first if the window reaches it, and else for
      the one that another peer lacks. */
  lemma WindowBeforeRarest<K(!new)>(v: View<K>, window: nat, p: K, q: K, i: nat, j: nat, r: Option<nat>)
    requires q != p && v.peers.Keys == {p, q} && i < j
    requires forall k: nat :: Wanted(v, p, k) <==> k == i || k == j
    requires q in Holders(v.peers, i) && q !in Holders(v.peers, j)
    requires IsFirstNotDone(v.pieces, 0) && IsPick(v, window, p, r)
    ensures r == if i < window then Some(i) else Some(j)
  {
    assert Wanted(v, p, i) && Wanted(v, p, j);
    assert Urgent(v, window, p, i) <==> i < window;
    assert Holders(v.peers, i) == {p, q} && Holders(v.peers, j) == {p};
    assert WantedBelow(v, p, i) == {} && WantedBelow(v, p, j) == {i};
  }

  /** A piece rarer than all others the peer could be asked for is chosen, if none is
      within the window, exactly when it is one of the first 64 of them. */
  lemma RarestOfTheFirst<K(!new)>(v: View<K>, window: nat, p: K, i: nat, r: Option<nat>)
    requires Wanted(v, p, i) && IsPick(v, window, p, r)
    requires forall j: nat :: !Urgent(v, window, p, j)
    requires forall j: nat :: Wanted(v, p, j) && j != i ==> |Holders(v.peers, i)| < |Holders(v.peers, j)|
    ensures r == Some(i) <==> |WantedBelow(v, p, i)| < 64
  {
  }

  /** No piece in flight is asked for again while nobody was asked for another, whoever
      has that. */
  lemma NoDuplicatesYet<K(!new)>(v: View<K>, window: nat, p: K, i: nat, r: Option<nat>)
    requires i < |v.pieces| && v.pieces[i].Missing? && IsPick(v, window, p, r)
    ensures r.Some? ==> r.value < |v.pieces| && v.pieces[r.value].Missing?
  {
  }

  /** The last piece is asked of up to three peers, and of none of them twice. */
  lemma EndgameOnce<K(!new)>(v: View<K>, window: nat, i: nat, askers: seq<K>, p: K, r: Option<nat>)
    requires i < |v.pieces| && v.pieces[i] == InFlight(askers) && p in Holders(v.peers, i)
    requires forall k: nat :: k < |v.pieces| && k != i ==> v.pieces[k].Done?
    requires IsPick(v, window, p, r)
    ensures r == if |askers| < 3 && p !in askers then Some(i) else None
    ensures r.Some? ==> AfterPick(v, p, r).pieces[i] == InFlight(askers + [p])
  {
    assert forall k: nat :: !Wanted(v, p, k);
    assert Helpable(v, p, i) <==> |askers| < 3 && p !in askers;
  }

  /** Of the pieces others were asked for, all others being Done, the one with the fewest
      requests is asked for again. */
  lemma FewestRequestsFirst<K(!new)>(v: View<K>, window: nat, p: K, i: nat, j: nat, r: Option<nat>)
    requires i < |v.pieces| && j < |v.pieces| && i != j && Helpable(v, p, i) && Helpable(v, p, j)
    requires |v.pieces[i].askers| < |v.pieces[j].askers|
    requires forall k: nat :: k < |v.pieces| && k != i && k != j ==> v.pieces[k].Done?
    requires IsPick(v, window, p, r)
    ensures r == Some(i)
  {
    assert forall k: nat :: !Wanted(v, p, k);
  }
}
