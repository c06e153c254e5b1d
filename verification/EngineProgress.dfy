/** What a download comes to once peers stop joining, announcing and answering
    Busy: it is done, or has every piece that anybody still asked has. */
module EngineProgress {
  import opened EngineSafety
  import opened EngineSpec
  import opened EngineTermination
  import opened Scheduling
  import opened Blocks
  import opened Wrappers

  predicate Live<P>(worker: Worker<P>) {
    worker.attached && !worker.pc.Exited?
  }

  predicate LiveAt<P>(s: State<P>, w: nat) {
    w < |s.workers| && Live(s.workers[w])
  }

  predicate BusyAt<P>(s: State<P>, w: nat) {
    w < |s.workers| && s.workers[w].pc.HasPiece()
  }

  // ---- Downloads ----

  ghost predicate DoneAt<P(!new)>(run: nat -> State<P>, k: nat) {
    IsDone(run(k))
  }

  /** The download goes on quietly until it is done; after that anything may follow. */
  ghost predicate QuietUntilDone<P(!new)>(c: Config, run: nat -> State<P>) {
    forall k: nat :: DoneAt(run, k) || QuietAt(c, run, k)
  }

  ghost predicate NeverDone<P(!new)>(run: nat -> State<P>) {
    forall k: nat :: !DoneAt(run, k)
  }

  lemma NeverDoneIsQuiet<P(!new)>(c: Config, run: nat -> State<P>)
    requires QuietUntilDone(c, run) && NeverDone(run)
    ensures QuietRun(c, run)
  {
  }

  // ---- Fairness ----

  /** Worker `w`, which was about to ask the scheduler for a piece, has asked. */
  predicate AsksAt<P>(s: State<P>, s': State<P>, w: nat) {
    w < |s.workers| && s.workers[w].pc.Ready? && w < |s'.workers| && !s'.workers[w].pc.Ready?
  }

  /** If worker `w` is live at `k`, later it asks, is busy or has left, or the
      download is done. */
  ghost predicate PollsOn<P(!new)>(run: nat -> State<P>, k: nat, w: nat) {
    LiveAt(run(k), w) ==> exists j: nat :: k <= j && (GoesOn(run, j, w) || DoneAt(run, j))
  }

  predicate GoesOn<P(!new)>(run: nat -> State<P>, j: nat, w: nat) {
    AsksAt(run(j), run(j + 1), w) || BusyAt(run(j), w) || !LiveAt(run(j), w)
  }

  /** If worker `w` is busy at `k`, later it is not, or the download is done. */
  ghost predicate EndsAfter<P(!new)>(run: nat -> State<P>, k: nat, w: nat) {
    BusyAt(run(k), w) ==> exists j: nat :: k <= j && (!BusyAt(run(j), w) || DoneAt(run, j))
  }

  /** Live workers keep asking, and no request or store is left for ever. */
  ghost predicate Fair<P(!new)>(run: nat -> State<P>) {
    && (forall k: nat, w: nat :: PollsOn(run, k, w))
    && forall k: nat, w: nat :: EndsAfter(run, k, w)
  }

  // ---- Polling changes nothing that matters ----

  ghost predicate Alike<P(!new)>(s: State<P>, s': State<P>) {
    && s'.view == s.view && |s'.workers| == |s.workers|
    && forall w :: 0 <= w < |s.workers| ==>
         && s'.workers[w].peer == s.workers[w].peer
         && Live(s'.workers[w]) == Live(s.workers[w])
         && s'.workers[w].pc.HasPiece() == s.workers[w].pc.HasPiece()
  }

  lemma PollsAreAlike<P(!new)>(c: Config, s: State<P>, s': State<P>)
    requires PollStep(c, s, s')
    ensures Alike(s, s')
  {
  }

  /** A worker that asks without anything changing is told that there is nothing. */
  lemma PollFindsNothing<P(!new)>(c: Config, s: State<P>, s': State<P>, w: nat)
    requires PollStep(c, s, s') && AsksAt(s, s', w)
    ensures IsPick(s.view, c.window, s.workers[w].peer, None)
  {
    var a :| Enabled(c, s, a) && IsPoll(s, a) && s' == Next(c, s, a);
    assert a == Pick(w, None);
  }

  lemma {:induction false} AlikeFrom<P(!new)>(c: Config, run: nat -> State<P>, n: nat, k: nat)
    requires OnlyPollsFrom(c, run, n) && n <= k
    ensures Alike(run(n), run(k))
    decreases k - n
  {
    if n < k {
      AlikeFrom(c, run, n, k - 1);
      assert PollsAt(c, run, k - 1);
      PollsAreAlike(c, run(k - 1), run(k));
    }
  }

  // ---- Progress ----

  /** If worker `w` is live and piece `i` is not Done, the worker's peer does not have it. */
  ghost predicate NothingLeftAt<P(!new)>(s: State<P>, w: nat, i: nat) {
    LiveAt(s, w) && i < |s.view.pieces| && !s.view.pieces[i].Done? ==> s.workers[w].peer !in Holders(s.view.peers, i)
  }

  /** No peer with a live worker has a piece that is not Done. */
  ghost predicate NothingLeft<P(!new)>(s: State<P>) {
    forall w: nat, i: nat :: NothingLeftAt(s, w, i)
  }

  lemma NobodyBusy<P(!new)>(c: Config, run: nat -> State<P>, n: nat, w: nat)
    requires OnlyPollsFrom(c, run, n) && Fair(run) && NeverDone(run)
    ensures !BusyAt(run(n), w)
  {
    assert EndsAfter(run, n, w);
    if BusyAt(run(n), w) {
      var j: nat :| n <= j && (!BusyAt(run(j), w) || DoneAt(run, j));
      AlikeFrom(c, run, n, j);
    }
  }

  /** Asking in vain for a piece the peer has means that somebody is busy. */
  lemma AskedInVain<P(!new)>(c: Config, s: State<P>, p: P, i: nat) returns (k: nat)
    requires ViewInv(c, s) && IsPick(s.view, c.window, p, None)
    requires i < |s.view.pieces| && !s.view.pieces[i].Done? && p in Holders(s.view.peers, i)
    ensures BusyAt(s, k)
  {
    NoStall(c, s, p, i, None);
    k :| k < |s.workers| && s.workers[k].pc.HasPiece();
  }

  lemma QuietRunHasViewInv<P(!new)>(
      c: Config, contents: seq<seq<byte>>, restored: seq<bool>, run: nat -> State<P>, k: nat)
    requires QuietRun(c, run) && Inv(c, contents, restored, run(0))
    ensures ViewInv(c, run(k))
  {
    QuietRunHasInv(c, contents, restored, run, k);
  }

  lemma PollFindsNothingAt<P(!new)>(c: Config, run: nat -> State<P>, n: nat, j: nat, w: nat, v: View<P>, p: P)
    requires OnlyPollsFrom(c, run, n) && n <= j && AsksAt(run(j), run(j + 1), w)
    requires v == run(j).view && p == run(j).workers[w].peer
    ensures IsPick(v, c.window, p, None)
  {
    assert PollsAt(c, run, j);
    PollFindsNothing(c, run(j), run(j + 1), w);
  }

  /** A live worker asks in the end. */
  lemma AsksLater<P(!new)>(c: Config, run: nat -> State<P>, n: nat, w: nat) returns (j: nat)
    requires OnlyPollsFrom(c, run, n) && Fair(run) && NeverDone(run) && LiveAt(run(n), w)
    ensures n <= j && AsksAt(run(j), run(j + 1), w)
    ensures run(j).view == run(n).view && run(j).workers[w].peer == run(n).workers[w].peer
  {
    assert PollsOn(run, n, w);
    NobodyBusy(c, run, n, w);
    j :| n <= j && (GoesOn(run, j, w) || DoneAt(run, j));
    AlikeFrom(c, run, n, j);
  }

  /** And in vain. */
  lemma AsksInVain<P(!new)>(c: Config, run: nat -> State<P>, n: nat, w: nat)
    requires OnlyPollsFrom(c, run, n) && Fair(run) && NeverDone(run) && LiveAt(run(n), w)
    ensures IsPick(run(n).view, c.window, run(n).workers[w].peer, None)
  {
    var j := AsksLater(c, run, n, w);
    PollFindsNothingAt(c, run, n, j, w, run(n).view, run(n).workers[w].peer);
  }

  lemma NothingFrom<P(!new)>(
      c: Config, contents: seq<seq<byte>>, restored: seq<bool>, run: nat -> State<P>, n: nat, w: nat, i: nat)
    requires QuietRun(c, run) && Inv(c, contents, restored, run(0))
    requires OnlyPollsFrom(c, run, n) && Fair(run) && NeverDone(run)
    ensures NothingLeftAt(run(n), w, i)
  {
    if !NothingLeftAt(run(n), w, i) {
      AsksInVain(c, run, n, w);
      QuietRunHasViewInv(c, contents, restored, run, n);
      var k := AskedInVain(c, run(n), run(n).workers[w].peer, i);
      NobodyBusy(c, run, n, k);
    }
  }

  lemma UndoneRunGetsEverything<P(!new)>(
      c: Config, contents: seq<seq<byte>>, restored: seq<bool>, run: nat -> State<P>)
    returns (n: nat)
    requires QuietRun(c, run) && Inv(c, contents, restored, run(0)) && Fair(run) && NeverDone(run)
    ensures NothingLeft(run(n))
  {
    WorkIsBounded(c, contents, restored, run);
    n :| OnlyPollsFrom(c, run, n);
    forall w: nat, i: nat ensures NothingLeftAt(run(n), w, i) {
      NothingFrom(c, contents, restored, run, n, w, i);
    }
  }

  /** Every fair download from a reachable state, quiet until it is done, comes to
      where it is done or whoever is still asked has nothing that is missing. */
  lemma FairRunGetsEverything<P(!new)>(
      c: Config, contents: seq<seq<byte>>, restored: seq<bool>, run: nat -> State<P>)
    returns (n: nat)
    requires QuietUntilDone(c, run) && Inv(c, contents, restored, run(0)) && Fair(run)
    ensures DoneAt(run, n) || NothingLeft(run(n))
  {
    if k: nat :| DoneAt(run, k) {
      n := k;
    } else {
      NeverDoneIsQuiet(c, run);
      n := UndoneRunGetsEverything(c, contents, restored, run);
    }
  }
}
