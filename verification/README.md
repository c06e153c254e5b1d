# A verified model of chorrent's download core

chorrent shares files between peers in verified 64 KiB pieces. This project
models the part that decides whether a download is right: which piece is asked
of whom, what happens to a reply, what ends up on disk, what is served onward,
what survives a restart, and how peers learn of each other's progress. It
proves properties of that model with Dafny.

Check it with `dafny verify dfyconfig.toml`.

## How it is built

| File | Models |
|---|---|
| `SchedulerSpec.dfy`, `SchedulerEffects.dfy`, `PickLaws.dfy`, `Scheduler.dfy` | the piece scheduler: a description of every operation that knows neither counters nor scan order, what each does to requests, bitmaps and pieces, and the class with the program's fields and loops, proved against it |
| `EngineSpec.dfy`, `EngineEffects.dfy`, `EngineSafety.dfy`, `EngineTermination.dfy`, `EngineProgress.dfy`, `EngineCompletion.dfy`, `EngineStraggler.dfy` | the swarm engine: workers, peers, strikes and blocking store tasks as a state machine; what each step does; what every run keeps; why the work ends and what it comes to; a run that ends badly |
| `Blocks.dfy`, `Layout.dfy` | cutting files into pieces, and numbering pieces across files |
| `Chunker.dfy` | hash trees over blocks, outboards, encoding and decoding one piece with its proof |
| `ShareSpec.dfy`, `ShareLaws.dfy`, `TornWrites.dfy`, `LocalShare.dfy` | the local share: its laws over values, also while blocks are being written, and the class whose methods change it in place |
| `Integers.dfy`, `Protocol.dfy` | frames and bit-packed piece lists |
| `Subscription.dfy` | replicating progress over a bounded, lossy broadcast |
| `StorageSpec.dfy`, `Storage.dfy`, `StoredFiles.dfy` | the encrypted store as a flat array of bytes, its readers and importer, and its place in the share model |
| `Limits.dfy` | the token bucket |
| `StoreSpec.dfy`, `Store.dfy`, `StoreRuns.dfy`, `StoreHistory.dfy` | the sealed database as a plain one, and its life across opens, keys and crashes |

Hashes are a free datatype: a leaf holds its block, a parent its two children,
so different inputs have different hashes. Ciphers, codecs, the keyed hash of
record names and random nonces are parameters with the laws they need stated
as predicates (`Lawful`). Peers are arbitrary: an `Answer` action may carry any
reply at all, and any `Have` or bitfield may arrive at any time.

## What is proved

* **Safety of every run** (`DoneMeansTrue`, `ClaimedEncodesIff`, `DoneMeansVerified`).
  However workers, duplicates, bad data, disconnects and bitfield resends
  interleave, a piece the scheduler calls Done is claimed, and a claimed piece is
  provable. It is on disk, equal to the committed bytes, and can be served; and
  once the scheduler is done every file verifies: both exactly unless a piece of
  an encrypted file is just then being written a second time, or such a write
  broke off. Store tasks that go on after their connection is lost are included.
  `DownloadIsTheShare` is the whole path, from whatever files and saved state there
  are.
* **Bounded work** (`WorkIsBounded`). Without joins, announcements, Busy replies
  and task failures, every infinite run ends in idle polling.
* **Completion** (`DownloadCompletes`). If besides workers keep asking and no request
  is left for ever, one peer that stays, has what is missing and answers truly, at
  first perhaps that it is busy, is enough for the download to be done in the end,
  whatever the others send. Without such a peer it is done or comes to where nobody
  still asked has what is missing (`FairRunGetsEverything`).
* **Exact effects**: for every step of the engine and every operation of the
  scheduler, what it does to requests, bitmaps, strikes, workers and files, and that
  it does nothing else (`AnswerEffect`, `FailedEffect`, `PickEffect` and the others
  of `EngineEffects` and `SchedulerEffects`).
* **No stall** (`NoStall`) and **byte conservation** (`ReportsAddUp`).
* **Onward serving** (`ServeLaw`, `RelayDelivers`): what is held can be passed
  along any chain of peers. **Resume** is sound for any saved state and any disk
  (`RestoreSoundIff`, `ResumeIsSound`) and loses nothing it can still check, though
  the saved state was collected while pieces were being stored
  (`ResumeIsComplete`, `ResumeLosesNothing`).
* **The scheduler** refines a declarative description of `pick`, which
  determines its answer (`Scheduler.Pick`, `PickIsUnique`, `PickNothingIff`).
* **Progress subscription** (`ReplicaIsFaithful`, `DrainsToFaithful`).
* **Encrypted storage** is a flat array (`Encrypted.ReadExactAt`,
  `Encrypted.WriteAllAt`), also in a file whose set-up was interrupted.
* **Rate limit**: both that no window exceeds the rate by more than one burst
  (`RateBound`) and that nobody waits longer than that demands
  (`ReturnsAsSoonAsAllowed`).
* **Sealed database**: the same answers as a plain one in every run
  (`SealedAnswersAsPlain`), and in every history one owner
  (`RecordsAreNeverMixed`, `OwnedForGood`).

Five properties hold only under a condition, which the model states exactly, with
an input for which they fail:

* A finished download verifies, and a claimed piece can be served, only while no
  straggler is writing that piece again. `store_piece` looks whether the piece is
  there before it takes the writer's lock (crates/chorrent/src/local.rs:381-388),
  so two stores of one piece can both go on to write it; the second seals an
  encrypted slot anew in place while readers, who take no lock, may read it.
  `DoneMeansVerified` and `ClaimedEncodesIff` are exact; `DoneNeedNotVerify` is a
  run to such a state, in which one peer resent its bitfield.
* `restore_progress` (crates/chorrent/src/local.rs:432-472) replaces the whole
  outboard of a file it looks at, so on a share that already claims some but not
  all pieces of that file it can spoil the proofs of claimed pieces.
  `RestoreSoundIff` says precisely when the result is sound; straight after
  `for_download`, where the program uses it, it always is (`ResumeIsSound`).
  `ResumeCanSpoilAProof` is a share that suffers.
* An encrypted block sealed under the all-zero nonce reads as never written
  (crates/chorrent/src/storage.rs:252, 288). `ReadsBackIff` gives the exact
  condition, `ZeroNonceLosesABlock` a case; the flat-array theorems assume the
  random source never yields it.
* A frame body over 16 MiB is written but cannot be read back, and one over
  4 GiB is written with a wrong length (crates/chorrent/src/protocol.rs:60, 83-84):
  `FrameRoundTripIff`, `OversizedFrameExample`.
* `pack_bits` undoes `unpack_bits` only on input of the right length with zero
  padding: `UnpackThenPackIff`, `SpareBitIsLost`.

"Never ask this peer for this piece again"
(crates/chorrent/src/download.rs:702) is only true until a later announcement;
the model follows the code. A bitfield resend removes the peer first, so
requests that are really outstanding stop being tracked
(crates/chorrent/src/scheduler.rs:67-75). The invariant therefore says that every
tracked request has an outstanding one, and not the converse.

## Model

| member | source | states |
|---|---|---|
| `EngineSafety.StepKeepsInv` | crates/chorrent/src/download.rs:550-748 | every action of any interleaving keeps: scheduler state well-formed, each tracked request really outstanding, one writer for each file, every claimed piece provable and written but for unfinished writes, each store stage true, Done pieces claimed, reports exact |
| `EngineEffects.AnswerEffect` | crates/chorrent/src/download.rs:673-738 | of every reply: a piece is passed on with nothing else changed; any other ends this request and no other and frees the worker; DontHave takes exactly this bit; Busy changes neither bits nor strikes; NotFound means three strikes, a failure one more |
| `EngineEffects.RefusedEffect` | crates/chorrent/src/download.rs:701-709 | bad data or a failed store: exactly this request and this bit go and the peer gets a strike; without its connection the job just ends |
| `EngineEffects.TaskFailedEffect` | crates/chorrent/src/download.rs:710-716 | a job that dies ends exactly this request; bits and strikes stay |
| `EngineEffects.StoreCheckEffect` | crates/chorrent/src/local.rs:381-386 | a piece claimed by now counts as stored, any other goes on, and nothing else changes |
| `EngineEffects.BeginEffect` | crates/chorrent/src/local.rs:387-409 | for an accepted piece only its block changes, and of an encrypted file it cannot be read meanwhile |
| `EngineEffects.WriteEffect` | crates/chorrent/src/local.rs:387-409 | only files change, only this file, and then only this block, which now reads as what was decoded |
| `EngineEffects.ProofEffect` | crates/chorrent/src/local.rs:409-415 | only the places in this file's outboard that the proof names change |
| `EngineEffects.MarkEffect` | crates/chorrent/src/local.rs:420-428 | exactly this piece is claimed as well |
| `EngineEffects.ReportEffect` | crates/chorrent/src/download.rs:683-700 | exactly this piece becomes Done, its requests end, the strikes are forgiven, and it is reported exactly if it was not Done; without its connection nothing of that |
| `EngineEffects.CheckEffect` | crates/chorrent/src/download.rs:653-656 | a worker stops exactly if every piece is Done or its peer has three strikes |
| `EngineEffects.PickStepEffect` | crates/chorrent/src/download.rs:658-672 | the one request made is the one recorded, and the worker waits for that piece, or asks again later |
| `EngineEffects.SpawnEffect` | crates/chorrent/src/download.rs:640-647 | exactly one more worker |
| `EngineEffects.RegisterEffect` | crates/chorrent/src/download.rs:589-612 | the peer has exactly what it announces, no strikes and eight workers; all requests to others stay |
| `EngineEffects.BitfieldEffect` | crates/chorrent/src/download.rs:623-628 | a resent bitfield replaces exactly the peer's bits, its requests stop being tracked, those to others and all workers stay |
| `EngineEffects.HaveEffect` | crates/chorrent/src/download.rs:618-622 | one bit is added, if there is such a piece |
| `EngineEffects.DisconnectEffect` | crates/chorrent/src/download.rs:556-560 | the peer's bits, strikes, requests and workers go, but what is being stored goes on; nothing of other peers changes |
| `EngineEffects.AnythingMayHappen` | crates/chorrent/src/download.rs:615-738 | peers are arbitrary: any reply to any request, any bitfield and update, leaving at any time, and any job dying |
| `EngineEffects.WorkerCanStep` | crates/chorrent/src/download.rs:652-740 | no deadlock: a worker that has not stopped can go on, unless another holds the writer of its file, and that one can |
| `EngineSafety.DoneMeansTrue` | crates/chorrent/src/download.rs:652-740 | in every reachable state Done implies claimed, and a claimed piece is provable, and committed and on disk exactly unless a write of it to an encrypted file is unfinished |
| `EngineSafety.ClaimedEncodesIff` | crates/chorrent/src/local.rs:371-418 | in every reachable state a claimed piece encodes, truly, exactly unless such a write is unfinished and the piece is not all zeros |
| `EngineSafety.DoneMeansVerified` | crates/chorrent/src/local.rs:485-492 | once the scheduler is done a file verifies, and is then the shared one byte for byte, exactly if it is plain or no write to it is unfinished |
| `EngineSafety.SettledMeansVerified` | crates/chorrent/src/local.rs:485-492 | done, with no write under way and none broken off, every file verifies and is the shared one |
| `EngineSafety.DownloadIsTheShare` | crates/chorrent/src/local.rs:223-269 | for any files on disk, any saved outboards and any run from the share set up and restored from them: done and settled, every file is the shared one |
| `EngineStraggler.DoneNeedNotVerify` | crates/chorrent/src/local.rs:380-418 | every encrypted share of one missing piece has a run to a state that is done and does not verify: two workers passed the check for the piece before either claimed it |
| `TornWrites.BeginStage` | crates/chorrent/src/local.rs:387-409 | while a true block is being written whatever else had landed stays readable, and so does that block in a plain file that had it |
| `TornWrites.EndStage` | crates/chorrent/src/local.rs:387-409 | once written it is on disk, and nothing else is lost |
| `TornWrites.EncodesIff` | crates/chorrent/src/local.rs:371-376 | which claimed pieces encode while writes are unfinished |
| `TornWrites.FileVerifiesIff` | crates/chorrent/src/local.rs:485-492 | which complete files verify while writes are unfinished |
| `EngineSafety.ResumeLosesNothing` | crates/chorrent/src/local.rs:557-562 | outboards saved file by file while stores go on: a piece claimed before saving began and found on disk after a restart is claimed again |
| `EngineSafety.NoStall` | crates/chorrent/src/download.rs:654-666 | while a registered peer holds a piece not Done, a request for an unfinished piece is out or `pick` gives that peer something |
| `EngineSafety.ReportsAddUp` | crates/chorrent/src/download.rs:683-695 | in a finished download each piece not restored was reported exactly once, and restored plus reported bytes are the total size |
| `EngineSafety.CompleteReportsAddUp` | crates/chorrent/src/download.rs:212-222 | the Resumed bytes and the bytes of one report for each other piece add up to the manifest's total size |
| `EngineTermination.QuietDecreases` | crates/chorrent/src/download.rs:652-740 | every action other than joins, announcements, Busy and task failures lowers an eight-part lexicographic measure, except idle polling, which keeps it |
| `EngineTermination.WorkIsBounded` | crates/chorrent/src/download.rs:652-740 | every infinite run of such actions is from some point on only idle polling |
| `EngineCompletion.DownloadCompletes` | crates/chorrent/src/download.rs:652-740 | a fair download in which one peer stays registered with every missing piece, answers truly or is busy, and has its stores succeed is done in the end, whatever all other peers send, if joins, announcements, Busy replies and lost jobs are finitely many |
| `EngineCompletion.HonestCanStep` | crates/chorrent/src/download.rs:652-740 | with such a peer a step is always possible that keeps to that |
| `EngineCompletion.RegisteredProvides` | crates/chorrent/src/download.rs:589-612 | a peer whose first bitfield has every piece is such a peer |
| `EngineProgress.FairRunGetsEverything` | crates/chorrent/src/download.rs:652-740 | every fair download, quiet until it is done, comes to where it is done or no peer with a live worker has a piece that is not Done |
| `EngineTermination.StrikeDecreases` | crates/chorrent/src/download.rs:724-737 | a failed request uses up a strike, or one of the last chances of a struck-out peer |
| `EngineTermination.LacksDecreases` | crates/chorrent/src/download.rs:701-719 | a piece a peer turns out to lack costs it a bit, or ends a request it was not believed to hold |
| `Scheduling.PickWellFormed` | crates/chorrent/src/scheduler.rs:102-156 | what `pick` chooses is held by the peer, not Done and not already asked of it, and the request lists stay non-empty, duplicate-free, at most 3 long and among holders |
| `Scheduling.PickIsUnique` | crates/chorrent/src/scheduler.rs:102-156 | the declarative description (urgent window, rarest of the first 64, least duplicated) determines the choice |
| `Scheduling.PickExists` | crates/chorrent/src/scheduler.rs:102-156 | there always is an answer that fits the description |
| `Scheduling.PickNothingIff` | crates/chorrent/src/scheduler.rs:102-156 | nothing is picked exactly when the peer holds no missing piece and no in-flight piece may be duplicated |
| `Scheduling.ChampionIsRarest` | crates/chorrent/src/scheduler.rs:111-130 | stopping the rarest-first scan at 64 samples or at availability 1 never changes its answer |
| `SchedulerEffects.PickEffect` | crates/chorrent/src/scheduler.rs:146-156 | exactly the request for the chosen piece to this peer is added, no other piece changes, and it was not asked of this peer before |
| `SchedulerEffects.PicksDiffer` | crates/chorrent/src/scheduler.rs:132-144 | two picks by one peer with nothing in between never give the same piece |
| `SchedulerEffects.NeverPickedTwice` | crates/chorrent/src/scheduler.rs:132-144 | nor do any two, if that request is still tracked |
| `SchedulerEffects.FailedEffect` | crates/chorrent/src/scheduler.rs:178-197 | exactly this peer's request for the piece goes, the piece becomes missing exactly if nobody else was asked, and exactly this bit goes if the peer lacks it |
| `SchedulerEffects.RemovePeerEffect` | crates/chorrent/src/scheduler.rs:88-100 | exactly this peer's requests go, and a piece becomes missing exactly if it was asked of nobody else |
| `SchedulerEffects.AddPeerEffect` | crates/chorrent/src/scheduler.rs:67-75 | the same, and who holds what is as before but for this peer, which holds what it announces |
| `SchedulerEffects.SetPeerHasEffect` | crates/chorrent/src/scheduler.rs:77-86 | exactly one holder is added, of a registered peer and a piece there is |
| `SchedulerEffects.CompleteEffect` | crates/chorrent/src/scheduler.rs:159-174 | exactly this piece becomes Done and its requests end |
| `PickLaws.FirstOpenPieceFirst` | crates/chorrent/src/scheduler.rs:107-109 | with any window a peer is asked for the first open piece if it has it and nobody was |
| `PickLaws.WindowBeforeRarest` | crates/chorrent/src/scheduler.rs:102-130 | of two pieces the first if the window reaches it, else the one another peer lacks |
| `PickLaws.RarestOfTheFirst` | crates/chorrent/src/scheduler.rs:111-130 | the rarest of all pieces outside the window is chosen exactly if it is among the first 64 |
| `PickLaws.EndgameOnce` | crates/chorrent/src/scheduler.rs:132-156 | the last piece is asked of up to three peers, of none twice |
| `PickLaws.FewestRequestsFirst` | crates/chorrent/src/scheduler.rs:132-144 | of two pieces in flight the one with fewer requests |
| `Scheduling.AddPeerWellFormed` | crates/chorrent/src/scheduler.rs:67-75 | registering, also again, keeps request lists to registered holders |
| `Scheduling.RemovePeerWellFormed` | crates/chorrent/src/scheduler.rs:88-100 | removing a peer leaves no request list naming it and none empty |
| `Scheduling.FailedWellFormed` | crates/chorrent/src/scheduler.rs:178-197 | giving a piece back keeps the request lists well-formed, also when the peer loses the piece |
| `Scheduling.DoneCountFull` | crates/chorrent/src/scheduler.rs:63-65 | the done counter equals the number of pieces exactly when all are Done |
| `PieceScheduler.Scheduler.constructor` | crates/chorrent/src/scheduler.rs:44-61 | counters, playhead and piece states agree with the restored list |
| `PieceScheduler.Scheduler.AddPeer` | crates/chorrent/src/scheduler.rs:67-75 | with all counters exact, the new state is the old one without the peer's requests and with its bitmap |
| `PieceScheduler.Scheduler.RemovePeer` | crates/chorrent/src/scheduler.rs:88-100 | the peer's bitmap and all its requests go, counters stay exact |
| `PieceScheduler.Scheduler.Pick` | crates/chorrent/src/scheduler.rs:102-156 | the loops with their early exits choose the piece the description demands and record the request |
| `PieceScheduler.Scheduler.Complete` | crates/chorrent/src/scheduler.rs:159-174 | true exactly the first time; counters and playhead stay exact |
| `PieceScheduler.Scheduler.Failed` | crates/chorrent/src/scheduler.rs:178-187 | only this peer's request goes, and its bit if it lacks the piece |
| `PieceScheduler.Scheduler.FirstUrgent` | crates/chorrent/src/scheduler.rs:107-109 | the lowest wanted piece in the window, or that there is none |
| `PieceScheduler.Scheduler.RarestSampled` | crates/chorrent/src/scheduler.rs:111-130 | the rarest sampled piece, lowest index on a tie, or that nothing is wanted |
| `PieceScheduler.Scheduler.LeastAsked` | crates/chorrent/src/scheduler.rs:132-144 | the in-flight piece with fewest requests this peer may join, lowest index on a tie, or that there is none |
| `Layouts.SearchLands` | crates/chorrent/src/manifest.rs:344-354 | for a real piece the binary search alone lands on the non-empty file that has it |
| `Layouts.LocateInvertsPiecesOf` | crates/chorrent/src/manifest.rs:344-364 | a piece number is in a file's range exactly when `locate` gives that file |
| `Layouts.LocateRange` | crates/chorrent/src/manifest.rs:344-359 | the located range is the piece's block: non-empty, at its place, inside the file |
| `Layouts.PiecesTileFiles` | crates/chorrent/src/manifest.rs:329-364 | every byte of every file is in exactly one piece, whatever empty files lie around it |
| `Layouts.AllPiecesAreAllBytes` | crates/chorrent/src/manifest.rs:98-100 | the piece lengths add up to the total size |
| `Layouts.PieceExistsIff` | crates/chorrent/src/manifest.rs:329-364 | a piece number is below the layout's total exactly if some file has that piece |
| `Layouts.ThreeFiles` | crates/chorrent/src/manifest.rs:329-364 | total, locations and ranges of three files, one of them empty |
| `Layouts.New` | crates/chorrent/src/manifest.rs:330-341 | first piece numbers are the pieces of the files before, and the total is all of them |
| `Blocks.NumBlocksIsDivCeil` | crates/chorrent/src/manifest.rs:74-76 | the number of pieces of a file, defined block by block, is the rounded-up division |
| `Chunker.LeftLeavesIff` | crates/chorrent/src/chunker.rs:47-62 | the left subtree has the one power of two of leaves that is less than all and at least half |
| `Chunker.TreeOfThree` | crates/chorrent/src/chunker.rs:47-62 | the root of three blocks, written out |
| `Chunker.PreOrder` | crates/chorrent/src/chunker.rs:47-62 | an outboard has a tree's own pair, then those of its left and then those of its right subtree |
| `Chunker.EmptyProvesNothing` | crates/chorrent/src/chunker.rs:158-179 | an outboard that was never filled proves no piece of a file of several |
| `Chunker.ApplyKeeps` | crates/chorrent/src/chunker.rs:158-163 | merging a proof changes only the places it names |
| `Chunker.EncodeIff` | crates/chorrent/src/chunker.rs:110-130 | a block encodes exactly if it and its whole root path are right, and then to the honest encoding |
| `Chunker.DecodeIff` | crates/chorrent/src/chunker.rs:134-156 | the decoder accepts exactly the true pairs and the true block, and records just those pairs |
| `Chunker.ApplyMakesPathOk` | crates/chorrent/src/chunker.rs:158-163 | merging a verified proof makes its path right and spoils no other |
| `Chunker.ValidIffEncodes` | crates/chorrent/src/chunker.rs:167-179 | a block is reported valid exactly if it would encode |
| `Chunker.RootInjective` | crates/chorrent/src/chunker.rs:47-62 | blocks with the same root are the same blocks |
| `ShareLaws.StoreLaw` | crates/chorrent/src/local.rs:380-418 | storing succeeds exactly for a held piece or the true encoding, keeps the share sound, claims that piece and loses nothing |
| `ShareLaws.StoreTouchesOnly` | crates/chorrent/src/local.rs:380-418 | storing changes at most this block, this claim and this file's outboard |
| `ShareLaws.ServeIff` | crates/chorrent/src/local.rs:371-376 | a piece encodes exactly if its block reads true and its path is right |
| `ShareLaws.ServeLaw` | crates/chorrent/src/handler.rs:98-129 | a claimed piece always encodes, and to the honest encoding |
| `ShareLaws.RelayDelivers` | crates/chorrent/src/local.rs:371-418 | a held piece reaches every peer of a chain of any length, whatever else they hold |
| `ShareLaws.NewShareIsSound` | crates/chorrent/src/local.rs:223-269 | a share set up for download claims only true pieces, and files whole or not at all |
| `ShareLaws.NewShareClaimsIff` | crates/chorrent/src/local.rs:223-269 | a piece is claimed at the start exactly if its file existed as a plain one whose every block on disk is the committed one |
| `ShareLaws.RestoreClaimsIff` | crates/chorrent/src/local.rs:432-472 | a piece is claimed after resuming exactly if it was, or its file was incomplete, has a saved outboard of the right size, and has the block on disk with its path right in that |
| `ShareLaws.RestoreSoundIff` | crates/chorrent/src/local.rs:432-472 | for any saved outboards and any disk, exactly when the share after resuming is sound |
| `ShareLaws.ResumeCanSpoilAProof` | crates/chorrent/src/local.rs:440-443 | a sound share, half of whose only file is claimed, and an empty saved outboard after which it is no longer sound |
| `ShareLaws.ResumeIsSound` | crates/chorrent/src/local.rs:432-472 | after `for_download` it is sound whatever was saved and whatever is on disk, so strict reads of claimed pieces succeed |
| `ShareLaws.ResumeIsComplete` | crates/chorrent/src/local.rs:432-472 | a piece on disk is claimed again if it was provable in the share its file's outboard was saved from, whatever was saved for other files |
| `ShareLaws.VerifiesIff` | crates/chorrent/src/local.rs:485-492 | a file verifies exactly when every block is written and committed, and its bytes are then the shared ones |
| `ShareLaws.CompleteVerifies` | crates/chorrent/src/local.rs:485-492 | a file of a sound share whose pieces are all claimed verifies |
| `Shares.WriteStage` | crates/chorrent/src/local.rs:387-408 | writing a decoded block puts it on disk and takes nothing away from any other piece |
| `Shares.ProofStage` | crates/chorrent/src/local.rs:409-415 | saving its proof then makes the piece provable and takes nothing away |
| `LocalShares.LocalShare.StorePiece` | crates/chorrent/src/local.rs:380-418 | run alone, the method does what the law is about; true exactly for a new piece, announced once |
| `LocalShares.LocalShare.ApplyProof` | crates/chorrent/src/chunker.rs:158-163 | saving pair by pair is the merge of the proof |
| `LocalShares.LocalShare.MarkHave` | crates/chorrent/src/local.rs:420-428 | claims the piece and announces it exactly if it was not claimed |
| `LocalShares.LocalShare.EncodePiece` | crates/chorrent/src/local.rs:371-376 | the encoding the serving law is about |
| `LocalShares.LocalShare.ForDownload` | crates/chorrent/src/local.rs:223-269 | the new share, file by file |
| `LocalShares.LocalShare.RestoreProgress` | crates/chorrent/src/local.rs:432-472 | the loop over files and pieces, with byte ranges, gives the share the resume laws are about |
| `LocalShares.LocalShare.ReadRange` | crates/chorrent/src/local.rs:509-523 | unavailable exactly for no such or an unfinished file, unreadable exactly if a touched block was never written, else the clamped slice |
| `LocalShares.LocalShare.Verify` | crates/chorrent/src/local.rs:485-492 | succeeds only if every file verifies, else names one that does not |
| `LocalShares.FinishedFileReadsTrue` | crates/chorrent/src/local.rs:509-523 | on a sound share any range of a finished file is readable: nothing past the end, else as many bytes as asked for and there are, byte k being the shared one at offset + k |
| `LocalShares.RangesOf` | crates/chorrent/src/chunker.rs:167-179 | the byte ranges, rounded out to chunks, cover exactly the valid blocks |
| `Subscription.StepKeepsInv` | crates/chorrent/src/handler.rs:133-160 | every step of marking, broadcasting, subscribing, lagging and delivering keeps the accounting of every claimed piece, and the peer's list never shrinks |
| `Subscription.ReplicaIsFaithful` | crates/chorrent/src/handler.rs:133-160 | in every run the peer believes only what we have, each piece is broadcast at most once, and once drained it believes exactly what we have |
| `Subscription.NotDrainedCanStep` | crates/chorrent/src/handler.rs:142-158 | unless everything is drained there is a step to take |
| `Subscription.DrainsToFaithful` | crates/chorrent/src/handler.rs:142-158 | with no more pieces marked, any run of such steps reaches the state where the peer believes exactly what we have, in spite of lag |
| `Subscription.SnapshotKeepsInv` | crates/chorrent/src/handler.rs:147 | a resent bitfield takes nothing back |
| `Subscription.SnapshotEffect` | crates/chorrent/src/handler.rs:147 | once it arrives the peer believes exactly what we have when it is sent |
| `Subscription.ReceiveKeepsInv` | crates/chorrent/src/handler.rs:144-147 | taking the next update, or falling behind 4096 of them, loses no piece |
| `Subscription.ReceiveEffect` | crates/chorrent/src/handler.rs:144-147 | an update adds exactly its piece to what the peer will believe; exactly a reader more than 4096 behind gets nothing and owes a snapshot instead |
| `Protocol.FrameRoundTripIff` | crates/chorrent/src/protocol.rs:52-100 | a frame reads back as its message, leaving what follows, exactly if its body is at most 16 MiB |
| `Protocol.OversizedFrameFails` | crates/chorrent/src/protocol.rs:83-88 | a larger frame, below the lengths that wrap around, is refused |
| `Protocol.OversizedFrameExample` | crates/chorrent/src/protocol.rs:83-88 | a codec and a body one byte over the limit, which is refused |
| `Protocol.FrameBytes` | crates/chorrent/src/protocol.rs:52-67 | a frame is its body's length in four bytes, lowest first, and the body |
| `Protocol.ReadFrameIff` | crates/chorrent/src/protocol.rs:69-100 | a read ends cleanly exactly on an empty stream, and gives a message exactly if length and body are there, within the limit, and the body decodes to it; anything else is an error |
| `Protocol.StreamRoundTrip` | crates/chorrent/src/protocol.rs:52-100 | any list of sendable messages reads back as that list and a clean end |
| `Protocol.CutStream` | crates/chorrent/src/protocol.rs:69-100 | a stream cut anywhere gives exactly the complete messages, then an error unless the cut is between frames |
| `Protocol.RecvStream.ReadFrame` | crates/chorrent/src/protocol.rs:70-100 | the method reads and consumes what the stream theorems say |
| `Protocol.SendStream.WriteFrame` | crates/chorrent/src/protocol.rs:52-67 | appends exactly one frame |
| `Protocol.BitsRoundTrip` | crates/chorrent/src/protocol.rs:113-126 | unpacking what was packed gives the list back |
| `Protocol.UnpackedIs` | crates/chorrent/src/protocol.rs:121-126 | for any input, short or long, piece i is bit i % 8, lowest first, of byte i / 8, or absent |
| `Protocol.TenBits` | crates/chorrent/src/protocol.rs:113-126 | ten pieces as two bytes, and input that is too short |
| `Protocol.UnpackThenPackIff` | crates/chorrent/src/protocol.rs:113-126 | packing what was unpacked gives the bytes back exactly for zero-padded input of the right length |
| `Protocol.SpareBitIsLost` | crates/chorrent/src/protocol.rs:113-126 | a byte with a spare bit set does not come back |
| `Protocol.PackBits` | crates/chorrent/src/protocol.rs:113-119 | setting bit after bit gives the bytes whose bits are the list |
| `Slots.SlotsAreApart` | crates/chorrent/src/storage.rs:9-11 | slots overlap neither each other nor the header and end inside the preallocated file |
| `Slots.SealEffectIff` | crates/chorrent/src/storage.rs:305-322 | sealing a block into a file of any length changes that slot, and no other exactly if the zeros that fill a gap make up no block; under the all-zero nonce it then reads as never written |
| `Slots.SealedFormat` | crates/chorrent/src/storage.rs:305-322 | where the nonce and what was encrypted are in the file |
| `Slots.MovedSlotIsEmpty` | crates/chorrent/src/storage.rs:289-303 | a sealed block copied to another slot does not read there |
| `Slots.SlotEndIsClean` | crates/chorrent/src/storage.rs:131-145 | a file that ends where a slot starts, as after an interrupted set-up, or that has all slots, is never completed to a block by zeros |
| `Slots.SealKeepsEnd` | crates/chorrent/src/storage.rs:305-322 | that stays so, and the header is not touched |
| `Slots.ReadsBackIff` | crates/chorrent/src/storage.rs:241-323 | a sealed block counts as written exactly if its nonce is not all zeros, and the flat file has its bytes exactly then or if they are zeros |
| `Slots.ZeroNonceLosesABlock` | crates/chorrent/src/storage.rs:252-254 | a one-byte file whose block is sealed under the zero nonce does not read back |
| `Slots.FlatPatch` | crates/chorrent/src/storage.rs:305-322 | changing a slot is writing its bytes at the block's place in the flat file |
| `Slots.FlatOfNothing` | crates/chorrent/src/storage.rs:115-146 | a store without blocks is all zeros |
| `Slots.EmptyStoreHasNothing` | crates/chorrent/src/storage.rs:131-145 | a file with only zeros after the header, however long, has no block |
| `Storage.Encrypted.WriteBlock` | crates/chorrent/src/storage.rs:305-323 | one slot and the flat file change as stated, the header does not, and the file grows only if it lacked the slot |
| `Storage.Encrypted.ReadBlock` | crates/chorrent/src/storage.rs:268-303 | the block's bytes of the flat file; an error exactly if strict and never written |
| `Storage.Encrypted.WrittenPieces` | crates/chorrent/src/storage.rs:193-205 | exactly the blocks that were written and decrypt |
| `Storage.Encrypted.ReadAt` | crates/chorrent/src/storage.rs:326-342 | the flat file's bytes up to the end of the block, nothing past the end, an error exactly if strict and unwritten |
| `Storage.Encrypted.ReadExactAt` | crates/chorrent/src/storage.rs:326-342 | looped reads succeed exactly inside the file (and, if strict, on written blocks only) and give that slice of the flat file |
| `Storage.Encrypted.WriteAt` | crates/chorrent/src/storage.rs:345-371 | patches the flat file up to the end of the block, whole or part of it, and marks just that block written |
| `Storage.Encrypted.WriteAllAt` | crates/chorrent/src/storage.rs:345-371 | looped writes patch the flat file with all the bytes, or with those that fit and then an error |
| `Storage.Preallocate` | crates/chorrent/src/storage.rs:116-146 | keeps a file that has a header, else header and zeros to the full length; without more than a header there it can be written to |
| `Storage.Open` | crates/chorrent/src/storage.rs:161-187 | succeeds exactly on our header, with the key of its salt, and can be written to if it ends at a slot |
| `Storage.SequentialReader.ReadToEnd` | crates/chorrent/src/storage.rs:381-392 | succeeds exactly if not strict or every block was written, and gives the whole file, whatever the buffer size |
| `Storage.Handle.WriteAllAt` | crates/chorrent/src/storage.rs:344-371 | an import's destination, plain or encrypted, gets the bytes after what is there, exactly if it has room |
| `Storage.ImportingReader.Read` | crates/chorrent/src/storage.rs:424-436 | however the source splits its bytes, whole blocks are stored, less than one is pending, and together they are what went through |
| `Storage.ImportingReader.Finish` | crates/chorrent/src/storage.rs:414-421 | succeeds exactly if there is room, and the file then begins with exactly what went through |
| `StoredFiles.FileBytesAreFlat` | crates/chorrent/src/storage.rs:268-303 | a share's encrypted file is byte for byte the store's flat file |
| `StoredFiles.WritingAPieceSeals` | crates/chorrent/src/storage.rs:305-323 | storing a piece in the share is sealing it in the store, exactly under any nonce but the all-zero one |
| `Limits.RateBound` | crates/chorrent/src/limits.rs:23-41 | calls return in lock order and no window passes more than the rate allows plus one second's burst, however large single calls are |
| `Limits.ReturnsAsSoonAsAllowed` | crates/chorrent/src/limits.rs:23-41 | a call returns at exactly the first time that keeps every window up to it within the rate |
| `Limits.FourSeconds` | crates/chorrent/src/limits.rs:23-41 | when four calls for a second's worth each return |
| `Limits.RateLimiter.Acquire` | crates/chorrent/src/limits.rs:23-41 | the bucket and the wait are those the two laws are about |
| `Records.Sealer.NameIsInjective` | crates/chorrent/src/store.rs:121-127 | different records of any tables have different stored names |
| `Records.Sealer.MovedRecordIsRefused` | crates/chorrent/src/store.rs:129-170 | a sealed record moved to another table or name does not open there |
| `Records.GetRefines` | crates/chorrent/src/store.rs:300-317 | a lookup in a sealed or plain database finds exactly the record of that name |
| `Records.PutRefines` | crates/chorrent/src/store.rs:319-329 | a put changes exactly that record |
| `Records.RemoveRefines` | crates/chorrent/src/store.rs:331-342 | a removal removes exactly that record |
| `Records.HasRecordsIff` | crates/chorrent/src/store.rs:252-272 | entries other than the markers exist exactly if there are records |
| `Stores.Store.Get` | crates/chorrent/src/store.rs:300-317 | on any database a damaged entry and one of another name are told from none; on one that stands for records the answer is the plain map's and never an error |
| `Stores.Store.Remove` | crates/chorrent/src/store.rs:331-342 | the plain map without that name in those tables |
| `Stores.Store.Entries` | crates/chorrent/src/store.rs:345-357 | of any table every entry exactly once, or an error exactly if one does not read; of any but META exactly its records, by their real names |
| `Stores.Store.Forget` | crates/chorrent/src/store.rs:530-538 | exactly the share's records go, and PROGRESS only where DOWNLOADS has an entry |
| `Stores.ForgetTakesItsOwn` | crates/chorrent/src/store.rs:530-538 | that is every record of the share, and of its downloads into any folder |
| `Stores.ForgetSparesOthers` | crates/chorrent/src/store.rs:530-538 | and none of any other share, though its id begins the same |
| `StoreRuns.SealedAnswersAsPlain` | crates/chorrent/src/store.rs:300-357 | any run of get, put, remove, entries and forget gets the same answers sealed as plain |
| `StoreRuns.StepRefines` | crates/chorrent/src/store.rs:300-357 | each operation, as a function of the database, answers as the plain map and refines what it does to that |
| `StoreRuns.DoAll` | crates/chorrent/src/store.rs:300-357 | the store's own methods, in any sequence, answer as the plain map |
| `StoreRuns.ForgetIsAfterForget` | crates/chorrent/src/store.rs:530-538 | what goes does not depend on how the database is stored |
| `StoreHistory.WhoGetsIn` | crates/chorrent/src/store.rs:220-249 | opening succeeds exactly for the owner's key, or for any on an unowned database without records |
| `StoreHistory.WhyRefused` | crates/chorrent/src/store.rs:220-249 | which refusal whom: a wrong key, none where one is needed, one where there are plain records |
| `StoreHistory.NewerIsLeftAlone` | crates/chorrent/src/store.rs:226-231 | in every history a database that a newer version took over stays as that left it, through any opens and crashes with whatever keys |
| `StoreHistory.StepKeepsInv` | crates/chorrent/src/store.rs:220-249 | opens, the two marker writes, puts, removals and crashes keep one owner for all records |
| `StoreHistory.RecordsAreNeverMixed` | crates/chorrent/src/store.rs:18-19 | in every history, until a newer version takes over, all records read back for whoever has it open, and no other key gets in while there are any |
| `StoreHistory.OwnedForGood` | crates/chorrent/src/store.rs:238-246 | once set up with a key, a database opens with that key and no other ever after, and with none once a newer version took it over |

## Left out

- connections, QUIC streams, dialling, timeouts, relays and peer discovery: input and output; peers are arbitrary actions, streams are byte sequences, and the subscription's stream is an in-order queue of messages.
- `PeerTracker`, `requests_for` and the resize timer: any number of workers up to 48 may be spawned at any time.
- waking and fairness of the scheduler of tasks: a worker may poll whenever it is idle. That workers keep asking and requests end is what the progress theorems assume.
- a disconnect is one step (workers abort, the peer is removed), and resetting or adding a strike happens together with the scheduler section next to it.
- the internals of BLAKE3, bao-tree, XChaCha20-Poly1305, postcard and redb: hashes are free constructors without chunk counters and root flags, encoding a piece is a list of pairs and the block, ciphers and codecs are parameters, a transaction is one step. bao-tree is not part of this model; encoding, decoding and valid ranges have the meaning of checking every pair from the root down.
- a decode that is refused half-way: the pairs and the block are checked before anything of the block is written.
- integer widths: counters and sizes are unbounded. Availability is at most 32 (MAX_PEERS) where the program uses u32, and piece numbers are truncated to 32 bits in the subscription, whose theorems assume at most 2^32 pieces.
- Subscription.ReplicaIsFaithful: the peer's list is what the messages say. The downloader's bitmap also loses a piece when a request for it is refused (crates/chorrent/src/scheduler.rs:180-186), until the piece is announced again; that is part of the engine's state machine, not of this one.
- a bitfield longer than 16 MiB (a share of more than 2^27 pieces) is queued by the subscription model although its frame could not be read; `FrameRoundTripIff` has the condition.
- how a write is torn: a reader that meets a sealed slot half written sees one that was never written (no mix of an old and a new sealed block decrypts), and in a plain file any mix of old and new bytes. A write may break off and then stays torn. Reads are of one moment, though `verify` and `encode_piece` take time.
- other disk errors, crashes in the middle of a run, other programs changing the files, and the poisoned locks a panic leaves behind.
- the plain-file handle, which the operating system provides, and `release_writers`.
- Storage.Encrypted.WriteAllAt: an encrypted file that ends inside a slot is written to only if zeros do not complete that slot to a block that decrypts; `SealEffectIff` has the exact condition for each write.
- `import` compares what `Finish` returns with the expected size; the hashing done on the way is not modelled.
- `Manifest::from_disk`, `single`, `collect`, `validate` and the rules for portable names: paths are not modelled.
- file stamps, `remember_seed`, `load_seed`, `note_serve_failure`: they depend on file times.
- `authorized`, tokens, topics and secrets.
- `node_key`, `saved` and what the records contain.
- Limits.RateBound: floating-point rounding and the clock's resolution are left out; time and tokens are real numbers.
- Storage.Encrypted.ReadExactAt: buffers are returned as sequences instead of being filled in place.
- LocalShares.LocalShare.StorePiece: the method runs alone; racing calls are the stages `StoreCheck` to `StoreMark` of the engine's state machine, where writing a block begins and ends and two duplicates may both succeed.
- LocalShares.LocalShare.ReadRange: the file's bytes are kept block by block as a value; `FileBytesAreFlat` says that for an encrypted file they are those that `Storage.Encrypted.ReadExactAt` reads.
- Protocol.RecvStream.ReadFrame: the network's own errors are left out, a stream ends or goes on.
- EngineCompletion.DownloadCompletes: peers that answer Busy for ever are left out. With one piece missing, three of them can each have a request for it out whenever the honest peer's workers look, and a piece has at most three requests.
- StoreHistory.RecordsAreNeverMixed: that a cipher refuses another key's records is not assumed; the theorem is that the program never lets another key in.
