# Dookie server: a verified model

Dookie is a media-library daemon. It moves titles to cold storage and leaves symbolic links behind, answers
clients over a Unix socket, removes titles, and replaces itself with newer releases. This project models the
parts of it whose mistakes would destroy data or start the wrong program, and proves what they guarantee for
every input, every schedule of failures and every point at which the machine may stop.

## How the model is built

**One filesystem.** `FileSystem.dfy` has a map from absolute paths to files, directories, symbolic links and
sockets, with lookups that resolve links as the system calls do. Every call takes its *fate* from an oracle:
whether it works, how much of a failed copy was written, in which order a directory is listed, how far a failed
recursive removal got. A `Disk` keeps every tree it has been through, so "at every crash point" is a statement
about all of these. `Host.dfy` is the machine the daemon's methods update in place, one method per call;
`DiskStates.dfy` has the rules for statements about all states of a run.

**Moving titles** (`move_dir`). `TreeMover.dfy` has the recursive mover twice: as functions, and as the loops the
daemon runs, which compute exactly those functions. `MoverSafety.dfy` shows that a call makes only four kinds of
change and that none of them loses a file. `MoverExact.dfy` says what a successful call leaves, exactly, and
`MoverFrame.dfy` what any call leaves alone, and how far a failed mass move has got;
`Library.dfy` what a reader of the library sees; `MoverSucceeds.dfy` when a call on a healthy system succeeds;
`MoveLocal.dfy` that a call depends only on its own roots; `MovePairs.dfy` what a change made for one pair of roots
means for another; `MoveBatch.dfy` that the pairs of a batch do not affect each other; `MovePass.dfy` has the worker's
own loops (list what is old, move it or everything) and what any number of passes and batches keeps; `PassMoves.dfy`
what each pass lists, leaves alone and moves.

**The move job** (`JobStruct::spawn_`). `MoveJob.dfy` is a state machine of the front desk, the worker, unboundedly
many clients and the clock, with one action per step of either task. All claims are about every reachable state.

**The update.** `UpdateInstall.dfy` and `UpdateRollback.dfy` model the transaction with its record of replacements,
its rollback and the second rollback when the guard is dropped. `UpdateSafety.dfy` and `UpdateOutcome.dfy` prove what
holds at every state and at the end; `UpdateDriver.dfy` puts the transaction beside the move job and behind the
fallback restart; `UpdateSuccess.dfy` says when an update succeeds and what is started when it does not;
`UpdateLoss.dfy` what one failed `exists()` costs; `UpdateSchedule.dfy` is about versions and times; `ReleaseArchive.dfy` about accepted archives.

**The socket.** `SocketClaim.dfy` is a state machine of any number of processes that claim the CLI socket, on Linux
or macOS, with daemons that ignore the lock, and crashes between any two calls. `SocketRecord.dfy` has the 40-byte
ownership record.

**Removal and login.** `MediaRemoval.dfy` removes both names of a title; `LoginForm.dfy` is the form encoder.

## What is not as one would hope

Where the code and its documentation, or the obvious claim, part ways, the model follows the code.

- `install` asks `destination.exists()` (`server/src/update.rs:306`), which says no on any error. If that one call
  fails on an installed binary, the binary is overwritten or, on rollback, deleted. So an outcome means what it
  promises for a binary if and only if its presence was noticed (`UpdateOutcome.InstallOutcome`), and for every
  installed server there is a schedule with a single failing call on which the installation succeeds and the old
  server is lost (`UpdateLoss.ServerCanBeLost`); the documentation (`README.md:149-153`) promises a rollback without
  condition.
- The comment at `server/src/main.rs:135` says never to start a mismatched pair. If `exists()` fails on an installed
  `dookiec` and the exec fails too, the rollback is complete, the old server is started again and the client is gone
  (`UpdateLoss.MismatchCanRun`); a restart is from the old pair if and only if nothing went unnoticed
  (`UpdateDriver.OnlyMatchingPairsRun`).
- A status request is answered by an unchecked subtraction (`server/src/lib.rs:233`): the answer is right exactly if
  the timer was set no longer than a period ago (`MoveJob.StatusReplyExact`), which a long explicit batch breaks for
  every period (`MoveJob.StatusCanOverflow`).
- `README.md:23-24` says that status stays available during a move. It does unless a request passed on to the worker
  is still in line (`MoveJob.BlockedDuringBatch`), which a Start racing with the end of the period brings about
  (`MoveJob.StatusCanWaitForBatch`).
- When the front desk has ended and the worker has not, `recv()` returns at once (`server/src/lib.rs:352`), and one
  pass follows the other without a pause (`MoveJob.NextPass`, `MoveJob.PassesWithoutPause`).
- On Linux a refused connection shows that nobody listens, not that nobody is about to: a daemon without the lock that
  has bound the socket but does not listen yet can lose it. A refused claim can go on to remove a live socket if and
  only if it met one in that state (`SocketClaim.GapExactly`, reached in `SocketClaim.GapWitness`).
- A mass move does not make its destination root by itself: if the root is missing, and the first entry listed for
  moving is a plain file, it fails (`MoverSucceeds.MassMoveSucceedsExactly`).
- A targeted move of a plain file copies it and stops; the source is neither deleted nor linked
  (`MoverExact.TargetedFileOnlyCopied`).

## Model

| member | source | states |
|---|---|---|
| `TreeMover.MoveDirInPlace` | server/src/lib.rs:411-484 | The mover as it runs has, on every schedule of failures, exactly the result and all the intermediate states of the function that the theorems are about |
| `TreeMover.MoveEntriesInPlace` | server/src/lib.rs:436-461 | The same for the loop over the directory stream, whose every step may fail, the last included |
| `TreeMover.MoveEntryInPlace` | server/src/lib.rs:439-460 | The same for one entry: skip a link, else move, delete and, in a mass move, link |
| `MoverSafety.MoveDirSafe` | server/src/lib.rs:411-484 | Whatever fails, a call changes the tree only by copying a source file to its mirror, making destination directories, dropping a fully copied file or an emptied directory, or linking a dropped name to its mirror; it touches the source only below its argument |
| `MoverSafety.CopySafe` | server/src/lib.rs:427-431 | A copy, complete or cut off, changes only the mirror; on Ok the mirror holds all of the source |
| `MoverSafety.StepReady` | server/src/lib.rs:438-461 | Every such change keeps the tree a tree, the roots free of links, and the mirrors of what is left free of links |
| `MoverSafety.StepKept` | server/src/lib.rs:427-461 | Every such change leaves each original file whole at its own path or, once gone from there, at its mirror |
| `MoverSafety.CallLosesNothing` | server/src/lib.rs:411-484 | In every state of a call, for every listing order and failure point, and by whatever names the roots are given, every file that was below the root is whole at its path or its mirror |
| `MoverExact.SweptCompose` | server/src/lib.rs:438-461 | Moving some entries and then others is the same as moving both lots |
| `MoverExact.MoveDirExact` | server/src/lib.rs:411-484 | After Ok every moved subtree is gone from the source, whole at its mirror, and linked where the mode says so; everything else is unchanged but for directories made on the way to the destination |
| `MoverExact.TargetedFileOnlyCopied` | server/src/lib.rs:422-431 | A targeted call on a plain file deletes and links nothing, whatever fails; on Ok only the copy is new |
| `MoverFrame.MassMoveStops` | server/src/lib.rs:436-461 | Whatever fails, a mass move has moved all entries listed before some entry completely and touched none of those after it; or nothing was listed, and nothing changed |
| `MoverFrame.TitleMoveFrame` | server/src/lib.rs:411-484 | Whatever fails, a move of one title leaves alone all but the title, its mirror and directories made on the way there; on the source side in every state |
| `Library.MassMoveReadsThrough` | server/src/lib.rs:403-461 | After a successful mass move every file reads the same through the links, every top-level entry is a link, earlier links are as they were, and nothing outside changes but the copies |
| `Library.LibraryUnchanged` | server/src/lib.rs:403-461 | After a successful mass move of a library of unmoved and earlier moved titles every path, present or absent, reads exactly as before; and the result is such a library again |
| `Library.TitleUnchanged` | server/src/lib.rs:326-332 | The same after a successful move of one title, a directory or a plain file |
| `Library.MovesUnchanged` | server/src/lib.rs:305-383 | The same after any number of successful moves of either kind, one after the other |
| `Library.ModesAgree` | server/src/lib.rs:403-484 | On a root of directories and links, a mass move and targeted moves of each directory in any order leave the same disk |
| `Library.MovingAgainChangesNothing` | server/src/lib.rs:438-461 | A mass move after a successful one changes nothing at any point, and fails only if a read fails |
| `MoverSucceeds.MassMoveSucceedsExactly` | server/src/lib.rs:411-484 | On a system without failures a mass move returns Ok if and only if every unmoved entry holds only files and directories, each of which fits what stands at its mirror, and the destination root is there or the first entry listed for moving is a directory and the way to the root is clear |
| `MoverSucceeds.OneTitleMoves` | server/src/lib.rs:411-484 | The conditions of the theorems are met by a library that, on a system without failures, is moved and then read through its link |
| `MoverSucceeds.TitleMoveSucceedsExactly` | server/src/lib.rs:411-484 | On a system without failures a move of one title returns Ok if and only if all of it fits what stands at its mirror and there is room: for a directory a clear way to the mirror, for a plain file the destination root |
| `MoverSucceeds.OneTitleMovesAlone` | server/src/lib.rs:411-484 | The same library, its title moved on its own, is read through its link |
| `MoveLocal.MoveDirLocal` | server/src/lib.rs:411-484 | What a call does depends only on what is at, below and on the way to its two roots |
| `MovePass.WorkInPlace` | server/src/lib.rs:266-397 | The worker as it runs passes and batches, one after the other until a pass fails to list, computes the function that `MovePass.WorkLosesNothing` is about |
| `MovePass.ListOldInPlace` | server/src/lib.rs:284-303 | The loop over the roots that lists old entries, leaving links out as it goes and giving up on any error, computes the listing that a pass moves by |
| `MovePass.OldListed` | server/src/lib.rs:284-303 | Listing changes nothing, and what is listed is there, no link, and listed once |
| `MovePass.WorkLosesNothing` | server/src/lib.rs:266-397 | Over any run of scheduled passes and requested batches on separate pairs of roots, given by any names and failing or not, no state loses a file of any pair |
| `PassMoves.ListedExactly` | server/src/lib.rs:284-303 | A listing, if there is one, holds exactly those entries of each root that are no links and past the age |
| `PassMoves.PassMayFail` | server/src/lib.rs:284-303 | A pass whose listing fails changes nothing and ends the worker; on a system without failures, with all roots there, none does |
| `PassMoves.PassLeavesRest` | server/src/lib.rs:305-345 | Unless the disk is full a pass leaves alone, whatever fails and in every state, all on the source side that is not at or below an aged entry |
| `PassMoves.AgedPassMoves` | server/src/lib.rs:326-345 | On a system without failures such a pass moves every aged title that fits, whatever becomes of the others |
| `PassMoves.FullPassMoves` | server/src/lib.rs:305-325 | On such a system a pass on a full disk moves every root that fits, aged or not |
| `PassMoves.RootsMoved` | server/src/lib.rs:356-383 | On such a system a batch moves every root that fits, whatever becomes of the others |
| `PassMoves.WorkMoves` | server/src/lib.rs:266-397 | On such a system, over any run of passes and batches, once one has moved everything all entries of a root that fits are links for good |
| `MoveBatch.BatchAsAlone` | server/src/lib.rs:362-380 | Each pair of a batch ends, in result and on disk, as if it had been moved alone, whatever became of the others; outside the roots only the ways to destinations that exist in the end are made |
| `MoveBatch.OrderDoesNotMatter` | server/src/lib.rs:362-380 | A batch leaves the same disk and the same results in every order of the move map |
| `MoveBatch.FileRootNeedsParent` | server/src/lib.rs:427-431 | A source root that is itself a file is moved if and only if its copy can be created or overwrites a file; that may depend on another pair making the parent |
| `MoveJob.RunKeepsInv` | server/src/lib.rs:205-397 | The invariant that ties flag, queue, reply channels and program counters together holds in every state of every run |
| `MoveJob.FlagAndLine` | server/src/lib.rs:207-395 | The flag is up exactly while the worker scans or moves, or for good once it has died; at most one message is in line, a Start or Stop with a reply channel; the worker's unreachable arm is dead |
| `MoveJob.BatchesMatchReplies` | server/src/lib.rs:356-383 | Explicit batches and Ok replies to Start match one to one, the reply before the batch; a client told InProgress has no batch |
| `MoveJob.EveryRequestSettled` | server/src/lib.rs:208-257 | A request without an outcome is in line or in hand, and once the front desk has ended there is none |
| `MoveJob.StoppedForGood` | server/src/lib.rs:386-389 | After the worker has stopped, no continuation has it use the filesystem or begin a batch |
| `MoveJob.StopAnswered` | server/src/lib.rs:239-254 | Once a Stop is answered Ok the worker is gone, the flag is down, and the front desk has ended or ends with its next step |
| `MoveJob.WaitResolves` | server/src/lib.rs:217-253 | While the front desk waits, either it can go on (by a reply, or a channel closed by the worker's death), or the worker can step, and every step but the period's end brings the end of the wait closer |
| `MoveJob.WaitEnds` | server/src/lib.rs:217-253 | From every waiting state the worker alone can end the wait |
| `MoveJob.BlockedDuringBatch` | server/src/lib.rs:207-224 | During a batch the front desk is blocked if and only if a message is in the worker's line |
| `MoveJob.StatusCanWaitForBatch` | server/src/lib.rs:208-224 | A run in which a status request waits behind a Start while a scheduled pass moves files |
| `MoveJob.TimeLeftExact` | server/src/lib.rs:232-234 | The 64-bit subtraction gives the time left if no more than the period has passed, and wraps around otherwise |
| `MoveJob.StatusReplyExact` | server/src/lib.rs:227-236 | The time told and the time since the timer was set make up the period, if that is not over; later, a build with overflow checks ends the front desk without an answer, and one without tells what wraps around |
| `MoveJob.InProgressExactly` | server/src/lib.rs:211-229 | A client that asks for a batch or the status is told InProgress if and only if the worker is at a batch or a pass, or has died at one; a Stop always goes on to the worker |
| `MoveJob.PassedOnExactly` | server/src/lib.rs:213-254 | A request that finds no worker gets no answer; the worker's Ok is passed back, after a Stop as the front desk's last act; a worker gone without an answer means Failed to a Stop and the end of the front desk at a Start |
| `MoveJob.RepliesTell` | server/src/lib.rs:207-255 | A time answers a status request only, InProgress never a Stop, Ok never a status request; Failed means a Stop that the worker did not live to answer |
| `MoveJob.NextPass` | server/src/lib.rs:347-352 | While the worker idles, the time told is the time until the next pass; that can begin if and only if the period is over or the front desk has ended, and left alone the worker is scanning as soon as the time is over |
| `MoveJob.PassesWithoutPause` | server/src/lib.rs:350-355 | A run in which, with all clients gone, a second pass begins without any time after the first |
| `MoveJob.StartServed` | server/src/lib.rs:211-224 | A Start passed on to an idle worker is answered Ok and gets its batch |
| `MoveJob.StopServed` | server/src/lib.rs:239-250 | A Stop passed on to an idle worker is answered Ok, worker and front desk ending |
| `MoveJob.StatusCanOverflow` | server/src/lib.rs:347-382 | For every period, a run in which the status path finds more than the period on the timer |
| `UpdateRollback.InstalledUpdate.RollbackInPlace` | server/src/update.rs:350-371 | The rollback loop, last replacement first, keeps on record exactly what failed, and says whether that is nothing |
| `UpdateRollback.RollbackExact` | server/src/update.rs:350-371 | Over any list of replacements without common paths, one rollback attempts each once, leaves the failed ones on record and as they were, restores all others, and shows nothing else in any state |
| `UpdateRollback.RollbacksExact` | server/src/update.rs:350-401 | After any number of rollbacks each replacement is on record and untouched, or restored; a further one never touches a restored name, and does nothing once all are |
| `UpdateInstall.InstallInPlace` | server/src/update.rs:279-325 | The installer as it runs (checks, renames, record, closing, rollback, drop) computes the function that the outcomes are about |
| `UpdateInstall.ExecInPlace` | server/src/update.rs:375-401 | The same for the exec with its rollbacks |
| `UpdateSafety.ReplaceAllTracks` | server/src/update.rs:303-315 | However far the replacements get, record and disk agree about each binary, and each noticed original is whole in every state |
| `UpdateOutcome.InstallOutcome` | server/src/update.rs:279-325 | Ok: new binaries in place, and an original in its `_bak` exactly if it was noticed; plain error: a name is as before if and only if it was noticed; incomplete rollback: every noticed original is whole at its name or in `_bak` |
| `UpdateOutcome.InstallationIsSite` | server/src/update.rs:163-168 | The conditions of the theorems are met by a directory with an installed server and two staged binaries |
| `UpdateLoss.ServerCanBeLost` | server/src/update.rs:306-312 | For every installed server there is a schedule with one failing call on which the installation succeeds, the name holds the staged server, the backup what it held before, and nothing outside the two binaries, their backups and the staging directory has changed |
| `UpdateOutcome.UpdateLosesNothing` | server/src/update.rs:279-401 | In every state of installation, exec and drop each noticed original is at its name or its `_bak`, at one only if it is distinct from the other files; nothing else changes but the staging directory |
| `UpdateOutcome.UpdateOutcomes` | server/src/update.rs:279-401 | If the new server runs it is the staged one and both names are new; a plain error after sound arguments means both names are as before exactly if noticed; an incomplete rollback keeps every noticed original |
| `UpdateSuccess.InstallSucceedsExactly` | server/src/update.rs:279-325 | An installation succeeds if and only if nothing irregular is in its way and each of its calls works, but perhaps the two `exists()` |
| `UpdateSuccess.IrregularRefused` | server/src/update.rs:280-298 | If something irregular is, the installation fails and nothing but the staging directory changes |
| `UpdateSuccess.FailureStopsThere` | server/src/update.rs:303-315 | If the first binary cannot be replaced, the second is left alone |
| `UpdateSuccess.SecondRollbackRestores` | server/src/update.rs:350-401 | Whatever fails in the first rollback, the one run when the guard is dropped restores every name unless it fails too |
| `UpdateSuccess.UnsoundRestores` | server/src/update.rs:375-401 | With arguments that cannot be passed on nothing is executed, and every noticed binary is restored unless a call fails |
| `UpdateDriver.InstallsAlone` | server/src/main.rs:124-132 | From the first call of an installation on, whatever clients and front desk do, the move worker has ended and never moves anything again |
| `UpdateDriver.ConcludeInPlace` | server/src/main.rs:127-147 | The branch as it runs: no Ok, no installation; incomplete rollback, exit; else the fallback restart |
| `UpdateDriver.OnlyMatchingPairsRun` | server/src/main.rs:127-147 | Whatever is started comes from a pair that is all new or, if and only if nothing went unnoticed, all old; otherwise the process exits |
| `UpdateDriver.NoOkNoInstall` | server/src/main.rs:127-129 | Without an Ok to its Stop the process exits and makes no call |
| `UpdateDriver.ActsAlone` | server/src/main.rs:124-147 | If the branch makes any call at all on the reply to its Stop, the worker has ended and moves nothing in any continuation |
| `UpdateSuccess.NewServerRunsExactly` | server/src/main.rs:127-133 | The new server runs if and only if the Stop was answered Ok, the arguments can be passed on, and installation and exec meet nothing irregular and each call works, but perhaps the two `exists()` |
| `UpdateSuccess.FallbackExactly` | server/src/main.rs:133-147 | After an incomplete rollback, or if the fallback cannot be tried, the process exits and touches nothing more; after a complete one it starts the old server, if that was noticed and the exec works |
| `UpdateLoss.MismatchCanRun` | server/src/main.rs:127-147 | For every installed pair there is a schedule with two failing calls on which the old server is put back and started again while the client is gone |
| `SocketRecord.SocketIdentity` | server/src/listener.rs:122-134 | The loop over the chunks fills the array with the record |
| `SocketRecord.RecordRoundTrip` | server/src/listener.rs:122-134 | Reading the little-endian words back gives device and inode, and ctime and nanoseconds in two's complement |
| `SocketRecord.RecordBegins` | server/src/listener.rs:122-134 | Every record begins with the same eight characters |
| `SocketRecord.RecordInjective` | server/src/listener.rs:120-134 | Two sockets have the same record only if all four are the same |
| `SocketRecord.UnfinishedNeverMatches` | server/src/listener.rs:111-143 | A truncated file, or an interrupted write of any record, matches no socket; a complete one matches its own only |
| `SocketClaim.RunKeepsInv` | server/src/listener.rs:33-118 | The invariant over lock, record, path, open sockets and program counters holds in every state of every run |
| `SocketClaim.OneOwner` | server/src/listener.rs:50-56 | At most one process is anywhere between taking the lock and letting it go, owners included, and an owner's socket is its own and open |
| `SocketClaim.UnlinkIsSafe` | server/src/listener.rs:58-97 | What is removed is the very socket examined, and closed; the only exception, on Linux, is an outsider's socket that was bound and not listening at the probe |
| `SocketClaim.GapExactly` | server/src/listener.rs:66-97 | From every reachable state on Linux, a refused claim can go on to remove a socket that listens by then if and only if the socket it found was still at the path, bound and not listened on; its maker is then an outsider, and two more calls suffice |
| `SocketClaim.MatchingRecordIsStale` | server/src/listener.rs:76-88 | A record that matches the socket found was left by a lock-taking process that has let go of it |
| `SocketClaim.ClaimSucceedsExactly` | server/src/listener.rs:50-117 | An undisturbed claim succeeds if and only if the lock is free and the path is free or holds a stale socket that, on macOS, the record names; else it changes neither path nor record |
| `SocketClaim.FailedCallGivesUp` | server/src/listener.rs:50-117 | A claim of which a call fails, the last included, never owns the path; it leaves path and record as they were and no socket of its own open |
| `SocketClaim.ChangedPathGivesUp` | server/src/listener.rs:58-97 | A claim that does not find again what it has found, or on Linux finds somebody listening, gives up and leaves path and record as they are |
| `SocketClaim.NextClaimSucceeds` | server/src/listener.rs:58-117 | After the exit of any owner whose path is untouched the next claim succeeds on both platforms |
| `SocketClaim.GapWitness` | server/src/listener.rs:66-97 | A run on Linux to such a probe, and one in which the socket about to be removed listens by now |
| `MediaRemoval.RemovePathInPlace` | server/src/media_bundle/mod.rs:529-541 | One removal as it runs: absent is fine, a directory goes with all below it, anything else, a link included, goes alone |
| `MediaRemoval.RemoveMediaFilesInPlace` | server/src/media_bundle/mod.rs:319-345 | The loop that collects the paths and the one that removes them compute the function below |
| `MediaRemoval.SameRemovalSet` | server/src/media_bundle/mod.rs:327-339 | With all roots apart, removal by either name of a title, in any order of the map, removes that name and its mirror and no third path |
| `MediaRemoval.RemovedExactly` | server/src/media_bundle/mod.rs:327-339 | For any roots, what is removed is the indexed path and its mirror under each root that it lies strictly below, and nothing else |
| `MediaRemoval.RemovalExact` | server/src/media_bundle/mod.rs:319-345 | On Ok, by either name, all at and below both names is gone and nothing else has changed; on failure nothing outside the two has |
| `MediaRemoval.RemovalSucceedsExactly` | server/src/media_bundle/mod.rs:319-345 | On a system without failures a removal succeeds if and only if nothing on the way to either name is a file; it does not matter whether anything is there |
| `MediaRemoval.RemovalStops` | server/src/media_bundle/mod.rs:341-343 | A removal that fails has not got to the other name, or has finished with the first |
| `MediaRemoval.MovedTitleRemoved` | server/src/media_bundle/mod.rs:319-345 | After a successful mass move, whatever was at the destination before, removing a path that was below the root by either name leaves neither the one side nor the copy |
| `ReleaseArchive.Stage` | server/src/update.rs:220-234 | A binary is staged if and only if there was none of its name and it is a regular file of allowed size with the right header |
| `ReleaseArchive.AllowedExactly` | server/src/update.rs:202-234 | What each entry must be: a binary, a directory without data or a readme, with its path, kind, size and header |
| `ReleaseArchive.AcceptableExactly` | server/src/update.rs:197-238 | The rule that the scan decides: at most four allowed entries, with each binary under exactly one of them |
| `ReleaseArchive.Scan` | server/src/update.rs:197-238 | The scan accepts an archive if and only if it has at most four entries, all allowed, with exactly one valid server and client; and stages the data of those two |
| `ReleaseArchive.OrderDoesNotMatter` | server/src/update.rs:197-238 | Acceptance and staged data are the same for every permutation of the entries |
| `ReleaseArchive.HoldsOne` | server/src/update.rs:220-234 | What is staged under a name is determined by the archive |
| `LoginForm.Encode` | server/src/media_bundle/qbit.rs:131-140 | The encoding loop computes the encoding, and its output decodes to the input |
| `LoginForm.EncodeDecode` | server/src/media_bundle/qbit.rs:131-140 | Percent-decoding inverts the encoding of every byte string, plus signs read as spaces or not |
| `LoginForm.EncodeInjective` | server/src/media_bundle/qbit.rs:131-140 | Different byte strings have different encodings |
| `LoginForm.EncodedIsPlain` | server/src/media_bundle/qbit.rs:131-140 | The output has only unreserved characters and percent signs; no `&`, `=` or `+` |
| `LoginForm.EncodedParts` | server/src/media_bundle/qbit.rs:131-140 | The encoding goes byte by byte |
| `LoginForm.EncodedByte` | server/src/media_bundle/qbit.rs:133-137 | Letters, digits and four signs stand for themselves, any other byte is a percent sign and two digits, capital letters past nine |
| `LoginForm.LoginRoundTrip` | server/src/media_bundle/qbit.rs:64-68 | Splitting the login body and decoding its values gives exactly the username and the password |
| `UpdateSchedule.NewerExactly` | server/src/update.rs:42-55 | A release is taken if and only if it is published, stable, tagged with `v`, and the first of major, minor and patch that differs from the running version is higher, or none differs and a pre-release runs |
| `UpdateSchedule.InvalidExactly` | server/src/update.rs:42-50 | A check is an error, rather than no news, if and only if the release is published and its tag is not `v` and a version |
| `UpdateSchedule.PrecedesExactly` | server/src/update.rs:51 | What the order of versions means, by section 11 of Semantic Versioning 2.0.0: numbers by value, a pre-release before its release, identifiers one by one |
| `UpdateSchedule.PrecedenceDecides` | server/src/update.rs:42-55 | Of any two versions exactly one precedes the other, or they differ in build metadata at most |
| `UpdateSchedule.PrecedenceChains` | server/src/update.rs:42-55 | Precedence is transitive over all versions, pre-releases included |
| `UpdateSchedule.ChainIncreases` | server/src/update.rs:42-55 | Along any chain of updates precedence strictly increases, so no version runs twice |
| `UpdateSchedule.WaitForUpdate` | server/src/update.rs:135-160 | The wait loop returns at the first check that succeeds, at exactly the time that the start delay, the checks and a day of sleep after every one before add up to |
| `UpdateSchedule.ChecksADayApart` | server/src/update.rs:148-160 | The loop sleeps 86400 seconds between any two checks, and not otherwise |
| `UpdateSchedule.StartsExactly` | server/src/update.rs:135-147 | The first check begins when it was asked for, at once if that is past, and after a day at the latest |
| `UpdateSchedule.BackoffExact` | server/src/update.rs:135-147 | After a failed installation the start delay is within a day, and the next check is a day later or more if and only if the clock has not gone back |
| `UpdateSchedule.FailuresADayApart` | server/src/main.rs:141-145 | Over lives of the server that each wait by that loop and are told when the last installation failed, with a clock that does not go back, an installation that keeps failing is tried at most once a day |

## Left out

- MoverSafety.CallLosesNothing: asks that the two roots are apart, are directories if they are named through symbolic links, and that nothing that is to be copied has a link at its mirror; with such a link a copy would land elsewhere. `MovePass.WorkLosesNothing` asks the same of every pair.
- MoverExact.MoveDirExact: is about roots whose paths hold no links, as are the theorems of the library and of success; by other names the paths in the links that a move leaves are those names.
- Library.LibraryUnchanged: asks that no name still to be moved is in use at the destination, unless both are plain files; copies overwrite what stands there. `Library.MovesUnchanged` asks as well that entries hold only files and directories, as a move of one title says nothing about the others.
- MoveBatch.BatchAsAlone: asks of a pair whose destination root does not exist that no call of its move fails; failures are scheduled by the number of the call, and fewer calls are made when another pair has made part of the way.
- PassMoves.AgedPassMoves: is about roots given by their own paths, as are `PassMoves.FullPassMoves`, `PassMoves.RootsMoved` and `PassMoves.WorkMoves`; the other roots of the map may be given by any names and fail in any way that a working system allows.
- MoveJob.WaitResolves: the end of the period may win the race against a message in line any number of times, as `select!` chooses at random; no fairness is assumed, so that choice is named as the one exception.
- UpdateOutcome.UpdateLosesNothing: nobody but the installer touches the installation directory; originals whose presence went unnoticed are excluded, as `UpdateLoss.ServerCanBeLost` shows they must be.
- SocketClaim.UnlinkIsSafe: nobody else touches the path between the second look at a stale socket and its removal, nor between binding a new one and looking at it; at all other times anybody may.
- UpdateSchedule.ChainIncreases: takes from the preflight that a staged server reports the version of its release.
- MediaRemoval.RemovalExact: asks that the way to the mirror has no links and the way to the title none but one that a move has left at the root.
- ReleaseArchive.Scan: takes the archive as a list of entries that can all be read; unpacking, the tar format and the digest are not part of this model.
- Paths are absolute lists of names; relative link targets, `.` and `..`, and path components that are not valid Unicode are not modelled.
- A directory is listed at once when it is opened; entries that others add or remove meanwhile are not modelled.
- Renaming is one atomic step, and a rename that reports an error has not happened; renaming directories is not modelled.
- File modes, owners, timestamps, hard links, FIFOs, devices, mount points, `sync` and power loss are not modelled; steps are sequentially consistent.
- Disk-usage percentages and file ages are parameters of a scheduled pass; any choice is covered.
- The front desk's own unreachable arm, a request that comes without a sender for its reply (`server/src/lib.rs:255`), is not modelled: every request in its queue has a reply channel. What a client does with a reply is not modelled either.
- The two state machines are on values, not on classes: their steps belong to many tasks and processes at once, and the claims are about every interleaving.
- Downloading, asset URLs, the HTTP, Discord, Plex, Radarr and Sonarr clients, JSON, YAML and protobuf, logging and the command-line client have no invariant of their own here.
- The library scan job: it keeps only the last event of a burst, and its look at the move job's status can be out of date, so the attractive claims about it do not hold.
