# Verified model of the tinysandbox core

A Dafny model of the parts of tinysandbox whose correctness is hardest to see from the code:

- **The in-memory filesystem** (`Path`, `MemTree`, `SubtreeFits`, `MemSpec`, `MemProofs`, `MemMeaning`, `MemErrors`,
  `MemRuns`, `MemVfs`, `MemCollect`, `MemSnapshot`, `MemWorld`). `MemSpec` is the filesystem on plain values. `MemProofs` and
  `MemRuns` prove its invariant over every sequence of calls, `MemMeaning` says what each call does to the paths and bytes a
  reader finds, and `MemErrors` with which error each call is refused. `MemVfs` and `MemSnapshot` are the real form: classes whose files are reference-counted buffers on the heap,
  shared with snapshots and branches and copied on write, proved to be `MemSpec`. `MemWorld` has any number of
  filesystems and snapshots that share buffers, and every sequence of steps on them.
- **Mounts** (`Mount`): routing by first path component, with one table of outer handles.
- **Handle admission and cancellation** (`Handles`, `HandleProofs`, `HandleRuns`, `HandleForever`, `HandlePublish`): opens,
  closes, abandons, cancels and drops as steps that interleave in any order.
- **The guest's event loop** (`TimerHeap`, `TimerSpec`, `TimerTurn`, `TimerDue`, `EventLoop`): `TimerSpec` has no heap and no
  counters; `TimerDue` says in which turn a timer fires; `EventLoop.Glue` has a binary heap with stale entries, compaction
  and counters, and is proved to be the same loop. A callback is any finite sequence of timer calls, and the clock any
  sequence that does not go back.
- **Deferred host calls** (`HostCalls`): slots in the shim, a count in the glue, a map in the driver.
- **The shell** (`Shell`, `LexSpec`, `Lexer`, `ParseSpec`, `Parser`, `ParseRoundTrip`, `ParseImage`, `ParseAccepts`,
  `ShellRoundTrip`, `ShellText`, `ShellShow`, `ShellRefuses`, `ExpandSpec`, `ExpandMeaning`, `Expansion`, `ShellBudget`): lexer,
  parser, expansion, field splitting and the byte budget of a pipeline.
- **Streaming forms** (`CappedOutput`, `LineBuffer`, `Globals`, `GlobalTree`): captured output, lines in chunks, the tail
  window, and the names of host globals.

Code that computes is modelled by functions; code that changes things step by step by classes and methods with loops,
each proved equal to a function of which the properties are proved. `dafny verify dfyconfig.toml` checks everything.

Where the comments of the source and its code differ, the model follows the code. `CappedOutput` at a cap no larger than
the truncation marker gives the whole marker, so its output can then be longer than the cap.

## Model

| member | source | states |
|---|---|---|
| `Paths.NormalizePath` | src/vfs/path.rs:5-28 | the component loop gives what the recursive definition gives, with the same errors for relative paths, NUL and depth over 256; the rows below say what that is |
| `Paths.NormalizeIsNormal` | src/vfs/path.rs:5-28 | every result is a list of at most 256 real names |
| `Paths.NormalizeAbsolute` | src/vfs/path.rs:5-28 | a normal path written out and normalised again is itself |
| `Paths.NormalizeIdempotent` | src/vfs/path.rs:5-28 | normalising twice is normalising once |
| `Paths.NormalizeContinues` | src/vfs/path.rs:5-28 | normalising a path that goes on after a `/` is resolving the rest from where the first part leads; where the first part fails, so does the whole |
| `Paths.NormalizeStarts` | src/vfs/path.rs:5-9 | `/` is the root; a path that is empty, relative or holds a NUL is EINVAL |
| `Paths.NormalizeUp` | src/vfs/path.rs:15-17 | `p/..` leads to the parent of where `p` leads, and to the root from the root |
| `Paths.NormalizeStays` | src/vfs/path.rs:14 | `p/.` and `p/` lead where `p` does |
| `Paths.NormalizeDown` | src/vfs/path.rs:18-23 | `p/c` leads to `c` below where `p` leads, and is EINVAL exactly at 256 components |
| `MemTree.FindNode` | src/vfs/mem.rs:636-649 | the walking loop finds what the recursion finds, ENOTDIR through a file and ENOENT at a missing name |
| `MemTree.RenameMoves` | src/vfs/mem.rs:192-254 | cutting a subtree and putting it elsewhere moves exactly its paths, injectively, and drops only a replaced leaf |
| `MemTree.FitsIsDepth` | src/vfs/mem.rs:588-606 | the depth test means that no path below the node is longer than the allowance |
| `SubtreeFits.SubtreeFits` | src/vfs/mem.rs:588-606 | the explicit-stack loop ends and equals the depth test |
| `MemProofs.ParentSurvives` | src/vfs/mem.rs:192-254 | once the checks of `rename` pass, removing the source leaves the destination's parent in place, so the detached node is never lost |
| `MemProofs.RenameDepth` | src/vfs/mem.rs:192-254 | an admitted rename keeps every path within 256 components |
| `MemProofs.RenameMeaning` | src/vfs/mem.rs:192-254 | a successful rename moves exactly the source subtree and replaces at most one leaf |
| `MemProofs.ResizeKeeps` | src/vfs/mem.rs:100-129 | a resize keeps the byte counter equal to the sum of all lengths and all quotas, cannot underflow, and changes nothing if refused |
| `MemProofs.ReleaseKeeps` | src/vfs/mem.rs:784-800 | an inode is freed exactly when nothing refers to it, and the counters follow |
| `MemProofs.RemoveLeafKeeps` | src/vfs/mem.rs:764-782 | removing a detached file or empty directory keeps links, counters and quotas exact |
| `MemProofs.MkdirKeeps` | src/vfs/mem.rs:171-190 | the whole invariant holds after `mkdir`; no internal failure; a refused call changes nothing |
| `MemProofs.RemoveKeeps` | src/vfs/mem.rs:256-297 | the same for `unlink` and `rmdir` |
| `MemProofs.RenameKeeps` | src/vfs/mem.rs:192-254 | the same for `rename`, so neither the missing-parent nor the missing-inode failure can happen |
| `MemProofs.OpenKeeps` | src/vfs/mem.rs:299-354 | the same for `open`, with creation and truncation |
| `MemProofs.WriteKeeps` | src/vfs/mem.rs:384-420 | the same for `write_at` |
| `MemProofs.TruncateKeeps` | src/vfs/mem.rs:422-436 | the same for `truncate` |
| `MemProofs.CloseKeeps` | src/vfs/mem.rs:438-451 | the same for `close`, which frees an unlinked inode with its last handle |
| `MemMeaning.StatShows` | src/vfs/mem.rs:147-151 | `stat` tells what the path shows and fails exactly if it shows nothing |
| `MemMeaning.ReadDirLists` | src/vfs/mem.rs:153-169 | `readdir` lists exactly the names one step below, each with its metadata |
| `MemMeaning.MkdirMakes` | src/vfs/mem.rs:171-190 | it succeeds exactly if the name is free, its parent a directory and a slot left; then one directory appears and nothing else changes |
| `MemMeaning.RemoveDrops` | src/vfs/mem.rs:256-297 | it succeeds exactly on a file (`unlink`) or an empty directory (`rmdir`); one path goes, and open handles read on |
| `MemMeaning.RenameMovesView` | src/vfs/mem.rs:192-254 | it succeeds exactly on a condition on what the paths show (source there, not moved into itself, parent a directory, a target of the same kind and empty, depth within 256); then the subtree moves with its bytes, nothing else appears, handles read on; else nothing changes |
| `MemMeaning.RenameAllowed` | src/vfs/mem.rs:192-254 | the checks of the code pass exactly on that condition |
| `MemMeaning.ResizeAdmits` | src/vfs/mem.rs:100-129 | refused with ENOSPC exactly if the file or the total would pass its limit |
| `MemMeaning.WriteStores` | src/vfs/mem.rs:384-420 | the patch is laid over the bytes, zeros fill a gap, no other file changes, and it is refused exactly if a limit would be passed |
| `MemMeaning.WriteReadsBack` | src/vfs/mem.rs:356-420 | reading at the place written gives the bytes written, through any readable handle of the file |
| `MemMeaning.ReadGives` | src/vfs/mem.rs:356-382 | EBADF exactly for an unknown or unreadable handle; else as many bytes as are asked for and there, each the byte of the file at its place |
| `MemMeaning.ReadShows` | src/vfs/mem.rs:356-382 | a handle opened on a path reads the bytes the path shows |
| `MemMeaning.TruncateCuts` | src/vfs/mem.rs:422-436 | bytes below the new length stay, zeros come after, exact admission |
| `MemMeaning.OpenSucceeds` | src/vfs/mem.rs:299-354 | an open succeeds exactly on a valid mode with a file there and no exclusive creation, or a free name in a directory, creation asked and a slot left; else nothing changes |
| `MemMeaning.OpenGives` | src/vfs/mem.rs:299-354 | a fresh handle with the asked rights on the file at the path, created or emptied if so asked; no other path changes |
| `MemMeaning.CloseForgets` | src/vfs/mem.rs:438-451 | the handle is gone; no path and no other handle sees a difference |
| `MemErrors.WalkFails` | src/vfs/mem.rs:636-649 | a walk fails with ENOTDIR exactly if it would go through a file, else with ENOENT |
| `MemErrors.MkdirRefuses` | src/vfs/mem.rs:171-190 | each refusal of `mkdir` has the error of the first reason, in terms of what the paths show |
| `MemErrors.RemoveRefuses` | src/vfs/mem.rs:256-297 | the same for `unlink` and `rmdir` |
| `MemErrors.OpenRefuses` | src/vfs/mem.rs:299-354 | the same for `open` |
| `MemErrors.RenameRefuses` | src/vfs/mem.rs:192-254 | the same for `rename` |
| `MemErrors.RenameRoot` | src/vfs/mem.rs:192-254 | a rename of or onto the root, or with a path that is not accepted, is EINVAL and changes nothing |
| `MemErrors.HandleRefuses` | src/vfs/mem.rs:384-451 | EBADF exactly for a handle that is not open or, in a write, not opened to write; EINVAL exactly for truncating through one not opened to write and for a write past the last offset |
| `MemRuns.StepKeeps` | src/vfs/mem.rs:171-475 | every call, snapshot and restore keeps the invariant, meets no internal failure, changes nothing if it fails, and leaves earlier snapshots as they were |
| `MemRuns.RunKeeps` | src/vfs/mem.rs:480-503 | after every sequence of calls: bytes used is the sum of inode lengths, file count is inodes plus non-root directories, links and open handles are the references that exist, no inode is unreferenced, quotas and depth hold |
| `MemRuns.CaptureFits` | src/vfs/mem.rs:515-534 | a capture of a live state fits the quota it lived under |
| `MemRuns.RestoreBringsBack` | src/vfs/mem.rs:464-470 | restoring gives exactly the paths and bytes of the capture, whatever came between, and no handle |
| `MemRuns.RestoreInvalidates` | src/vfs/mem.rs:464-470 | a handle given out before a restore answers EBADF to every call for ever after |
| `MemVfs.PutBytes` | src/vfs/mem.rs:100-129 | new bytes go into the buffer if it has one owner and into a new one otherwise, so that every other owner's bytes stay |
| `MemVfs.ResizeShared` | src/vfs/mem.rs:100-129 | a resize on shared heap buffers is the resize on values, for all buffers fair to their other owners |
| `MemVfs.CheckRename` | src/vfs/mem.rs:192-254 | the checks in the order of the code give the specified verdict |
| `MemVfs.InMemoryVfs.Stat` | src/vfs/mem.rs:147-151 | equals the value filesystem's `stat` |
| `MemVfs.InMemoryVfs.ReadAt` | src/vfs/mem.rs:356-382 | equals the value filesystem's read, which `ReadGives` and `ReadShows` explain |
| `MemVfs.InMemoryVfs.Mkdir` | src/vfs/mem.rs:171-190 | the new state and reply are the value filesystem's, and other owners of buffers are untouched |
| `MemVfs.InMemoryVfs.RemovePath` | src/vfs/mem.rs:256-297 | the same for `unlink` and `rmdir` |
| `MemVfs.InMemoryVfs.Rename` | src/vfs/mem.rs:192-254 | the same for `rename` |
| `MemVfs.InMemoryVfs.Open` | src/vfs/mem.rs:299-354 | the same for `open` |
| `MemVfs.InMemoryVfs.WriteAt` | src/vfs/mem.rs:384-420 | the same for `write_at` |
| `MemVfs.InMemoryVfs.Truncate` | src/vfs/mem.rs:422-436 | the same for `truncate` |
| `MemVfs.InMemoryVfs.Close` | src/vfs/mem.rs:438-451 | the same for `close` |
| `MemCollect.Collect` | src/vfs/mem.rs:704-747 | the recursive walk finds exactly the inodes of the tree, with their total bytes and entries |
| `MemSnapshot.TakeSnapshot` | src/vfs/mem.rs:457-462 | the snapshot is the capture of the live state, sharing its buffers, and the live state is as it was |
| `MemSnapshot.FitsQuota` | src/vfs/mem.rs:749-762 | the loop decides exactly whether totals and every file fit |
| `MemWorld.PerformAmong` | src/vfs/mem.rs:171-452 | a call on one filesystem changes no byte or path of any other filesystem or of any snapshot, whatever buffers they share |
| `MemWorld.TakeAmong` | src/vfs/mem.rs:457-462 | a new snapshot is the capture of its filesystem, and all filesystems and snapshots show what they showed |
| `MemWorld.RestoreAmong` | src/vfs/mem.rs:464-470 | the filesystem becomes the snapshot's state, or nothing changes; all others and all snapshots show what they showed |
| `MemWorld.BranchAmong` | src/vfs/mem.rs:472-475 | a new filesystem shows the snapshot exactly if it fits the quota; the original and all others show what they showed |
| `MemWorld.World.Run` | src/vfs/mem.rs:454-475 | after every sequence of new filesystems, calls, snapshots, restores and branches, all filesystems and snapshots are valid and show what they would if nothing were shared |
| `MemWorld.NextKeeps` | src/vfs/mem.rs:454-475 | each step keeps the invariant of every filesystem and snapshot and changes only the filesystem it names |
| `MemWorld.HistoryKeeps` | src/vfs/mem.rs:454-475 | so does every sequence of steps |
| `MemWorld.CapturedForEver` | src/vfs/mem.rs:457-462 | a snapshot is what was captured, after every sequence of steps on any filesystems |
| `MemWorld.RevertShows` | src/vfs/mem.rs:464-470 | a filesystem restored from a capture shows exactly what was shown when it was taken |
| `MemWorld.ForkShows` | src/vfs/mem.rs:472-475 | so does a branch |
| `Mount.RouteTail` | src/vfs/mount.rs:58-78 | normalising, stripping the mount, rejoining and normalising again gives exactly the tail |
| `Mount.RouteFaithful` | src/vfs/mount.rs:58-78 | two paths are routed alike exactly if they normalise alike |
| `Mount.ForwardStripsMount` | src/vfs/mount.rs:130-191 | a forwarded call is the same call below one mount, never on the mount itself, so mounts are never removed, renamed or opened |
| `Mount.ForwardsExactly` | src/vfs/mount.rs:130-191 | a call is forwarded exactly if all its paths lie strictly below one mount; between two mounts a rename is EXDEV, and entries of the root can be neither made nor replaced |
| `Mount.RefusesAs` | src/vfs/mount.rs:130-191 | what is not forwarded is refused with the error its place has: unreadable, the root, a mount, or nowhere |
| `Mount.RenameRefusesAs` | src/vfs/mount.rs:140-164 | the same for both paths of a rename, the source first |
| `Mount.MountedVfs.InsertHandle` | src/vfs/mount.rs:86-99 | below 2^64 opens the outer handle is fresh, non-zero and maps injectively to backend and inner handle |
| `Mount.MountedVfs.PathCall` | src/vfs/mount.rs:130-191 | refused with nothing changed, or done by exactly one backend, an opened handle renamed to a new outer one |
| `Mount.MountedVfs.HandleCall` | src/vfs/mount.rs:198-216 | EBADF for an unknown handle, else the inner call on the backend that opened it; closing forgets the outer handle |
| `Mount.MountedVfs.Abort` | src/vfs/mount.rs:218-226 | the same for `abort`, which these backends do as a close |
| `Mount.MountedVfs.Serve` | src/vfs/mount.rs:130-226 | any one request: what was closed stays closed and is answered EBADF, and a close or abort of an open handle closes it |
| `Mount.MountedVfs.ServeAll` | src/vfs/mount.rs:86-226 | over every sequence of requests with fewer than 2^64 opens, a handle closed before is answered EBADF throughout and never given out again |
| `Mount.MountedVfs.ReadAt` | src/vfs/mount.rs:193-196 | reads through the backend and inner handle behind the outer one |
| `HandleProofs.KeepsPool` | src/sandbox/pools.rs:171-181 | at every step the pool's count is opens not yet registered, plus handles registered, plus handles taken out and not released, and within capacity |
| `HandleProofs.KeepsExecAt` | src/sandbox/control.rs:63-74 | the same for each execution's own count and limit |
| `HandleProofs.KeepsPlace` | src/sandbox/fs.rs:351-391 | at every step a handle is in one place, and the backend has ended it exactly once by the time it is in none |
| `HandleRuns.KeepsHunted` | src/sandbox/control.rs:35-42 | at every step a registered handle of a cancelled execution is about to be taken out, by its own open or by a cancel |
| `HandleRuns.EveryRun` | src/sandbox/fs.rs:541-655 | after every interleaving: both counts exact, non-negative and within their limits, no handle closed or aborted twice, every handle that nobody holds exactly once |
| `HandleRuns.CancelComplete` | src/sandbox/control.rs:35-42 | cancels and opens of a cancelled execution returned: nothing of it is registered, whichever side of the insert the flag fell |
| `HandleForever.CancelIsFinal` | src/sandbox/fs.rs:364-388 | and nothing of it is ever registered again |
| `HandleForever.NeverPublished` | src/sandbox/fs.rs:451-463 | after the flag is set, a handle whose close was not yet decided is never published; `ClosePublishes` and `PublishedHow` say which are |
| `HandleForever.GoneForever` | src/sandbox/fs.rs:618-628 | a handle that is gone stays gone, so a late drop, close or abort of it does nothing |
| `HandlePublish.FinishTakes` | src/sandbox/fs.rs:451-463 | `close` and `abort` take out a registered handle to end it as asked, and refuse any other |
| `HandlePublish.DecideCloses` | src/sandbox/fs.rs:456-460 | it is closed exactly if abort was not asked and the execution is neither cancelled nor expired then, and aborted exactly otherwise |
| `HandlePublish.ClosePublishes` | src/sandbox/fs.rs:451-463 | a close decided while its execution goes on publishes: after any steps of anyone, once the handle has ended it is published |
| `HandlePublish.PublishedHow` | src/sandbox/fs.rs:451-463 | a handle is published in a run only if at some moment of it a close was decided that was not asked to abort, in an execution going on |
| `HandlePublish.AskedBy` | src/sandbox/fs.rs:451-463 | and such a close comes only from `close` of a handle registered there |
| `HandlePublish.AbortNeverPublishes` | src/sandbox/fs.rs:446-463 | an aborted or abandoned handle is never published, whatever follows |
| `HandlePublish.AbandonAborts` | src/sandbox/fs.rs:588-615 | abandoning a handle, or dropping its registry, gives it up to be aborted |
| `HandlePublish.OpenGoesThrough` | src/sandbox/fs.rs:364-388 | an open with room in the pool and in its going execution, whose backend opens the file, ends with a fresh handle registered and counted once by each |
| `HandlePublish.NeverStuck` | src/sandbox/fs.rs:364-463 | after every run each open, job and cancel under way has a step to take next |
| `TimerHeap.HeapPush` | src/js/quickjs_shim.c:660-668 | keeps a min-heap on (due, seq) and adds exactly the entry |
| `TimerHeap.HeapPop` | src/js/quickjs_shim.c:669-683 | keeps a min-heap and removes exactly the first entry |
| `TimerHeap.RootIsLeast` | src/js/quickjs_shim.c:659-683 | nothing in a heap precedes its first entry |
| `TimerHeap.SortSorts` | src/js/quickjs_shim.c:697 | the sort used by compaction gives a sorted permutation, which is a heap |
| `TimerSpec.ApplyKeeps` | src/js/quickjs_shim.c:718-782 | no timer call breaks the loop, makes a timer due in the turn under way or queues an immediate ahead of another |
| `TimerTurn.FireKeeps` | src/js/quickjs_shim.c:797-809 | a fired timer is no longer due in its turn whatever its callback calls, and an interval waits again unless cleared or refreshed |
| `TimerTurn.ImmediateRuns` | src/js/quickjs_shim.c:813-821 | the first immediate of the budget that is still queued runs, cleared ones are passed over |
| `TimerTurn.OneTurn` | src/js/quickjs_shim.c:791-823 | a turn ends for any callbacks; it fires, in (due, seq) order, timers due when it began and leaves none due; then runs in FIFO order immediates queued before that phase, and reaches all of them |
| `TimerTurn.FiredOnce` | src/js/quickjs_shim.c:797-812 | no timer fires twice in a turn |
| `TimerTurn.FiredInOrder` | src/js/quickjs_shim.c:659-683 | timers fire by when they are due, those due at one moment in the order they were scheduled |
| `TimerDue.StartDue` | src/js/quickjs_shim.c:736-744 | a new timer is due its delay after it was started if that is within 1 to 2147483647 ms, and 1 ms after otherwise; it is referenced |
| `TimerDue.RefreshDue` | src/js/quickjs_shim.c:724-728 | a refresh makes a timer that was not cleared wait its delay over again, and leaves a cleared one so |
| `TimerDue.TurnDecides` | src/js/quickjs_shim.c:791-823 | in a turn that neither clears nor refreshes it a timer fires exactly if it is due when the turn begins; else it waits on for the same moment |
| `TimerDue.FiresFirst` | src/js/quickjs_shim.c:791-823 | over any turns, a timer not cleared or refreshed fires in the first that begins when it is due or later, and in no other |
| `TimerDue.StartedFires` | src/js/quickjs_shim.c:736-823 | so for what `setTimeout(f, d)` starts at t: the first turn that begins at t + d or later |
| `TimerDue.IntervalAgain` | src/js/quickjs_shim.c:797-812 | an interval that fired is due one delay after that turn began, and fires next in the first turn from then on; a timeout waits for nothing |
| `TimerDue.ClearKills` | src/js/quickjs_shim.c:745-751 | clearing by handle ends a timer, by number only one that is active |
| `TimerDue.ClearedForever` | src/js/quickjs_shim.c:724-751 | a cleared timer never fires, over any turns and whatever is called, `refresh` included |
| `TimerDue.ImmediateFires` | src/js/quickjs_shim.c:813-821 | an immediate queued when a turn begins, and not cleared in it, runs in it |
| `EventLoop.DropStale` | src/js/quickjs_shim.c:684-687 | dropping stale entries keeps the heap and every live entry, and ends at a live one |
| `EventLoop.PushAndCompact` | src/js/quickjs_shim.c:688-701 | after scheduling the heap still has every live entry once and is no longer than max(64, 2 x active timers) |
| `EventLoop.LiveCount` | src/js/quickjs_shim.c:696-699 | live entries are no more than active timers |
| `EventLoop.Glue.NextTimer` | src/js/quickjs_shim.c:684-687 | gives the least live entry, or none if there is none |
| `EventLoop.Glue.Schedule` | src/js/quickjs_shim.c:688-701 | the loop's own schedule, with heap, counters and length bound kept |
| `EventLoop.Glue.Unschedule` | src/js/quickjs_shim.c:702-706 | the loop's own unschedule, with counters exact |
| `EventLoop.Glue.SetTimerRef` | src/js/quickjs_shim.c:732-735 | the reference counter stays the number of active referenced timers |
| `EventLoop.Glue.StartTimer` | src/js/quickjs_shim.c:736-744 | the loop's own start, whose delay `StartDue` explains, with the length bound |
| `EventLoop.Glue.ClearTimer` | src/js/quickjs_shim.c:745-751 | a cleared timer has no live entry |
| `EventLoop.Glue.Call` | src/js/quickjs_shim.c:718-782 | every timer and immediate call is the specified one, with heap and all counters exact |
| `EventLoop.Glue.RunTimer` | src/js/quickjs_shim.c:797-823 | one callback, the one the loop without heap and counters would run |
| `EventLoop.Glue.RunTimers` | src/js/quickjs_shim.c:1456-1479 | the turn ends and its log is the specified turn's |
| `EventLoop.Glue.TimerDelay` | src/js/quickjs_shim.c:785-790 | the delay is that of the least live entry, 0 with an immediate queued, -1 with nothing to wait for |
| `EventLoop.Glue.Settle` | src/js/quickjs_shim.c:1490-1524 | with no host call pending the guest ends exactly when no referenced timer or immediate is left, parks only with a positive delay, and takes a turn exactly when something is ready; the delay it parks with is the fewest whole milliseconds to the first timer |
| `EventLoop.ReadyTurnRuns` | src/js/quickjs_shim.c:1456-1524 | a turn so started runs at least one callback, so the loop never spins |
| `EventLoop.DelayIsLeast` | src/js/quickjs_shim.c:785-790 | the delay told to the host is the fewest whole milliseconds to the moment the first timer is due, at most 2147483647, 0 with an immediate and -1 with nothing |
| `EventLoop.TimersHold` | src/js/quickjs_shim.c:688-751 | what each call adds to or takes from the timers that hold the loop open |
| `EventLoop.ImmediatesHold` | src/js/quickjs_shim.c:755-782 | the same for immediates, a new one going last |
| `HostCalls.ReserveIsFirst` | src/js/quickjs_shim.c:96-104 | the first free slot, or none exactly if all are in use |
| `HostCalls.Session.ReserveSlot` | src/js/quickjs_shim.c:96-104 | the scanning loop finds it |
| `HostCalls.Session.HostCall` | src/js/quickjs_shim.c:1092-1118 | a deferred call occupies the reserved slot and is counted; an inline answer changes nothing |
| `HostCalls.Session.Resolve` | src/js/quickjs_shim.c:1546-1595 | frees the slot and gives its own promise; a slot not in use is refused |
| `HostCalls.AnswerResolves` | tinysandbox-js-runtime/src/index.ts:1080-1105 | every delivered answer finds its slot in use and settles the promise of the call that reserved it |
| `HostCalls.SomeFree` | src/js/quickjs_shim.c:146-165 | a call the glue's count admits always has a free slot |
| `HostCalls.EveryRun` | tinysandbox-js-runtime/src/index.ts:947-1010 | in every run the driver waits for exactly the slots in use, `pending_count` of them and at most 64; each answer went to its own call, once; "nothing to wait on" is unreachable |
| `HostCalls.AsyncPlaced` | src/js/quickjs_shim.c:146-165 | a call of fs.promises waits exactly while 64 promises are held; else a deferred one gets the lowest free slot and any other is answered at once |
| `HostCalls.GlobalPlaced` | src/js/quickjs_shim.c:1092-1118 | a host global is deferred exactly if asked and fewer than 64 slots are in use |
| `HostCalls.NeverStuck` | tinysandbox-js-runtime/src/index.ts:947-1105 | after every run a running guest can call, release and park, and a parked one can be given every answer it waits for and woken by every timer, one of which there is |
| `HostCalls.NothingLost` | tinysandbox-js-runtime/src/index.ts:947-1010 | in every run each promise held is waited for by the driver or has its own answer |
| `Lexer.Lex` | src/shell/lex.rs:43-130 | the token loop equals the specified lexer, and its branch for `<` and `>` left over is dead |
| `Lexer.ScanRedirect` | src/shell/lex.rs:132-209 | the redirect scanner equals the one that `RedirectReads` explains |
| `Lexer.ScanWord` | src/shell/lex.rs:211-307 | the word loop equals the one that `SegmentsRead`, `EscapedCharReads` and `SpecialRefused` explain |
| `Lexer.ScanSingleQuoted` | src/shell/lex.rs:309-334 | the single-quote loop equals the one that `WordReads` and `SingleUnclosed` explain |
| `Lexer.ScanDoubleQuoted` | src/shell/lex.rs:336-383 | the double-quote loop equals the scanner that `DoubleReads` and `QuotedExpansionReads` explain |
| `Lexer.ScanExpansion` | src/shell/lex.rs:426-491 | the expansion scanner equals the one that `BracedReads` and `BareReads` explain |
| `Lexer.ScanBraced` | src/shell/lex.rs:493-570 | the `${...}` scanner equals the one that `BracedReads` explains |
| `ShellText.DoubleReads` | src/shell/lex.rs:336-424 | any string in double quotes, with a backslash before what they do not take literally, is that string as one quoted literal |
| `ShellText.BracedReads` | src/shell/lex.rs:493-570 | `${name}` and `${?}` are the expansion of that name, quoted or not, for every name but `_` |
| `ShellText.BareReads` | src/shell/lex.rs:426-491 | so is `$name`, if no character of a name follows |
| `ShellText.QuotedExpansionReads` | src/shell/lex.rs:336-383 | an expansion alone in double quotes is the quoted expansion and nothing else |
| `ShellText.RedirectReads` | src/shell/lex.rs:132-209 | a redirect written with decimal descriptors and operator is read as its token |
| `ShellText.SegmentsRead` | src/shell/lex.rs:211-307 | a word written piece by piece is read back as exactly its segments |
| `ShellShow.KindReads` | src/shell/lex.rs:43-130 | every token written with a blank after it is read as itself |
| `ShellShow.ShowLexes` | src/shell/lex.rs:43-130 | lexing what a sequence of tokens is written as gives the tokens |
| `ShellRefuses.CommentSkipped` | src/shell/lex.rs:53-56 | from a `#` where a token would begin, the text to the newline or the end leaves no token |
| `ShellRefuses.EscapedCharReads` | src/shell/lex.rs:385-396 | outside quotes a backslash and any character but a newline is that character, quoted |
| `ShellRefuses.ContinuationReads` | src/shell/lex.rs:385-396 | a backslash and a newline are nothing, and so is a backslash at the end |
| `ShellRefuses.DoubleKeeps` | src/shell/lex.rs:398-424 | what a backslash or a backtick does in double quotes |
| `ShellRefuses.SpecialRefused` | src/shell/lex.rs:252-281 | `*`, `?`, backticks, parentheses and braces are refused behind any plain text, each as its construct and where it stands |
| `ShellRefuses.BracketRefused` | src/shell/lex.rs:625-639 | a `[` is refused exactly if a `]` comes before the word ends |
| `ShellRefuses.TildeRefused` | src/shell/lex.rs:282-290 | a `~` is refused exactly at the start of a word, after a `=`, and after a `:` if there was a `=` |
| `ShellRefuses.DollarRefused` | src/shell/lex.rs:426-491 | what may not follow a `$` |
| `ShellRefuses.DollarAlone` | src/shell/lex.rs:426-491 | a `$` with nothing to expand after it is a `$` |
| `ShellRefuses.SingleUnclosed` | src/shell/lex.rs:309-334 | a single quote that nothing closes is an error where it stands |
| `ShellRefuses.DoubleUnclosed` | src/shell/lex.rs:336-383 | so is a double quote |
| `ShellRefuses.BackgroundRefused` | src/shell/lex.rs:103-108 | a single `&` is refused |
| `ShellRefuses.RedirectRefused` | src/shell/lex.rs:132-209 | heredocs and the descriptor forms that are not `>&n` are refused, behind a descriptor or not |
| `ShellRefuses.FdTooLarge` | src/shell/lex.rs:619-623 | a descriptor over 32 bits is an error where it begins |
| `ParseSpec.LexInBounds` | src/shell/lex.rs:43-130 | every token lies within the input |
| `Parser.AssignmentOf` | src/shell/parse.rs:230-306 | the assignment test, with the error position of `+=`, equals its specification |
| `Parser.Cursor.ParseCommand` | src/shell/parse.rs:76-162 | the cursor loop builds the specified command and stops where it ends |
| `Parser.Cursor.ParsePipeline` | src/shell/parse.rs:65-74 | the same for a pipeline |
| `Parser.Cursor.ParseAndOrList` | src/shell/parse.rs:49-63 | the same for an and-or list |
| `Parser.Cursor.ParseProgram` | src/shell/parse.rs:27-47 | the same for a program |
| `Parser.ParseInput` | src/shell/parse.rs:8-10 | text to program, by lexer and parser together |
| `ParseRoundTrip.AssignmentReads` | src/shell/parse.rs:230-277 | an assignment written as a word is read back as itself, and never as `+=` |
| `ParseRoundTrip.CommandReads` | src/shell/parse.rs:76-162 | a command written out is parsed as itself |
| `ParseRoundTrip.PrintParses` | src/shell/parse.rs:27-162 | every program whose commands can be written is parsed back from its tokens as itself, with `;` or newlines between lists and any newlines after operators, before the first list and after the last |
| `ParseImage.LexClean` | src/shell/lex.rs:592-611 | the lexer never makes an empty unquoted literal |
| `ParseImage.ProgramIs` | src/shell/parse.rs:27-162 | whatever is parsed can be written |
| `ParseImage.Reparses` | src/shell/parse.rs:8-162 | parse any text, write the program out as tokens, parse those: the same program |
| `ParseAccepts.AcceptsExactly` | src/shell/parse.rs:27-162 | tokens are a program exactly if each fits where it stands: commands on both sides of an operator, one before a `;`, a word after a redirect, no `!` at the start of a command, no `name+=` before its first word |
| `ParseAccepts.AppendsIs` | src/shell/parse.rs:230-277 | a word counts as `name+=` exactly if it begins so outside quotes |
| `ParseAccepts.AppendRefused` | src/shell/parse.rs:230-306 | it is then refused at its `+` |
| `ParseAccepts.PositionCounts` | src/shell/parse.rs:279-306 | which is found by counting characters past line continuations |
| `ShellShow.ShowParses` | src/shell/parse.rs:8-162 | a program written as text is parsed as itself, for words of quoted literals, expansions and plain text |
| `ShellShow.TextReparses` | src/shell/parse.rs:8-162 | parse any text, write the program as text, parse that: the same program, if its words are of that kind |
| `ShellRoundTrip.PushQuoted` | src/shell/lex.rs:592-611 | pushing a quoted literal adds its text whether or not it joins the segment before |
| `ShellRoundTrip.WordReads` | src/shell/lex.rs:211-334 | the quoted form of any string is read to its end and adds exactly that string |
| `ShellRoundTrip.QuotedIsPlain` | src/shell/parse.rs:230-277 | a quoted word is neither an assignment nor a negation |
| `ShellRoundTrip.QuotedLineParses` | src/shell/parse.rs:27-133 | any non-empty list of strings, quoted and spaced with blanks, parses to one simple command of that many quoted words |
| `ShellBudget.RoundTrip` | src/sandbox/expansion.rs:65-116 | and in every environment that command expands to exactly the list, with no assignment and no redirect |
| `ExpandSpec.OnePass` | src/sandbox/expansion.rs:65-116 | building fields in one pass gives the groups between separators without those that hold neither a character nor a mark |
| `ExpandSpec.OneField` | src/sandbox/expansion.rs:38-43 | without splitting there is exactly one field, so an assignment always has its value |
| `Expansion.Budget.Charge` | src/sandbox/expansion.rs:18-21 | takes the bytes if they are there and never goes below zero |
| `Expansion.Budget.SplitValue` | src/sandbox/expansion.rs:95-110 | the loop over parts continues the fields as the definition does, and fails exactly if they cannot be paid |
| `Expansion.Budget.ExpandWord` | src/sandbox/expansion.rs:65-116 | gives the fields of the word, which the rows below explain, exactly if the budget covers their cost, and takes exactly that |
| `Expansion.Budget.ExpandCommand` | src/sandbox/expansion.rs:23-63 | the same for a command with its environment, assignments, words and redirects |
| `ExpandMeaning.QuotedVariable` | src/sandbox/expansion.rs:79-94 | a quoted expansion is one field, the value of the variable, empty if it is not set |
| `ExpandMeaning.UnquotedVariable` | src/sandbox/expansion.rs:79-114 | an unquoted one gives exactly the maximal runs of its value without blank, tab and newline |
| `ExpandMeaning.StatusExpands` | src/sandbox/expansion.rs:80-81 | `?` gives the decimal numeral of the status |
| `ExpandMeaning.WholeWord` | src/sandbox/expansion.rs:65-116 | without splitting a word is its literals and values joined in order |
| `ExpandMeaning.AssignLast` | src/sandbox/expansion.rs:38-43 | an assignment binds its name to the value of its word in the environment the earlier ones made, and no other name |
| `ExpandMeaning.LaterAssignmentSees` | src/sandbox/expansion.rs:36-43 | a later assignment sees an earlier one |
| `ExpandMeaning.WordsSeeBase` | src/sandbox/expansion.rs:44-47 | the command's words do not |
| `ExpandMeaning.RedirectSeesAssignment` | src/sandbox/expansion.rs:48-56 | a redirect does exactly if the words expand to nothing |
| `ShellBudget.QuotedListCost` | src/sandbox/expansion.rs:23-63 | a quoted list is charged 80 bytes, 24 for each string, and the strings |
| `ShellBudget.EnvCostAdds` | src/sandbox/expansion.rs:30-34 | each variable of the environment is charged 48 bytes, its name and its value |
| `ShellBudget.CharBytesLeast` | src/sandbox/expansion.rs:87 | a character is charged the fewest bytes of UTF-8 that hold it |
| `ShellBudget.PartsCost` | src/sandbox/expansion.rs:23-63 | and what assignments and redirects are charged |
| `ShellBudget.FieldsHeld` | src/sandbox/expansion.rs:87-114 | a word's fields hold no more than was charged for them |
| `ShellBudget.CommandHeld` | src/sandbox/expansion.rs:23-63 | a command's environment, words and targets hold no more than was charged |
| `ShellBudget.ExpandPipeline` | src/sandbox/mod.rs:472-490 | all stages expand exactly if the one budget covers them all, and all they hold fits in it |
| `CappedOutput.Output.Write` | src/sandbox/mod.rs:1478-1516 | after any write the parts kept are those of the whole stream |
| `CappedOutput.Output.Push` | src/sandbox/mod.rs:1518-1536 | the tail is the last bytes of what it held and what came |
| `CappedOutput.Output.Finish` | src/sandbox/mod.rs:1538-1550 | the capture of the whole stream |
| `CappedOutput.CaptureChunks` | src/sandbox/mod.rs:1457-1551 | the capture depends only on the bytes and not on how they were cut into writes |
| `CappedOutput.CaptureFills` | src/sandbox/mod.rs:1478-1550 | a truncated capture fills its cap exactly, with both ends of the stream and no overlap, if the cap exceeds the marker |
| `CappedOutput.CaptureTells` | src/sandbox/mod.rs:1538-1544 | it says it is truncated exactly if the stream is longer than the cap, and is the stream itself otherwise |
| `CappedOutput.CaptureWithinCap` | src/sandbox/mod.rs:1538-1550 | the capture stays within the cap exactly if nothing is cut or the cap has room for the marker |
| `CappedOutput.SmallCapOverflows` | src/sandbox/mod.rs:1542-1544 | a cap smaller than the marker is overrun, shown on one input |
| `LineBuffer.Buffer.ReadLine` | src/sandbox/builtins.rs:2070-2115 | for any chunks, the next line of the stream, the end, or an error exactly if that line is over 1 MiB; nothing is lost |
| `LineBuffer.Buffer.Fill` | src/sandbox/builtins.rs:2101-2113 | compaction and another chunk leave what is ahead as it was |
| `LineBuffer.LinesConcat` | src/sandbox/builtins.rs:2062-2115 | the lines are all of the stream, in order |
| `LineBuffer.LinesShape` | src/sandbox/builtins.rs:2074-2099 | each line ends at its only newline, or is the last |
| `LineBuffer.Tail` | src/sandbox/builtins.rs:1381-1407 | the byte deque emits exactly the last n lines; an error exactly at the first line over its limit or window over its own |
| `LineBuffer.From` | src/sandbox/builtins.rs:1408-1417 | every line from the given number on, up to the first over the limit |
| `Globals.NeighboursConflict` | tinysandbox-js-runtime/src/index.ts:143-149 | on sorted valid names, looking only at neighbours finds a conflict exactly when some pair conflicts |
| `Globals.BetweenIsInside` | tinysandbox-js-runtime/src/index.ts:143-149 | between a namespace and a name in it, in order, there is nothing outside it, because `.` sorts below every other character of a name |
| `Globals.ValidateGlobals` | tinysandbox-js-runtime/src/index.ts:125-151 | accepts exactly the names that are valid, not reserved and free of conflict, and returns them sorted |
| `Globals.Merge` | src/sandbox/mod.rs:2258-2279 | accepts exactly entries that are allowed, named once and in conflict with nothing, and then binds them all |
| `Globals.MergeKeepsConflictFree` | src/sandbox/mod.rs:2258-2279 | merging into a conflict-free registry is accepted exactly if it stays conflict-free |
| `GlobalTree.InsideIsPrefix` | src/sandbox/mod.rs:2300-2307 | one name is inside another exactly if its dotted parts go on from the other's |
| `GlobalTree.InstallFinds` | src/js/quickjs_shim.c:182-207 | an installed path finds its function, namespaces on the way are namespaces, and every other path is as it was |
| `GlobalTree.InstallsAll` | src/js/quickjs_shim.c:182-207 | installing a list of names never collides exactly if no two conflict and no root was taken; then each finds its own function |
| `GlobalTree.AcceptedInstalls` | src/js/quickjs_shim.c:182-207 | a set that validation accepted never makes two of its own names collide |

## Left out

- src/vfs/local.rs and the S3 backend: their meaning rests on the operating system and the network.
- Wasmtime, QuickJS itself, epoch interruption, memory limits and the jq guest.
- Tokio scheduling, wakers, semaphores and cleanup threads: the handle protocol keeps only the order that mutexes and atomics give; a handed-over cleanup is a job whose steps may come at any time. That model is a step relation on values, not a class per registry.
- `abandon_all` and the drop of a registry take all handles in one step, as the mutex makes them; the jobs then go on separately.
- The deadline of an execution is a flag that may be raised at any time.
- `stats`, `is_fast` and the mounted `stat` and `readdir`: easy queries.
- MemSpec.ReadDir: the order of the listing is not modelled, and there is no method of the class for it.
- The directory tree is a value and is edited by copying the path, where the code edits it in place; buffers are edited in place.
- `remove_tree` recursing into children: its callers only detach files and empty directories, which is proved.
- Dropping and cloning a snapshot object.
- Inode and handle numbers are unbounded in the backend; the wrap-around of a 64-bit counter and the retry loop of `insert_handle` are not modelled.
- Allocation failure anywhere.
- Timer callbacks that throw, `process.exit`, the interrupt check between turns, unhandled rejections and exit status 13: a turn is modelled for a guest that goes on.
- Timer delays and clock readings are reals, without floating-point rounding; what is not a finite number is one value.
- Fairness of `slotWaiters`: only that a call let through has a slot. A guest that replaces the built-in `Promise` is not modelled.
- The synchronous host calls, which are answered before they return and hold no slot.
- UTF-8: lexer and parser positions count characters, and so do error positions; the budget counts bytes.
- ShellShow.ShowParses: unquoted text with `$`, `[` or `~` where the lexer happens to take it literally is not written out; `DollarAlone`, `BracketRefused` and `TildeRefused` say when it does.
- Texts of errors, and which token a parse error says it expected.
- Cancellation checks between the stages of `exec_pipeline`, and the command count limit.
- I/O errors of a reader, head mode of `head_tail_reader`, and headers between files.
- `installGlobals` builds objects in place; the model builds the tree as a value.
- Coreutils flags, grep, sed, console formatting, fetch, Node bindings, prompts and benchmarks.
