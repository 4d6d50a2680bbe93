# NFS-Ganesha 5.7: models and proofs of its stateful cores

NFS-Ganesha is a user-space NFS server. This project models the parts of it whose correctness
depends on many steps or many cases at once, in Dafny 4.11, and proves what they keep. `dafny verify
dfyconfig.toml` checks all of it.

- **File descriptors** (`FdWork.dfy`, `FdRuns.dfy`, `FdReclaim.dfy`, `FdOpens.dfy`, `FdSignals.dfy`). I/O and
  open/close on one `fsal_fd` keep out of each other's way with four atomic counters, a mutex and a
  condition variable. The model is a transition system:
  a step is one atomic operation of one thread, any number of threads interleave, and a blocked lock
  is a step that changes nothing. Every counter is shown to be the sum of what each thread has
  pending; from that follow exclusion, the stability of the open mode during I/O, and that the whole
  protocol refines a readers-writer lock. `FdReclaim` has the calls of `fsal_start_fd_work` and when they
  leave the descriptor unusable; `FdOpens` says when a request gets its descriptor; `FdSignals` adds who is
  woken by a signal.
- **Duplicate request cache** (`DupReq.dfy`, `DrcRecycle.dfy`, `DrcRuns.dfy`, `DrcLeaks.dfy`,
  `DrcRepeats.dfy`, `DrcTwice.dfy`, `DrcAnswers.dfy`, `DrcRetire.dfy`, `DrcSchedules.dfy`). `DupReq` has the entries of one cache and the
  requests that use them, step by step; `DrcRecycle` adds the caches of all client addresses, their
  connections, and the recycle queue; `DrcRuns` states what every run of all that keeps. A step is what a
  thread does under its locks, up to where it lets go of them.
- **NFSv4 ACLs** (`Acl.dfy`, `Removal.dfy`, `ModeAcl.dfy`, `AclMode.dfy`, `InheritAcl.dfy`, `PosixAcl.dfy`,
  `PosixMeaning.dfy`, `PosixRest.dfy`, `PosixXattr.dfy`). `Acl.Decision`, the first ACE that settles a bit, is the
  meaning of an ACL; the evaluation loop is proved to compute it, and the transformations (mode to
  ACL, inheritance, POSIX ACL to NFSv4 ACL) are proved to keep it or shown to fail to, with the exact
  condition. Masks are sets of bit numbers (`Bits.dfy`).
- **Share reservations** (`Shares.dfy`), **filesystem claims** (`Claims.dfy`,
  `ClaimEffects.dfy`, `ClaimEnds.dfy`, `Releases.dfy`, `ClaimRuns.dfy`, `ClaimForest.dfy`, `ClaimScenes.dfy`),
  **callback slots** (`CbSlots.dfy`) and **LISTXATTRS paging** (`Xattrs.dfy`).

`Tally.dfy` has sums over sequences, which all the counting arguments use. `Options.dfy` has the
usual option type.

Where the code and its own comments disagree the model follows the code. What that shows:

- A refused reclaim (`fsal_start_fd_work` with `is_reclaiming`) returns with `fd_work` still raised.
  `FdReclaim.FdNetEffect` says exactly which calls do that, `RefusedReachable` is a run with one, and
  `IoStartsIffNoneRefused` shows that I/O on the descriptor can start again iff there has been none.
- `work_cond` has two kinds of waiter and is signalled, not broadcast, and a wake-up can be lost in two
  ways. The signal can go to the wrong kind of waiter, which sleeps again (`FdSignals.SignalLost`); or to
  the right kind, a reader that then fails because the descriptor is in the wrong mode, and returns
  without waking the next reader (`FailedReaderKeepsSignal`). `StuckIffLost` says of every run that it
  comes to rest with a thread asleep iff its last signal left one asleep with nothing to wait for, and
  `SleeperCanBeLeft` that it can whenever everybody else can stop without a signal. One sleeper at a time
  is safe (`OneSleeperIsEnough`, `NoLostWakeUp`).
- When the reply cannot be sent and duplicates wait, `nfs_dupreq_finish` returns without setting
  `rc`. The comment says the duplicates will then try to respond; they go away unanswered, the branch
  that would resend is never taken, and a duplicate that comes later waits for ever
  (`DrcRuns.StrandedReachable`, `StrandedForEver`, `ResumedNeverResends`). `DrcRuns.LostMeans` tells
  such an entry by what is in the cache, and `StrandedOnlyIfLost` shows that nothing else strands a
  duplicate.
- A duplicate that is dropped because too many wait keeps its reference on the DRC, which is then
  never recycled (`DrcLeaks.LeakReachable`, `LeakedForEver`; `LeakStep` has the exact guard).
- A request is executed once for each entry, not once for each xid. A finish retires the entry at the
  head of the queue even while its request runs, and a duplicate then runs beside it
  (`DrcTwice.TwiceByRetiring`, for every configuration). A delete does it too, with nothing retired: a
  duplicate can find the entry after the delete saw that nobody waits and before it is out of the table,
  and is then told by the entry's old status to run the request (`DrcTwice.TwiceByDeleting`). Calling an
  entry hot while someone executes it, or will because of its status, no request runs twice at once in a
  run in which no hot entry leaves the table (`DrcRepeats.OnceAtATime`), and after every step that takes
  one out some continuation has a request run twice (`HotActRepeats`). `HotGuards` says which steps can.
- The flag that says "an ACE must allow this" stays in the mask that ACEs have to cover, so such a
  request is never granted to anyone but root, and `fsal_remove_access` never profits from DELETE or
  DELETE_CHILD being allowed (`Acl.RequiredNeverGranted`, `Removal.RemoveByAdding`), unless an ACE has that
  flag among its permissions (`Removal.RemoveAccess`).
- `fsal_mode_to_acl` steps its write cursor over entries it skips; it ends where it counted it would
  iff the source has no mode-generated ACE (`ModeAcl.CursorAgrees`). With a generated and another ACE
  it writes past the end of its list (`ModeAcl.MixedSourceOverruns`), and only then (`ModeToAcl`).
- `fsal_mode_to_acl` tells a special ACE by its number alone: an ACE for the user or group 1, 2 or 3 loses
  its read, write and execute bits as one for the owner does (`ModeAcl.UserOneLosesRead`). A named ACE
  keeps its say iff that is not so (`NamedDecidesIff`), and then goes before the mode
  (`NamedBeforeMode`).
- An ACE for a directory and for new files and theirs becomes, when the directory's mode is set, one for the
  directory and an inherit-only one, and `fsal_inherit_acls` hands that on to a new file as inherit-only: the
  file gets nothing by it (`InheritAcl.NewFilesLoseRead`). New directories lose nothing, and new files lose
  nothing iff there is no such ACE (`InheritAcl.ModeKeepsInheritance`). For the same reason a default POSIX ACL
  gives a new directory exactly what it says and a new file nothing (`PosixRest.DefaultAclInherited`).
- `fsal_acl_to_mode` goes by the last ACE, the ACL check by the first. A mode that goes through its
  generated ACEs and back is the same iff its three classes are (`AclMode.RoundTripIffAlike`); 0400
  becomes 0 (`OwnerOnlyIsLost`).
- Directory inheritance counts an ACE that is inherit-only and for nothing, and does not copy it; the
  count is right iff there is none (`InheritAcl.Strays`; `StrayIsCounted` is a case), and the meaning
  is right in any case.
- The converted POSIX ACL can grant what the mask cuts and OTHER grants, grant a request that no single
  group entry grants but several do together, and refuse what a second group grants
  (`PosixMeaning.MaskSlips`, `SplitIsGranted`, `FirstGroupDenies`). `PosixMeaning.AgreesIffFaithful`
  says of every request that it goes wrong in exactly these ways.
- A root claim that meets child claims of its own FSAL on the filesystem also ends that FSAL's
  subtree claims there, which the comment says may stay (`ClaimForests.ClaimForest.MakeRoom` and
  `ProcessClaim`; `ClaimScenes.RootClaimEndsSubtree` is a run). The subtree's export is left with a
  root_fs that it has no claim on, and when the other export goes the filesystem is freed under it
  (`ClaimScenes.RootFsDangles`). `ClaimRuns.ClaimKeepsIff` says exactly which claims do that, every
  export's root_fs stays mounted in every run without one (`RootFsMounted`), and after one a live
  export's root_fs can be made to dangle (`StrippedIsBare`, `ClaimScenes.DriveToDangling`).
- Below the first level a claim is made with no path, so a second export of the same path gets none of
  the filesystems there that the first one has (`ClaimEffects.SecondExportGetsNone`;
  `ClaimScenes.SecondGetsTwo` is a run), although the comment says that exports of the same path share
  them.

## Model

| member | source | states |
|---|---|---|
| FdWork.NextAccounts | nfs-ganesha-5.7/src/FSAL/commonlib.c:2154-2393 | every atomic step of any call moves io_work, fd_work, want_read and want_write by exactly the change in the stepping thread's own contribution |
| FdWork.InvKept | nfs-ganesha-5.7/src/FSAL/commonlib.c:1934-2393 | any step of any thread keeps all of: counters are the sums of the contributions, the mutex has the owner its program counter says, I/O excludes fd work, every checked mode serves |
| FdRuns.RunInv | nfs-ganesha-5.7/src/FSAL/commonlib.c:2154-2393 | those hold in every state of every run of any number of threads |
| FdRuns.IoExcludesFdWork | nfs-ganesha-5.7/src/FSAL/commonlib.c:2154-2393 | in no reachable state is one thread doing I/O while another, or itself, is inside the open/close section, and at most one is inside it |
| FdRuns.ModeServesUntilComplete | nfs-ganesha-5.7/src/FSAL/commonlib.c:2194-2393 | from the success of wait_to_start_io to that thread's fsal_complete_io the open mode satisfies the request and does not change |
| FdRuns.CheckAfterBackOffPasses | nfs-ganesha-5.7/src/FSAL/commonlib.c:2288-2302 | once the back-off loop body has run in an attempt, the mode check after it always passes, as the comment there says |
| FdRuns.OwnNetIsPart | nfs-ganesha-5.7/src/FSAL/commonlib.c:2154-2870 | over any stretch of a run, what one thread's own steps did to the counters is the change in its contribution |
| FdRuns.WaitNetEffect | nfs-ganesha-5.7/src/FSAL/commonlib.c:2154-2393 | over every path through the loops and the retry, wait_to_start_io's own steps change want_read, want_write and fd_work by zero and io_work by one on success, zero on error |
| FdRuns.CountersAtRest | nfs-ganesha-5.7/src/FSAL/commonlib.c:2740-2870 | when all threads are outside the calls io_work is the number doing I/O, fd_work the number of refused reclaims, and the want counters are zero |
| FdRuns.RefusedReclaimBlocksIo | nfs-ganesha-5.7/src/FSAL/commonlib.c:2791-2843 | after a refused reclaim no thread starts I/O in any continuation; the run that gets there and the exact condition are in FdReclaim |
| FdRuns.ReopenServesWaiters | nfs-ganesha-5.7/src/FSAL/commonlib.c:2034-2076 | a re-open that succeeds leaves the descriptor in a mode with every access that some thread's request had counted when the re-open read the counters |
| FdReclaim.FdNetEffect | nfs-ganesha-5.7/src/FSAL/commonlib.c:2791-2870 | over every path and interleaving, a call from fsal_start_fd_work on raises fd_work for good iff it is a reclaim that saw want_read, want_write or io_work above zero |
| FdReclaim.ReclaimAlone | nfs-ganesha-5.7/src/FSAL/commonlib.c:2791-2870 | a reclaim that runs alone is refused and leaves fd_work raised iff the descriptor is in use, and otherwise changes only the mode |
| FdReclaim.IoStartsIffNoneRefused | nfs-ganesha-5.7/src/FSAL/commonlib.c:2194-2843 | from every reachable state of rest with a mode that serves, a request can come to do I/O in some continuation iff no reclaim was ever refused |
| FdReclaim.RefusedReachable | nfs-ganesha-5.7/src/FSAL/commonlib.c:2791-2843 | a run of two threads after which all is at rest and fd_work is one |
| FdOpens.IoStartsIff | nfs-ganesha-5.7/src/FSAL/commonlib.c:2154-2393 | from every reachable state of rest a request can come to do I/O, the others only finishing theirs, iff no reclaim was refused and the mode serves it, or it may open and the descriptor is closed, or it may re-open |
| FdOpens.ServedAfterWait | nfs-ganesha-5.7/src/FSAL/commonlib.c:2194-2290 | a request whose wait for fd work is over, and nobody else in it, does I/O if it can be served so |
| FdOpens.ServesIff | nfs-ganesha-5.7/src/include/fsal.h:608-620 | a descriptor serves a request for any mode iff it is open, and another iff it is open for each access wanted |
| FdOpens.ReopenKeepsAccess | nfs-ganesha-5.7/src/FSAL/commonlib.c:2034-2076 | in every run a re-open that succeeds takes no access away, and one that finds all it wants there leaves the descriptor alone |
| FdOpens.ReopensOnce | nfs-ganesha-5.7/src/FSAL/commonlib.c:2302-2374 | in every run one call re-opens after its back-off loop at most once |
| FdSignals.SignalLost | nfs-ganesha-5.7/src/FSAL/commonlib.c:2740-2770 | a run of three threads after which a reader and a closer are both asleep, io_work is zero, and nobody is left to wake the closer |
| FdSignals.FailedReaderKeepsSignal | nfs-ganesha-5.7/src/FSAL/commonlib.c:2194-2252 | a run of three threads after which one reader has failed and another waits for fd work though fd_work is zero |
| FdSignals.StuckIffLost | nfs-ganesha-5.7/src/FSAL/commonlib.c:2011-2870 | a run without a refused reclaim ends with everybody at rest and someone asleep iff everybody is at rest and its last signal left a thread asleep with nothing to wait for |
| FdSignals.SleeperCanBeLeft | nfs-ganesha-5.7/src/FSAL/commonlib.c:2194-2870 | from every reachable state in which a thread sleeps and each other one is on its way out, or woken for nothing, a continuation in which all come to rest and it sleeps |
| FdSignals.NoLostWakeUp | nfs-ganesha-5.7/src/FSAL/commonlib.c:2011-2870 | in every run in which no signal leaves a thread asleep with nothing to wait for, the threads never all come to rest with one asleep, but for a refused reclaim |
| FdSignals.OneSleeperIsEnough | nfs-ganesha-5.7/src/FSAL/commonlib.c:2011-2870 | no signal is lost in that way if at most one thread slept |
| FdRuns.RefinesRwLock | nfs-ganesha-5.7/src/FSAL/commonlib.c:1303-1356 | seen as the set of threads that pin the mode, the set that may change it, and the mode, every step is a step of a readers-writer lock |
| DupReq.UnqueueOk | nfs-ganesha-5.7/src/RPCAL/nfs_dupreq.c:1348-1419 | leaving the queue takes out exactly that entry |
| DupReq.Present | nfs-ganesha-5.7/src/RPCAL/nfs_dupreq.c:923-1000 | an entry that a request is attached to, or whose table reference a thread owes, exists and is where the thread left it |
| DupReq.MoveInv | nfs-ganesha-5.7/src/RPCAL/nfs_dupreq.c:1050-1490 | every step of every request keeps the whole invariant of a cache: queue and table, reference books, one worker per incomplete entry, places of requests, waiting queues |
| DrcRecycle.QueuedNodeFacts | nfs-ganesha-5.7/src/RPCAL/nfs_dupreq.c:507-576 | a queued DRC has no references, no request near it, and each of its entries exactly the table's reference |
| DrcRecycle.ActInv | nfs-ganesha-5.7/src/RPCAL/nfs_dupreq.c:585-789 | arrival, getting and putting a DRC, every request step, closing a connection and expiry keep the invariant over all DRCs and the recycle queue |
| DrcRuns.RecycleQueueSound | nfs-ganesha-5.7/src/RPCAL/nfs_dupreq.c:585-789 | in every reachable state queued means flagged and refcnt 0, qlen is the length, and a live DRC with refcnt 0 that is not queued has exactly one thread about to queue it |
| DrcRuns.NoRiseBeforeQueued | nfs-ganesha-5.7/src/RPCAL/nfs_dupreq.c:585-730 | a live DRC's refcnt rises from 0 only in a step that takes it off the queue |
| DrcRuns.QueuerQueues | nfs-ganesha-5.7/src/RPCAL/nfs_dupreq.c:741-789 | the thread that saw refcnt 0 always finds it still 0 and unqueued after relocking, and queues it |
| DrcRuns.EntryReferences | nfs-ganesha-5.7/src/RPCAL/nfs_dupreq.c:1223-1490 | an entry's refcnt is the attached requests plus the table's reference, which at most one of queue, mid-delete and owing thread has, so it is dropped once |
| DrcRuns.ExpireFreesEverything | nfs-ganesha-5.7/src/RPCAL/nfs_dupreq.c:507-576 | the asserts of drc_free_expired hold for the head of the queue, the queue has all the entries, and none is left after |
| DrcRuns.QueueMatchesTable | nfs-ganesha-5.7/src/RPCAL/nfs_dupreq.c:1266-1419 | size is the queue's length, every queued entry is in the table, and the two agree when no delete is between its removals |
| DrcRuns.RetiresFromHead | nfs-ganesha-5.7/src/RPCAL/nfs_dupreq.c:1266-1331 | a finish takes entries only from the head of the queue, and goes on to its next turn or stops as its count says |
| DrcRuns.FinishRetiresFew | nfs-ganesha-5.7/src/RPCAL/nfs_dupreq.c:1266-1331 | under any schedule one finish retires at most six entries |
| DrcRuns.OneWorkerPerEntry | nfs-ganesha-5.7/src/RPCAL/nfs_dupreq.c:1102-1144 | an incomplete entry has at most one active request, the service function runs only for incomplete entries, and at most DUPREQ_MAX_DUPES ever waited |
| DrcRuns.DuplicatesInArrivalOrder | nfs-ganesha-5.7/src/RPCAL/nfs_dupreq.c:1429-1490 | a step resumes at most the longest-waiting duplicate, only a release does, and a new one waits behind all others |
| DrcRuns.NeverRunAgain | nfs-ganesha-5.7/src/RPCAL/nfs_dupreq.c:1102-1144 | once an entry is complete, in no continuation is the service function run for it again, even after it is gone |
| DrcRuns.LostMeans | nfs-ganesha-5.7/src/RPCAL/nfs_dupreq.c:1238-1254 | an entry in the table is lost iff it is incomplete, has no status, and no request executes, finishes or deletes it |
| DrcRuns.LostIffUnfinished | nfs-ganesha-5.7/src/RPCAL/nfs_dupreq.c:1238-1254 | so in every reachable state |
| DrcRuns.NobodyForgotten | nfs-ganesha-5.7/src/RPCAL/nfs_dupreq.c:1429-1490 | as long as an entry is not lost, someone is at work whenever a duplicate waits on it, in every run |
| DrcRuns.StrandedOnlyIfLost | nfs-ganesha-5.7/src/RPCAL/nfs_dupreq.c:1238-1254 | a reachable waiting duplicate with nobody at work for it waits on a lost, incomplete entry |
| DrcRuns.StrandedForEver | nfs-ganesha-5.7/src/RPCAL/nfs_dupreq.c:1102-1144 | a duplicate that waits on a lost entry is still waiting in every continuation |
| DrcRuns.StrandedReachable | nfs-ganesha-5.7/src/RPCAL/nfs_dupreq.c:1238-1254 | a run, from a quiet server and under any configuration, that strands a duplicate |
| DrcRuns.ResumedNeverResends | nfs-ganesha-5.7/src/MainNFSD/nfs_worker_thread.c:1560-1631 | a resumed duplicate runs the request again if it was dropped or failed authentication and otherwise goes away; the resend branch is never taken |
| DrcAnswers.StartAnswers | nfs-ganesha-5.7/src/RPCAL/nfs_dupreq.c:1050-1190 | the four answers of a start, each iff: an unknown key is entered and run, a duplicate in progress waits last in line while fewer than three came before, and is dropped otherwise, and one of an answered request is answered from the cache; how the window grows |
| DrcAnswers.StartInRun | nfs-ganesha-5.7/src/RPCAL/nfs_dupreq.c:1050-1190 | the same at every start of every run |
| DrcAnswers.RunOutcome | nfs-ganesha-5.7/src/RPCAL/nfs_dupreq.c:1223-1419 | what the service function returns, for each value and with or without duplicates waiting, is what becomes of the entry and of the request |
| DrcAnswers.ReleasedOnlyAfter | nfs-ganesha-5.7/src/MainNFSD/nfs_worker_thread.c:1079-1130 | in every run a request is let go of only after it was answered from the cache, was resumed from waiting, or finished or deleted the entry that it ran |
| DrcRetire.RetiresSurplus | nfs-ganesha-5.7/src/RPCAL/nfs_dupreq.c:1266-1331 | a finish that nobody comes between retires exactly what is above the maximum, or above the high water mark once the window has run out, and at most six entries, from the head |
| DrcLeaks.LeakStep | nfs-ganesha-5.7/src/RPCAL/nfs_dupreq.c:1121-1137 | a step leaks a reference on the DRC iff it starts a request that is in the table and incomplete with DUPREQ_MAX_DUPES duplicates before it |
| DrcLeaks.LeakedForEver | nfs-ganesha-5.7/src/RPCAL/nfs_dupreq.c:741-789 | from then on, in every continuation, the DRC has a reference, is not queued for recycling and is not freed |
| DrcLeaks.LeakReachable | nfs-ganesha-5.7/src/RPCAL/nfs_dupreq.c:1121-1137 | a run, from a quiet server and under any configuration, that leaks |
| DrcLeaks.CloseQueuesIff | nfs-ganesha-5.7/src/RPCAL/nfs_dupreq.c:741-789 | closing a connection queues its DRC for recycling iff no request is under way on it and its reference is the last, leaked ones included |
| DrcRepeats.LeavesTableIff | nfs-ganesha-5.7/src/RPCAL/nfs_dupreq.c:1266-1419 | an entry leaves the table in a request's step iff a finish retires it from the head of the queue or its own request deletes it |
| DrcRepeats.HotGuards | nfs-ganesha-5.7/src/RPCAL/nfs_dupreq.c:1266-1419 | a finish takes out an entry that is or will be executed only if it retires an incomplete one, a delete iff a duplicate waits and the entry's status says to try again |
| DrcRepeats.OnceAtATime | nfs-ganesha-5.7/src/RPCAL/nfs_dupreq.c:1050-1490 | in every run in which no entry leaves the table that is executed, or will be because of its status, no two requests execute the same key at once |
| DrcRepeats.HotOutRepeats | nfs-ganesha-5.7/src/RPCAL/nfs_dupreq.c:1050-1490 | from every state of the invariant with such an entry outside the table, an idle request and a connection, a continuation in which two requests execute its key at once |
| DrcRepeats.HotActRepeats | nfs-ganesha-5.7/src/RPCAL/nfs_dupreq.c:1266-1419 | so after every step, of a finish or a delete, that takes such an entry out of the table |
| DrcTwice.TwiceByRetiring | nfs-ganesha-5.7/src/RPCAL/nfs_dupreq.c:1266-1331 | for every configuration a run, from a quiet server, in which an entry is retired while its request runs, and a duplicate runs beside it |
| DrcTwice.TwiceByDeleting | nfs-ganesha-5.7/src/RPCAL/nfs_dupreq.c:1348-1419 | for every configuration a run of four requests in which nothing is retired, and two execute the same key at once |
| Acl.FindGroup | nfs-ganesha-5.7/src/FSAL/access_check.c:55-68 | finds the group iff it is the caller's own or in its list |
| Acl.DecisionIsFirstDecider | nfs-ganesha-5.7/src/FSAL/access_check.c:572-678 | the decision on a bit is the kind of the first applicable ACE that has it, undecided iff there is none (section 6.2.1 of RFC 7530) |
| Acl.Scan | nfs-ganesha-5.7/src/FSAL/access_check.c:572-678 | the loop leaves each needed bit missing, allowed or denied as its decision is, or stops at the first ACE that denies a missing bit, with the right error |
| Acl.CheckAccessAcl | nfs-ganesha-5.7/src/FSAL/access_check.c:460-704 | a caller but root is granted a request iff every bit is first decided by ALLOW or is one of the four that the owner always has, root iff the object is a directory or nobody is asked to execute it or somebody may; with CONTINUE and a denied pointer the allowed bits are exact and the denied ones miss none; which error comes when |
| Acl.GrantedIff | nfs-ganesha-5.7/src/FSAL/access_check.c:491-572 | that, for every ACL, caller, object and request |
| Acl.RequiredNeverGranted | nfs-ganesha-5.7/src/FSAL/access_check.c:491-498 | a request with the required-ACE flag is never granted to a caller other than root |
| Acl.CheckAccessNoAcl | nfs-ganesha-5.7/src/FSAL/access_check.c:718-835 | granted iff the caller's class of mode bits, or for root the rule for root, has each access; the allowed and denied bits exactly |
| Removal.TestAccess | nfs-ganesha-5.7/src/FSAL/access_check.c:845-885 | the owner is let through with owner_skip; otherwise which check a request goes to and what it then answers |
| Removal.StopsIffDenied | nfs-ganesha-5.7/src/FSAL/access_check.c:619-664 | evaluation is cut short iff some needed bit's first decider denies it |
| Removal.RemoveAccess | nfs-ganesha-5.7/src/FSAL/commonlib.c:683-755 | for any ACLs: a removal is allowed to root, and to another caller iff it may search, and is given DELETE or DELETE_CHILD together with the required-ACE flag, or is denied none of those and may add; otherwise EACCES |
| Removal.RemoveByAdding | nfs-ganesha-5.7/src/FSAL/commonlib.c:683-755 | with ACEs whose permissions are those of the protocol, that is iff it may search and add and neither delete permission is denied |
| Removal.DeleteIsNotEnough | nfs-ganesha-5.7/src/FSAL/commonlib.c:703-737 | a case with execute, DELETE and DELETE_CHILD allowed where removal is refused, against the comment |
| ModeAcl.SetAce | nfs-ganesha-5.7/src/FSAL/commonlib.c:790-812 | splits read, write with append, and execute between a DENY and an ALLOW entry by the mode |
| ModeAcl.GenSet | nfs-ganesha-5.7/src/FSAL/commonlib.c:814-853 | writes the six ACEs for owner, group and everyone in place and nothing else |
| ModeAcl.SixAces | nfs-ganesha-5.7/src/FSAL/commonlib.c:790-853 | three pairs of DENY and ALLOW, for whom, with what flags, that share the mode's permissions between them |
| ModeAcl.GeneratedAclIsMode | nfs-ganesha-5.7/src/FSAL/commonlib.c:790-853 | for every mode, caller (root too), group list and object type, the ACL check on the six ACEs answers every read, write and execute request as the mode check does |
| ModeAcl.CountPass | nfs-ganesha-5.7/src/FSAL/commonlib.c:889-906 | counts exactly the copies |
| ModeAcl.FillPass | nfs-ganesha-5.7/src/FSAL/commonlib.c:930-964 | for any source, what is written where, where the cursor ends and how many it says it wrote |
| ModeAcl.CursorAgrees | nfs-ganesha-5.7/src/FSAL/commonlib.c:930-933 | the cursor ends at the counted number iff the source has no mode-generated ACE |
| ModeAcl.ModeToAcl | nfs-ganesha-5.7/src/FSAL/commonlib.c:878-977 | for every source: the copies and the six ACEs, SERVERFAULT never, and ACEs written past the list, and how many, iff the source has generated and other ACEs |
| ModeAcl.MixedSourceOverruns | nfs-ganesha-5.7/src/FSAL/commonlib.c:930-977 | a source of a generated and a named ACE, for which the ACE that allows everyone is written past the list |
| ModeAcl.CopiesDecision | nfs-ganesha-5.7/src/FSAL/commonlib.c:930-964 | the copies decide read, write and execute as those ACEs of the source whose number is no special one, and all else as all its ACEs |
| ModeAcl.ModeToAclMeaning | nfs-ganesha-5.7/src/FSAL/commonlib.c:878-977 | in the result an ACE whose number is no special one still goes before the mode, and what the mode does not speak of is decided as before |
| ModeAcl.UnnamedCallerGetsMode | nfs-ganesha-5.7/src/FSAL/commonlib.c:878-977 | for a caller no such ACE applies to, the result decides read, write and execute exactly as the mode |
| ModeAcl.RecordsKept | nfs-ganesha-5.7/src/FSAL/commonlib.c:930-948 | audit and alarm ACEs come through as they are |
| ModeAcl.NamedDecidesIff | nfs-ganesha-5.7/src/FSAL/commonlib.c:930-964 | an ACE that names a user or group decides every bit for every caller as before iff its number is not taken for a special one |
| ModeAcl.NamedBeforeMode | nfs-ganesha-5.7/src/FSAL/commonlib.c:878-977 | if none is, the ACEs that name someone go before the mode |
| ModeAcl.UserOneLosesRead | nfs-ganesha-5.7/src/FSAL/commonlib.c:948-957 | an ACL by which user 1 may read and, after a mode is set, may not, while user 7 in their place still may |
| InheritAcl.ModeKeepsInheritance | nfs-ganesha-5.7/src/FSAL/commonlib.c:878-977 | for every source and mode a new directory inherits as before but for what came from a mode, and a new file iff no ACE was for the directory itself and for new files and theirs |
| InheritAcl.NewFilesLoseRead | nfs-ganesha-5.7/src/FSAL/commonlib.c:935-948 | an ACL by which user 7 may read what is made in a directory and, after its mode is set, only new directories |
| AclMode.AclToMode | nfs-ganesha-5.7/src/FSAL/commonlib.c:1006-1037 | every mode bit is as the last ACE that speaks of it says, or as it was |
| AclMode.OneAceMode | nfs-ganesha-5.7/src/FSAL/commonlib.c:983-1037 | which mode bits one ACE of the owner, the group or everyone sets or clears, and that all others stay |
| AclMode.ThroughAcl | nfs-ganesha-5.7/src/FSAL/commonlib.c:790-1037 | through the six generated ACEs every class of a mode becomes the others' class, and no other bit changes |
| AclMode.RoundTripIffAlike | nfs-ganesha-5.7/src/FSAL/commonlib.c:790-1037 | mode to ACL to mode is the identity iff the three classes of the mode are the same |
| AclMode.OwnerOnlyIsLost | nfs-ganesha-5.7/src/FSAL/commonlib.c:983-1037 | the mode 0400 comes back as 0 |
| InheritAcl.Strays | nfs-ganesha-5.7/src/FSAL/commonlib.c:593-608 | by how many the counting pass is wrong, none iff no ACE is inherit-only for nothing |
| InheritAcl.StrayIsCounted | nfs-ganesha-5.7/src/FSAL/commonlib.c:593-640 | a directory ACL from which nothing is inherited, and a blank ACE is |
| InheritAcl.CountPass | nfs-ganesha-5.7/src/FSAL/commonlib.c:634-640 | counts the ACEs that will be copied plus the strays |
| InheritAcl.FillPass | nfs-ganesha-5.7/src/FSAL/commonlib.c:658-676 | writes exactly the inherited ACEs, inside the allocated list |
| InheritAcl.InheritAcls | nfs-ganesha-5.7/src/FSAL/commonlib.c:622-681 | the new ACL, or no change, or EXIST, in each case |
| InheritAcl.EffectiveOfChild | nfs-ganesha-5.7/src/FSAL/commonlib.c:622-681 | the child's effective allow and deny ACEs are the parent's that are for its kind, cleaned, in order |
| InheritAcl.ChildMeaning | nfs-ganesha-5.7/src/FSAL/commonlib.c:622-681 | the child's ACL decides every bit for every caller as those ACEs do, strays or not |
| InheritAcl.ChildGivenByFirst | nfs-ganesha-5.7/src/FSAL/commonlib.c:622-681 | a new object's ACL decides a bit for a caller as the first of the parent's ACEs that is for such objects, has the bit and is for the caller, and not at all iff there is none |
| InheritAcl.FlagsOfNewDir | nfs-ganesha-5.7/src/FSAL/commonlib.c:658-676 | an ACE in effect on a new directory has no flag of inheritance left, and one not in effect is to be inherited further |
| InheritAcl.StableFromSecondGeneration | nfs-ganesha-5.7/src/FSAL/commonlib.c:622-681 | down any chain of directories the ACL is unchanged from the second generation on |
| InheritAcl.StableFromFirstGeneration | nfs-ganesha-5.7/src/FSAL/commonlib.c:622-681 | it is unchanged from the first iff nothing for directories is no-propagate and nothing is a stray |
| PosixAcl.FindEntry | nfs-ganesha-5.7/src/FSAL/posix_acls.c:113-142 | the first entry with the tag |
| PosixAcl.DenyPerms | nfs-ganesha-5.7/src/FSAL/posix_acls.c:419-447 | the inner loop gathers what the entry lacks and some later entry but the mask has |
| PosixAcl.ConvertList | nfs-ganesha-5.7/src/FSAL/posix_acls.c:254-484 | the loop writes each entry's DENY, if it denies anything, and ALLOW, in order, and leaves the rest cleared |
| PosixAcl.Convert | nfs-ganesha-5.7/src/FSAL/posix_acls.c:195-488 | the whole conversion of any list that the loops get through, and -1 without an ACL |
| PosixAcl.ValidIsConvertible | nfs-ganesha-5.7/src/FSAL/posix_acls.c:398-447 | the loops get through every list that libacl calls valid: nobody named twice, and a mask if anybody is named |
| PosixMeaning.ConvertedDecision | nfs-ganesha-5.7/src/FSAL/posix_acls.c:195-488 | for NFSv3 and NFSv4 alike the converted ACL decides by the first entry with a verdict |
| PosixMeaning.InheritedNeverDecide | nfs-ganesha-5.7/src/FSAL/posix_acls.c:278-282 | ACEs made for inheritance never decide anything, not even for root |
| PosixMeaning.AgreesIffFaithful | nfs-ganesha-5.7/src/FSAL/posix_acls.c:195-488 | for any ACL that names no user twice, caller but root and whole request: granted against POSIX iff the request passes the mask or is split over groups, refused against it iff the first group hides another, and otherwise the same answer |
| PosixMeaning.SameAsPosix | nfs-ganesha-5.7/src/FSAL/posix_acls.c:195-488 | it agrees on every request if the mask cuts nothing OTHER grants and at most one group entry matches, and for the owner always |
| PosixMeaning.MaskSlips | nfs-ganesha-5.7/src/FSAL/posix_acls.c:344-356 | a valid ACL and a caller where the mask is slipped past |
| PosixMeaning.FirstGroupDenies | nfs-ganesha-5.7/src/FSAL/posix_acls.c:455-468 | a valid ACL and a caller where a first group's DENY hides a second's ALLOW |
| PosixMeaning.SplitIsGranted | nfs-ganesha-5.7/src/FSAL/posix_acls.c:455-468 | a valid ACL and a caller where two groups together grant what neither does |
| PosixRest.EverybodyMayLook | nfs-ganesha-5.7/src/FSAL/posix_acls.c:195-488 | reading the ACL and attributes and synchronizing is allowed to everybody by every converted ACL |
| PosixRest.OwnersWrite | nfs-ganesha-5.7/src/FSAL/posix_acls.c:358-447 | writing the ACL and attributes is allowed to the owner with write, denied to one without if another has it, and decided for nobody else |
| PosixRest.DeleteChildIsUnmaskedWrite | nfs-ganesha-5.7/src/FSAL/posix_acls.c:358-447 | removing from a directory is decided as writing would be without the mask |
| PosixRest.DefaultAclInherited | nfs-ganesha-5.7/src/FSAL/posix_acls.c:278-282 | an ACL converted to be inherited gives a new directory exactly the ACL converted as it is, and a new file nothing |
| PosixRest.EntryInAce | nfs-ganesha-5.7/src/FSAL/posix_acls.c:344-390 | the perms of an entry can be read off its ACE: those allowed and those flagged as cut by the mask |
| PosixRest.MaskAceIff | nfs-ganesha-5.7/src/FSAL/posix_acls.c:254-300 | the mask has an ACE of its own for NFSv3 only |
| PosixXattr.FromXattr | nfs-ganesha-5.7/src/FSAL/posix_acls.c:803-913 | reads the entries, or nothing for a wrong size, no entries, a wrong version, tag or permission |
| PosixXattr.ToXattr | nfs-ganesha-5.7/src/FSAL/posix_acls.c:925-1000 | the size needed, -1 and no change if there is no room, else the stored bytes and nothing past them |
| PosixXattr.EntryLayout | nfs-ganesha-5.7/src/FSAL/posix_acls.c:925-1000 | the eight bytes of an entry, by tag, perms and id |
| PosixXattr.Layout | nfs-ganesha-5.7/src/FSAL/posix_acls.c:925-1000 | version 2 comes first, and the i-th entry is at its place |
| PosixXattr.RoundTrip | nfs-ganesha-5.7/src/FSAL/posix_acls.c:803-1000 | every ACL with an entry is read back as it was stored |
| PosixXattr.ReadIsStored | nfs-ganesha-5.7/src/FSAL/posix_acls.c:803-1000 | what is read would be stored as the same bytes iff every entry without an id says so |
| Shares.Share.Update | nfs-ganesha-5.7/src/FSAL/commonlib.c:1104-1144 | the five counters move by the difference of the two reservations |
| Shares.Share.CheckConflict | nfs-ganesha-5.7/src/FSAL/commonlib.c:1163-1213 | denied iff a counter that the request clashes with is raised |
| Shares.Share.CheckAndUpdate | nfs-ganesha-5.7/src/include/FSAL/fsal_commonlib.h:145-163 | checks, and takes the reservation only if not denied |
| Shares.Share.Merge | nfs-ganesha-5.7/src/FSAL/commonlib.c:1235-1301 | denied and unchanged, or the counters added |
| Shares.DeniesIffClash | nfs-ganesha-5.7/src/FSAL/commonlib.c:1163-1213 | the check denies iff some held reservation clashes pairwise with the request, with and without bypass (section 9.9 of RFC 7530) |
| Shares.MergeIsCheck | nfs-ganesha-5.7/src/FSAL/commonlib.c:1235-1301 | merging a one-reservation share is denied exactly when opening with it would be |
| Shares.EveryRun | nfs-ganesha-5.7/src/FSAL/commonlib.c:1104-1301 | over every run the counters are counts over the held reservations, which are pairwise compatible without bypass, and never a writer beside another's mandatory deny with it |
| Shares.NothingHeld | nfs-ganesha-5.7/src/FSAL/commonlib.c:1104-1144 | when everything is given up all counters are zero |
| Claims.WithoutInv | nfs-ganesha-5.7/src/FSAL/localfs.c:1264-1293 | taking out one map keeps every counter, owner and link right |
| Claims.BetweenOperations | nfs-ganesha-5.7/src/FSAL/localfs.c:1245-1840 | between operations counters count maps, CLAIM_ALL is their sum, CLAIM_TEMP is 0, one FSAL owns all maps on a filesystem, root and child claims never meet, no parent link dangles |
| Claims.OutcomeIff | nfs-ganesha-5.7/src/FSAL/localfs.c:1409-1503 | EINVAL iff another FSAL has a root or subtree claim there, or says that the filesystem is not its own and it is no child; its other errors as they are; and no error otherwise |
| Claims.RootsMounted | nfs-ganesha-5.7/src/FSAL/localfs.c:1314-1344 | an export that has a claim of its own on its root_fs finds it mounted |
| ClaimEnds.ExactlyEnded | nfs-ganesha-5.7/src/FSAL/localfs.c:1505-1811 | when a claim is made, exactly the claims in its way, those that a subtree claim cleans out, those of another FSAL where a child claim was made, and all made under them are gone |
| ClaimEnds.EndsPlainly | nfs-ganesha-5.7/src/FSAL/localfs.c:1505-1682 | which claims those are, in terms of the claims there and of paths |
| ClaimRuns.ClaimKeepsIff | nfs-ganesha-5.7/src/FSAL/localfs.c:1505-1560 | a claim leaves every export a claim of its own on its root_fs iff it is no root claim that meets child claims on another export's root_fs |
| ClaimRuns.RootFsMounted | nfs-ganesha-5.7/src/FSAL/localfs.c:1314-1889 | in every run of claims and unclaims without such a claim every export's root_fs is mounted in every state |
| ClaimRuns.StrippedIsBare | nfs-ganesha-5.7/src/FSAL/localfs.c:1505-1560 | such a claim leaves the other export no claim at or below its root_fs, unless it had one of its own strictly below |
| ClaimEffects.UnderBelow | nfs-ganesha-5.7/src/FSAL/localfs.c:1252-1260 | a map made under another is of the same export, on a filesystem below |
| ClaimEffects.AfterVisit | nfs-ganesha-5.7/src/FSAL/localfs.c:1684-1811 | dealing with one more child filesystem disturbs nothing done for the others |
| ClaimEffects.ClaimTreated | nfs-ganesha-5.7/src/FSAL/localfs.c:1684-1832 | when a claim's map is in place, it and every map made under it has a new child claim on a child filesystem iff the FSAL will have it and neither the subtree's path nor a claim that stands is in the way |
| ClaimEffects.ClaimedIff | nfs-ganesha-5.7/src/FSAL/localfs.c:1684-1811 | a child filesystem of a new claim's filesystem gets a claim under it iff the FSAL will have it, it is below a subtree claim's path, and no root claim, other FSAL's subtree claim or first child claim of another path stands on it |
| ClaimEffects.StaysInSubtree | nfs-ganesha-5.7/src/FSAL/localfs.c:1701-1707 | whatever a subtree claim has claimed, at any depth, lies below its path, mount points being nested as posix_find_parent nests them |
| ClaimEffects.SecondExportGetsNone | nfs-ganesha-5.7/src/FSAL/localfs.c:1738-1811 | no new claim made under a child claim joins a child claim that was there and still is, whatever the exports' paths; which claims are still there ProcessClaim says |
| Releases.LeftStillClaimed | nfs-ganesha-5.7/src/FSAL/localfs.c:1105-1165 | what is left is just as claimed as before |
| ClaimForests.ClaimForest.Unclaim | nfs-ganesha-5.7/src/FSAL/localfs.c:1245-1299 | ends, takes the map and all made under it and no other, touches no filesystem outside that subtree, and an owner goes only with the last claim |
| ClaimForests.ClaimForest.UnclaimFilesystem | nfs-ganesha-5.7/src/FSAL/localfs.c:1301-1312 | no map is left on the filesystem |
| ClaimForests.ClaimForest.UnclaimAll | nfs-ganesha-5.7/src/FSAL/localfs.c:1314-1344 | exactly the maps of the export go, and of the filesystems at or below its root_fs exactly those with nothing claimed at or below them; no filesystem that stays changes; and whether root_fs was not there any more |
| ClaimForests.ClaimForest.MakeRoom | nfs-ganesha-5.7/src/FSAL/localfs.c:1505-1560 | which claims make way for a new one, and that the second clean-up is never needed |
| ClaimForests.ClaimForest.CleanOut | nfs-ganesha-5.7/src/FSAL/localfs.c:1604-1682 | no child claim of an export above the new subtree is left on a filesystem below it |
| ClaimForests.ClaimForest.Skips | nfs-ganesha-5.7/src/FSAL/localfs.c:1685-1804 | a child filesystem is left alone iff it is outside the subtree, exported, another FSAL's subtree export, or its first child claim is of another path; with no path, iff it has any child claim in the last case |
| ClaimForests.ClaimForest.ProcessClaim | nfs-ganesha-5.7/src/FSAL/localfs.c:1409-1840 | ends; the result in every case, EINVAL never for a child; on any error nothing changes; nothing outside the tree below ever does; on success the map is there, exactly which claims anywhere have ended, exactly which child filesystems, of it and of each map made, are claimed, that each such claim hangs from a new one, and that no filesystem got two |
| ClaimForests.ClaimForest.ClaimFilesystems | nfs-ganesha-5.7/src/FSAL/localfs.c:1842-1889 | ENOENT iff no filesystem has the device; otherwise the same from between operations to between operations, with root_fs set on every success, whatever kind of claim it is |
| ClaimForests.ClaimForest.Release | nfs-ganesha-5.7/src/FSAL/localfs.c:1105-1165 | true iff the subtree has a claimed filesystem; of the subtree exactly the claimed filesystems and what they are mounted under are left; no link dangles |
| ClaimForests.ClaimForest.constructor | nfs-ganesha-5.7/src/FSAL/localfs.c:644-740 | a forest with nothing claimed meets the invariant |
| ClaimScenes.RootClaimEndsSubtree | nfs-ganesha-5.7/src/FSAL/localfs.c:1505-1560 | three exports of one FSAL, from nothing claimed, after which a subtree claim is gone because of a root claim, and its export has a root_fs without a claim |
| ClaimScenes.RootFsDangles | nfs-ganesha-5.7/src/FSAL/localfs.c:1314-1889 | a run after which a live export's root_fs is not mounted |
| ClaimScenes.DriveToDangling | nfs-ganesha-5.7/src/FSAL/localfs.c:1314-1344 | from every state in which an export has no claim at or below its root_fs and another has the same root_fs, unclaims that make a live export's root_fs dangle |
| ClaimScenes.SecondGetsTwo | nfs-ganesha-5.7/src/FSAL/localfs.c:1738-1811 | of three nested filesystems a first export of the uppermost has all, keeps all, and a second export of the same path gets only two |
| CbSlots.Session.Scan | nfs-ganesha-5.7/src/MainNFSD/nfs_rpc_callback.c:1140-1154 | the first free slot, and the highest of it and the slots in use |
| CbSlots.Session.FindSlot | nfs-ganesha-5.7/src/MainNFSD/nfs_rpc_callback.c:1132-1179 | found iff a slot within the client's limit is free now, or after a wait that was woken; it alone is taken and its sequence raised |
| CbSlots.Session.ReleaseSlot | nfs-ganesha-5.7/src/MainNFSD/nfs_rpc_callback.c:1189-1197 | the slot is free, with its sequence lowered iff nothing was sent |
| CbSlots.Walk | nfs-ganesha-5.7/src/MainNFSD/nfs_rpc_callback.c:1210-1276 | sessions are skipped, for which and how long it waited being told, up to one where a free slot is taken and sent on or the back channel taken down; but for what others do during a wait nothing else changes |
| CbSlots.EndedEffect | nfs-ganesha-5.7/src/MainNFSD/nfs_rpc_callback.c:1210-1276 | the slots are then as the others left them, but for the one taken, and one back channel fewer is up iff sending failed |
| CbSlots.Single | nfs-ganesha-5.7/src/MainNFSD/nfs_rpc_callback.c:1199-1288 | ends, whatever the others do while it waits; the walks it takes and which of them may wait; on failure every slot is as they left it, no session could be used, and which error is returned; on success exactly one free slot is taken, of a session that was there and on which sending succeeded |
| CbSlots.SlotsNeverShared | nfs-ganesha-5.7/src/MainNFSD/nfs_rpc_callback.c:1132-1301 | in every run of any number of calls no slot is held twice, in use means held, and sequence ids sent on a slot are consecutive (section 2.10.6.1 of RFC 5661) |
| Xattrs.CountPass | nfs-ganesha-5.7/src/FSAL/fsal_helper.c:1925-1963 | how many names fit, where they start, and the next cookie |
| Xattrs.CopyPass | nfs-ganesha-5.7/src/FSAL/fsal_helper.c:1979-2005 | the second pass finds exactly the names the first counted |
| Xattrs.UsersOfNames | nfs-ganesha-5.7/src/FSAL/fsal_helper.c:1925-1945 | from any names, each followed by a NUL, exactly those of the form user.x are read, as x, in order |
| Xattrs.ListXattr | nfs-ganesha-5.7/src/FSAL/fsal_helper.c:1910-2024 | for any buffer, limit and cookie: the page and next cookie, eof iff nothing is left, BADCOOKIE, TOOSMALL, and never the encoding error |
| Xattrs.PagesAreAPrefix | nfs-ganesha-5.7/src/FSAL/fsal_helper.c:1910-2024 | page after page the stripped names come in buffer order, each once, with none left out |
| Xattrs.PagesAreEverything | nfs-ganesha-5.7/src/FSAL/fsal_helper.c:1910-2024 | with limits that fit the next name the pages together are all the names |
| Xattrs.FittingIsRoom | nfs-ganesha-5.7/src/FSAL/fsal_helper.c:1947-1953 | while the 32-bit count cannot wrap, a page is the most names whose encoding fits the limit |

## Left out

- Logging, statistics, configuration, sockets and RPC plumbing: nothing hard to state.
- fd_lru_run, fsal_init_fds_limit and the global fd counter: tuning by floating point and rlimits; the counter is raised before an open that may fail.
- fsal_start_io and fsal_start_global_io: they choose a descriptor and then use the protocol that is modelled; the open itself is a choice whose outcome is arbitrary on failure.
- The UDP DRC and NFSv4.0 cacheability: the shared UDP cache is never recycled; its entries behave as those of a TCP DRC.
- The hash tables and red-black trees: maps keyed as the comparison functions compare; a checksum is part of the key, as in the source.
- fsal_acl_2_posix_acl: only the direction to NFSv4 is modelled.
- AUDIT and ALARM ACEs: evaluation skips them, and so does the model; inheritance copies them.
- ModeAcl.ModeToAcl: what lies behind the list is only counted, not modelled.
- PosixAcl.Convert: takes lists with one mask at most, with GROUP_OBJ if there is a named user, and where the owner's entry is not the last; for a named user without GROUP_OBJ the source loops without end.
- CbSlots.Single: others change slots only while it waits for one; all interleavings of calls are in the runs of CbSlots.SlotsNeverShared. That nobody raises session_bc_up again meanwhile is assumed for termination.
- ClaimForests.ClaimForest.ProcessClaim: without private_data; the FSAL's answers are a parameter; the assert on child filesystems with claims of another FSAL is not there, since the code below it handles that case.
- ClaimForests.ClaimForest.UnclaimAll: the export's root_fs goes with the export, which is destroyed next; the code leaves the pointer as it is. What the code does where root_fs is not mounted any more is not modelled; `freed` tells that case.
- ClaimForests.ClaimForest.ClaimFilesystems: if several filesystems have the device the model takes any, the code the first in its list.
- Removal.TestAccess: an error of getattrs is not modelled.
- FdSignals.NoLostWakeUp: spurious wake-ups, which the system may add, are not modelled.
- change_fsid_type and the indexes of filesystems: not part of this model.
- Delegation and layout recall, 9P, and the FSALs themselves: not part of this model.
