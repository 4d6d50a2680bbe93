/** What every run of the fsal_fd protocol keeps, for any number of threads. */
module FdRuns {
  import opened Bits
  import opened FdWork
  import opened Tally

  lemma {:induction false} RunInv(r: seq<State>, k: nat)
    requires Run(r) && k < |r|
    ensures Inv(r[k]) && |r[k].threads| == |r[0].threads|
  {
    if k == 0 {
      InvInit(r[0]);
    } else {
      RunInv(r, k - 1);
      assert StepAt(r, k - 1);
      var me: nat, c: Choice :| me < |r[k - 1].threads| && r[k] == Take(r[k - 1], me, c);
      InvKept(r[k - 1], me, c);
    }
  }

  /** No thread is doing I/O while another is inside the open/close section, and no two
      threads are inside the open/close section. */
  lemma IoExcludesFdWork(r: seq<State>, k: nat, i: nat, j: nat)
    requires Run(r) && k < |r| && i < |r[k].threads| && j < |r[k].threads|
    ensures !(InIoSection(r[k].threads[i]) && InFdSection(r[k].threads[j]))
    ensures InFdSection(r[k].threads[i]) && InFdSection(r[k].threads[j]) ==> i == j
  {
    RunInv(r, k);
    SectionFacts(r[k].threads[i]);
    SectionFacts(r[k].threads[j]);
  }

  ghost predicate UsingAt(r: seq<State>, k: nat, i: nat)
    requires k < |r|
  {
    i < |r[k].threads| && UsingFd(r[k].threads[i])
  }

  lemma UsedModeKept(a: State, b: State, i: nat)
    requires Inv(a) && Steps(a, b)
    requires i < |a.threads| && UsingFd(a.threads[i])
    ensures b.sh.mode == a.sh.mode
  {
    var me: nat, c: Choice :| me < |a.threads| && b == Take(a, me, c);
    NextSection(me, a.sh, a.threads[me], c);
  }

  /** From the success of wait_to_start_io to the thread's own fsal_complete_io the
      descriptor's mode serves the request and does not change, whatever the other
      threads do. */
  lemma {:induction false} ModeServesUntilComplete(r: seq<State>, k: nat, m: nat, i: nat)
    requires Run(r) && k <= m < |r|
    requires forall q :: k <= q <= m ==> UsingAt(r, q, i)
    ensures UsingAt(r, m, i) && OpenCorrect(r[m].sh.mode, r[m].threads[i].call.want)
    ensures r[m].sh.mode == r[k].sh.mode
    decreases m
  {
    assert UsingAt(r, m, i);
    ModeServes(r, m, i);
    if k < m {
      ModeServesUntilComplete(r, k, m - 1, i);
      assert UsingAt(r, m - 1, i);
      ModeStays(r, m - 1, i);
    }
  }

  lemma ModeServes(r: seq<State>, k: nat, i: nat)
    requires Run(r) && k < |r| && UsingAt(r, k, i)
    ensures OpenCorrect(r[k].sh.mode, r[k].threads[i].call.want)
  {
    RunInv(r, k);
  }

  lemma ModeStays(r: seq<State>, k: nat, i: nat)
    requires Run(r) && k + 1 < |r| && UsingAt(r, k, i)
    ensures r[k + 1].sh.mode == r[k].sh.mode
  {
    RunInv(r, k);
    assert StepAt(r, k);
    UsedModeKept(r[k], r[k + 1], i);
  }

  /** Once the back-off loop body has run in an attempt, the mode check after the loop
      succeeds: the thread neither gives up nor re-opens there. */
  lemma CheckAfterBackOffPasses(r: seq<State>, k: nat, i: nat, c: Choice)
    requires Run(r) && k < |r| && i < |r[k].threads|
    requires r[k].threads[i].pc == Wait(CheckMode) && r[k].threads[i].l.looped
    ensures UsingFd(Take(r[k], i, c).threads[i])
  {
    RunInv(r, k);
  }

  /** In every reachable state the counters are the sums of what the threads have
      pending; when every thread is outside the calls, only the I/O in progress and the
      refused reclaims are left in them. */
  lemma CountersAtRest(r: seq<State>, k: nat)
    requires Run(r) && k < |r|
    requires forall i :: 0 <= i < |r[k].threads| ==>
               r[k].threads[i].pc == Idle || r[k].threads[i].pc == DoingIo
    ensures r[k].sh.n.io == Sum(r[k].threads, (t: Thread) => if t.pc == DoingIo then 1 else 0)
    ensures r[k].sh.n.fd == r[k].sh.n.refused
    ensures r[k].sh.n.wantRead == 0 && r[k].sh.n.wantWrite == 0
    ensures r[k].sh.mutex == Free || r[k].sh.mutex.id >= |r[k].threads|
  {
    var a := r[k];
    RunInv(r, k);
    SumZero(a.threads, FdPart);
    SumZero(a.threads, WantReadPart);
    SumZero(a.threads, WantWritePart);
    SumAgree(a.threads, IoPart, (t: Thread) => if t.pc == DoingIo then 1 else 0);
  }

  /** `who[q]` took the step from r[q] to r[q + 1]. */
  ghost predicate StepBy(r: seq<State>, who: seq<nat>, q: nat)
    requires q + 1 < |r|
  {
    q < |who| && who[q] < |r[q].threads| && exists c: Choice :: r[q + 1] == Take(r[q], who[q], c)
  }

  /** Changes of the four counters; fd_work without the refused reclaims. */
  datatype Net = Net(io: int, fd: int, wantRead: int, wantWrite: int)

  /** What the steps of thread `me` between r[k] and r[m], and only they, did to the counters. */
  ghost function OwnNet(r: seq<State>, who: seq<nat>, k: nat, m: nat, me: nat): Net
    requires k <= m < |r| && m <= |who|
    decreases m
  {
    if k == m then Net(0, 0, 0, 0)
    else
      var own, a, b := OwnNet(r, who, k, m - 1, me), r[m - 1].sh.n, r[m].sh.n;
      if who[m - 1] != me then own
      else Net(own.io + b.io - a.io, own.fd + (b.fd - b.refused) - (a.fd - a.refused),
               own.wantRead + b.wantRead - a.wantRead, own.wantWrite + b.wantWrite - a.wantWrite)
  }

  lemma {:induction false} OwnNetIsPart(r: seq<State>, who: seq<nat>, k: nat, m: nat, me: nat)
    requires k <= m < |r| && m <= |who| && (forall q :: k <= q < m ==> StepBy(r, who, q))
    requires me < |r[k].threads|
    ensures me < |r[m].threads|
    ensures var own, t, t' := OwnNet(r, who, k, m, me), r[k].threads[me], r[m].threads[me];
      && own.io == IoPart(t') - IoPart(t) && own.fd == FdPart(t') - FdPart(t)
      && own.wantRead == WantReadPart(t') - WantReadPart(t)
      && own.wantWrite == WantWritePart(t') - WantWritePart(t)
    decreases m
  {
    if k < m {
      OwnNetIsPart(r, who, k, m - 1, me);
      assert StepBy(r, who, m - 1);
      var c: Choice :| r[m] == Take(r[m - 1], who[m - 1], c);
      NextAccounts(who[m - 1], r[m - 1].sh, r[m - 1].threads[who[m - 1]], c);
    }
  }

  /** wait_to_start_io, from entry to return, over every path through its loops and its retry, and
      whatever other threads do in between: its own steps change want_read, want_write and fd_work
      by nothing, and io_work by one on success and by nothing on error. */
  lemma WaitNetEffect(r: seq<State>, who: seq<nat>, k: nat, m: nat, me: nat)
    requires k < m < |r| && m <= |who| && (forall q :: k <= q < m ==> StepBy(r, who, q))
    requires me < |r[k].threads| && r[k].threads[me].pc == Wait(ClaimIo) && !r[k].threads[me].l.retried
    requires me < |r[m].threads| && (r[m].threads[me].pc == Idle || r[m].threads[me].pc == DoingIo)
    ensures OwnNet(r, who, k, m, me) == Net(if r[m].threads[me].pc == DoingIo then 1 else 0, 0, 0, 0)
  {
    OwnNetIsPart(r, who, k, m, me);
  }

  /** I/O starts only in a step that sees fd_work at zero. */
  lemma EntersIo(me: nat, s: Shared, t: Thread, c: Choice)
    requires LoopOk(t)
    ensures InIoSection(Next(me, s, t, c).1) ==> InIoSection(t) || s.n.fd == 0
  {
    match t.pc
    case Idle =>
    case Wait(_) =>
    case Dec(_, _) =>
    case Reopen(_) =>
    case DoingIo =>
    case Fd(_) =>
  }

  ghost predicate NoneStarts(a: State, b: State) {
    && |b.threads| == |a.threads|
    && b.sh.n.refused >= a.sh.n.refused
    && forall i :: 0 <= i < |b.threads| && InIoSection(b.threads[i]) ==> InIoSection(a.threads[i])
  }

  lemma RefusedStep(a: State, me: nat, c: Choice)
    requires Inv(a) && me < |a.threads| && a.sh.n.refused > 0
    ensures NoneStarts(a, Take(a, me, c))
  {
    forall j | 0 <= j < |a.threads| ensures FdPart(a.threads[j]) >= 0 {
      SectionFacts(a.threads[j]);
    }
    SumNonNegative(a.threads, FdPart);
    NextAccounts(me, a.sh, a.threads[me], c);
    EntersIo(me, a.sh, a.threads[me], c);
  }

  lemma RefusedSteps(a: State, b: State)
    requires Inv(a) && a.sh.n.refused > 0 && Steps(a, b)
    ensures NoneStarts(a, b)
  {
    var me: nat, c: Choice :| me < |a.threads| && b == Take(a, me, c);
    RefusedStep(a, me, c);
  }

  /** A refused reclaim returns with fd_work still raised. Nothing lowers it again, so
      from then on no thread starts I/O on this descriptor, in any continuation. */
  lemma {:induction false} RefusedReclaimBlocksIo(r: seq<State>, k: nat, m: nat)
    requires Run(r) && k <= m < |r| && r[k].sh.n.refused > 0
    ensures NoneStarts(r[k], r[m])
    decreases m
  {
    if k < m {
      RefusedReclaimBlocksIo(r, k, m - 1);
      RefusedAt(r, m - 1);
    }
  }

  lemma RefusedAt(r: seq<State>, k: nat)
    requires Run(r) && k + 1 < |r| && r[k].sh.n.refused > 0
    ensures NoneStarts(r[k], r[k + 1])
  {
    RunInv(r, k);
    assert StepAt(r, k);
    RefusedSteps(r[k], r[k + 1]);
  }

  // ----- reopen_fsal_fd opens for everybody who waits ------------------------------------

  ghost predicate CombiningAt(r: seq<State>, q: nat, me: nat) {
    q < |r| && me < |r[q].threads| && Combining(r[q].threads[me])
  }

  lemma {:induction false} FlagsGrow(r: seq<State>, who: seq<nat>, k: nat, m: nat, me: nat)
    requires k <= m < |r| && m <= |who| && (forall q :: k <= q < m ==> StepBy(r, who, q))
    requires forall q :: k <= q <= m ==> CombiningAt(r, q, me)
    ensures CombiningAt(r, k, me) && CombiningAt(r, m, me)
    ensures r[k].threads[me].l.flags <= r[m].threads[me].l.flags
    decreases m
  {
    assert CombiningAt(r, k, me) && CombiningAt(r, m, me);
    if k < m {
      FlagsGrow(r, who, k, m - 1, me);
      assert StepBy(r, who, m - 1);
    }
  }

  /** A thread that wants something has raised its counter. */
  lemma WantsAreCounted(a: State, j: nat)
    requires Inv(a) && j < |a.threads|
    ensures WantReadPart(a.threads[j]) == 1 ==> a.sh.n.wantRead != 0
    ensures WantWritePart(a.threads[j]) == 1 ==> a.sh.n.wantWrite != 0
  {
    forall i | 0 <= i < |a.threads|
      ensures WantReadPart(a.threads[i]) >= 0 && WantWritePart(a.threads[i]) >= 0
    {
      SectionFacts(a.threads[i]);
    }
    SumAtLeast(a.threads, j, WantReadPart);
    SumAtLeast(a.threads, j, WantWritePart);
  }

  /** The step of reopen_fsal_fd that reads want_read or want_write. */
  lemma ReadsWants(r: seq<State>, who: seq<nat>, k: nat, me: nat, j: nat)
    requires Run(r) && k + 1 < |r| && StepBy(r, who, k) && who[k] == me && CombiningAt(r, k, me)
    requires j < |r[k].threads| && me < |r[k + 1].threads|
    ensures r[k].threads[me].pc == Reopen(ReadWantRead) && WantReadPart(r[k].threads[j]) == 1 ==>
            READ in r[k + 1].threads[me].l.flags
    ensures r[k].threads[me].pc == Reopen(ReadWantWrite) && WantWritePart(r[k].threads[j]) == 1 ==>
            WRITE in r[k + 1].threads[me].l.flags
  {
    RunInv(r, k);
    WantsAreCounted(r[k], j);
  }

  lemma OpensFor(me: nat, s: Shared, t: Thread, c: Choice)
    requires LocalOk(t) && t.pc == Reopen(OpenFd)
    ensures var n := Next(me, s, t, c); n.1.l.ok ==> t.l.flags * O_RDWR <= n.0.mode
  {
    assert 5 !in O_RDWR;
    var n := Next(me, s, t, c);
    if n.1.l.ok {
      assert t.l.flags != O_ANY;
      assert OpenCorrect(n.0.mode, t.l.flags);
      forall b | b in t.l.flags * O_RDWR ensures b in n.0.mode {}
    }
  }

  /** ... and it is still in the flags when the descriptor is opened. */
  lemma WantRemembered(r: seq<State>, who: seq<nat>, k: nat, m: nat, me: nat, j: nat)
    requires Run(r) && k < m < |r| && m <= |who| && (forall q :: k <= q < m ==> StepBy(r, who, q))
    requires (forall q :: k <= q <= m ==> CombiningAt(r, q, me)) && who[k] == me
    requires CombiningAt(r, k, me) && CombiningAt(r, m, me) && j < |r[k].threads|
    ensures r[k].threads[me].pc == Reopen(ReadWantRead) && WantReadPart(r[k].threads[j]) == 1 ==>
            READ in r[m].threads[me].l.flags
    ensures r[k].threads[me].pc == Reopen(ReadWantWrite) && WantWritePart(r[k].threads[j]) == 1 ==>
            WRITE in r[m].threads[me].l.flags
  {
    assert StepBy(r, who, k) && CombiningAt(r, k + 1, me);
    ReadsWants(r, who, k, me, j);
    FlagsGrow(r, who, k + 1, m, me);
  }

  lemma OpensForAll(r: seq<State>, who: seq<nat>, k: nat, me: nat)
    requires Run(r) && k + 1 < |r| && StepBy(r, who, k) && who[k] == me && CombiningAt(r, k, me)
    requires r[k].threads[me].pc == Reopen(OpenFd)
    requires me < |r[k + 1].threads| && r[k + 1].threads[me].l.ok
    ensures r[k].threads[me].l.flags * O_RDWR <= r[k + 1].sh.mode
  {
    RunInv(r, k);
    var c: Choice :| r[k + 1] == Take(r[k], who[k], c);
    OpensFor(me, r[k].sh, r[k].threads[me], c);
  }

  /** A re-open that succeeds leaves the descriptor in a mode that serves every thread whose request
      was counted when the re-open read the counters: want_read in step `kr`, want_write in `kw`. */
  lemma ReopenServesWaiters(r: seq<State>, who: seq<nat>, kr: nat, kw: nat, ko: nat, me: nat, j: nat)
    requires Run(r) && kr < kw < ko < |r| - 1 && ko < |who|
    requires forall q :: kr <= q <= ko ==> StepBy(r, who, q)
    requires forall q :: kr <= q <= ko ==> CombiningAt(r, q, me)
    requires who[kr] == me && who[kw] == me && who[ko] == me
    requires CombiningAt(r, kr, me) && r[kr].threads[me].pc == Reopen(ReadWantRead)
    requires CombiningAt(r, kw, me) && r[kw].threads[me].pc == Reopen(ReadWantWrite)
    requires CombiningAt(r, ko, me) && r[ko].threads[me].pc == Reopen(OpenFd)
    requires me < |r[ko + 1].threads| && r[ko + 1].threads[me].l.ok
    requires j < |r[kr].threads| && j < |r[kw].threads|
    ensures WantReadPart(r[kr].threads[j]) == 1 ==> READ in r[ko + 1].sh.mode
    ensures WantWritePart(r[kw].threads[j]) == 1 ==> WRITE in r[ko + 1].sh.mode
  {
    WantRemembered(r, who, kr, ko, me, j);
    WantRemembered(r, who, kw, ko, me, j);
    assert StepBy(r, who, ko);
    OpensForAll(r, who, ko, me);
    assert READ in O_RDWR && WRITE in O_RDWR;
  }

  // ----- the protocol is a readers-writer lock -----------------------------------------

  /** The simple form: threads that hold the mode still, at most one thread that may
      change it, and the mode. */
  datatype RwLock = RwLock(readers: set<nat>, writers: set<nat>, mode: Mask)

  ghost function Abstract(a: State): RwLock {
    RwLock((set i | 0 <= i < |a.threads| && Pins(a.threads[i])),
           (set i | 0 <= i < |a.threads| && InFdSection(a.threads[i])),
           a.sh.mode)
  }

  /** The steps of a readers-writer lock: a reader enters when there is no writer, a
      writer enters when there is nobody, either leaves, and only the writer writes. */
  ghost predicate RwStep(x: RwLock, y: RwLock, me: nat) {
    || x == y
    || (x.writers == {} && y == x.(readers := x.readers + {me}))
    || y == x.(readers := x.readers - {me})
    || (x.readers - {me} == {} && x.writers == {}
        && y == x.(readers := {}, writers := {me}))
    || (x.writers == {me} && y == x.(writers := {}))
    || (x.writers == {me} && y == x.(mode := y.mode))
  }

  /** Every step of the protocol is a step of the readers-writer lock. */
  lemma RefinesRwLock(a: State, me: nat, c: Choice)
    requires Inv(a) && me < |a.threads|
    ensures RwStep(Abstract(a), Abstract(Take(a, me, c)), me)
  {
    var b := Take(a, me, c);
    InvKept(a, me, c);
    NextSection(me, a.sh, a.threads[me], c);
    OthersKept(a, b, me);
    if InFdSection(a.threads[me]) {
      SoleWriter(a, me);
      LeavesSection(me, a.sh, a.threads[me], c);
      WriterSteps(Abstract(a), Abstract(b), me);
    } else if InFdSection(b.threads[me]) {
      SoleWriter(b, me);
      WriterEnters(Abstract(a), Abstract(b), me);
    } else if Pins(b.threads[me]) {
      NoWriter(b, me);
      ReaderEnters(Abstract(a), Abstract(b), me);
    } else {
      ReaderLeaves(Abstract(a), Abstract(b), me);
    }
  }

  ghost predicate SameOthers(x: RwLock, y: RwLock, me: nat) {
    y.readers - {me} == x.readers - {me} && y.writers - {me} == x.writers - {me}
  }

  lemma WriterSteps(x: RwLock, y: RwLock, me: nat)
    requires SameOthers(x, y, me) && x.readers == {} && x.writers == {me} && me !in y.readers
    requires me in y.writers || y.mode == x.mode
    ensures RwStep(x, y, me)
  {
    assert y.readers == y.readers - {me} && y.writers - {me} == {};
    assert y.writers == {} || y.writers == {me};
  }

  lemma WriterEnters(x: RwLock, y: RwLock, me: nat)
    requires SameOthers(x, y, me) && y.readers == {} && y.writers == {me} && me !in x.writers && y.mode == x.mode
    ensures RwStep(x, y, me)
  {
    assert x.writers == x.writers - {me};
  }

  lemma ReaderEnters(x: RwLock, y: RwLock, me: nat)
    requires SameOthers(x, y, me) && me in y.readers && y.writers == {} && me !in x.writers && y.mode == x.mode
    ensures RwStep(x, y, me)
  {
    assert x.writers == x.writers - {me};
    assert y.readers == (y.readers - {me}) + {me};
    assert x.readers + {me} == (x.readers - {me}) + {me};
  }

  lemma ReaderLeaves(x: RwLock, y: RwLock, me: nat)
    requires SameOthers(x, y, me) && me !in y.readers && me !in x.writers && me !in y.writers && y.mode == x.mode
    ensures RwStep(x, y, me)
  {
    assert y.readers == x.readers - {me};
    assert y.writers == y.writers - {me} && x.writers == x.writers - {me};
  }

  /** The step that leaves the open/close section does not change the mode, and goes
      nowhere near I/O. */
  lemma LeavesSection(me: nat, s: Shared, t: Thread, c: Choice)
    requires InFdSection(t)
    ensures var n := Next(me, s, t, c);
      !Pins(n.1) && (InFdSection(n.1) || n.0.mode == s.mode)
  {}

  lemma NoWriter(a: State, me: nat)
    requires Inv(a) && me < |a.threads| && Pins(a.threads[me])
    ensures Abstract(a).writers == {}
  {}

  lemma SoleWriter(a: State, me: nat)
    requires Inv(a) && me < |a.threads| && InFdSection(a.threads[me])
    ensures Abstract(a).writers == {me} && Abstract(a).readers == {}
  {
    forall i | 0 <= i < |a.threads| && InFdSection(a.threads[i]) ensures i == me {
      SectionFacts(a.threads[i]);
      SectionFacts(a.threads[me]);
    }
  }

  lemma OthersKept(a: State, b: State, me: nat)
    requires |a.threads| == |b.threads| && me < |a.threads|
    requires b.threads == a.threads[me := b.threads[me]]
    ensures SameOthers(Abstract(a), Abstract(b), me)
    ensures forall z :: z == a || z == b ==>
      && (me in Abstract(z).readers <==> Pins(z.threads[me]))
      && (me in Abstract(z).writers <==> InFdSection(z.threads[me]))
  {}
}
