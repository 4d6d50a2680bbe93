/** The fsal_fd protocol: I/O against open, re-open and close on one shared file
    descriptor.

    Any number of threads run `wait_to_start_io`, `fsal_complete_io` and
    `fsal_start_fd_work`/`fsal_complete_fd_work` on one `fsal_fd`. A step is one atomic
    operation of one thread: one access to a counter, one lock or unlock of
    `work_mutex`, or one open or close done while the mutex is held. A lock operation
    on a mutex that is not free is a step that changes nothing. A thread that waits on
    `work_cond` may wake up whenever the mutex is free; FdSignals.dfy has the signals. */
module FdWork {
  import opened Bits
  import opened Tally

  // The bits of fsal_openflags_t that matter here.
  const READ: nat := 0
  const WRITE: nat := 1
  const O_CLOSED: Mask := {}
  const O_RDWR: Mask := {READ, WRITE}
  const O_ANY: Mask := {5}

  /** Whether a descriptor opened with `fd` can serve a request for `want`. */
  predicate OpenCorrect(fd: Mask, want: Mask) {
    if want == O_ANY then fd != O_CLOSED else fd * want * O_RDWR == want * O_RDWR
  }

  // ----- threads ---------------------------------------------------------------

  /** The four calls of `PTHREAD_MUTEX_dec_int32_t_and_lock` on `io_work`. */
  datatype Site = BackingOff | GivingUp | SteppingBack | Completing

  /** wait_to_start_io. */
  datatype WaitPc =
    | ClaimIo
    | WantRead
    | WantWrite
    | CheckFdWork
    | AwaitFdWork           // mutex held, as in the next six but the first
    | AwaitFdWorkAsleep
    | CheckModeLocked
    | RaiseFdWorkLocked
    | ReclaimIo
    | ReleaseMutex
    | FailLocked
    | CheckMode
    | RaiseFdWork
    | DropWantRead
    | DropWantWrite

  /** PTHREAD_MUTEX_dec_int32_t_and_lock, and the lock taken if it returns false. */
  datatype DecPc =
    | TryDec
    | TakeMutex
    | DecLocked             // mutex held
    | DropMutex             // mutex held
    | Relock

  /** reopen_fsal_fd; the mutex is held except when asleep. */
  datatype ReopenPc =
    | AwaitLull
    | AwaitLullAsleep
    | ReadMode
    | ReadWantRead
    | ReadWantWrite
    | OpenFd
    | LowerFdWork
    | LeaveReopen

  /** fsal_start_fd_work to fsal_complete_fd_work; the mutex is held except in the
      first two and when asleep. */
  datatype FdPc =
    | StartFdWork
    | StartLock
    | StartWantRead
    | StartWantWrite
    | StartLull
    | StartAsleep
    | Refuse
    | FdSection
    | EndFdWork
    | EndUnlock

  datatype Pc =
    | Idle
    | Wait(w: WaitPc)
    | Dec(d: DecPc, site: Site)
    | Reopen(r: ReopenPc)
    | DoingIo               // wait_to_start_io succeeded, fsal_complete_io not called yet
    | Fd(f: FdPc)

  /** The arguments of the call a thread is in. */
  datatype Call = Call(want: Mask, mayOpen: bool, mayReopen: bool, reclaiming: bool)

  /** The local variables. `looped` records that the back-off loop body has run in the
      current attempt, `inLoop` which of the two calls of reopen_fsal_fd is running,
      `flags` is that call's `openflags`, and `ok` the status about to be returned. */
  datatype Locals = Locals(
    retried: bool, looped: bool, inLoop: bool, canStart: bool, ok: bool, flags: Mask)

  datatype Thread = Thread(pc: Pc, call: Call, l: Locals)

  /** The counters of fsal_fd, plus `refused`: how many reclaims have returned EBUSY
      with their increment of `fd_work` still in place. */
  datatype Counts = Counts(io: int, fd: int, wantRead: int, wantWrite: int, refused: int)

  datatype Mutex = Free | HeldBy(id: nat)

  datatype Shared = Shared(n: Counts, mode: Mask, mutex: Mutex)

  datatype State = State(sh: Shared, threads: seq<Thread>)

  // ----- steps -----------------------------------------------------------------

  /** What a step does not decide itself: the call an idle thread makes, whether
      cant_reopen finds a free descriptor, whether an open succeeds, and the mode an
      open or close leaves behind. */
  datatype Choice = Choice(call: Call, startsIo: bool, yes: bool, mode: Mask)

  function Goto(t: Thread, pc: Pc): Thread {
    t.(pc := pc)
  }

  function Lock(me: nat, s: Shared, t: Thread, t': Thread): (Shared, Thread) {
    if s.mutex == Free then (s.(mutex := HeldBy(me)), t') else (s, t)
  }

  function Unlock(s: Shared): Shared {
    s.(mutex := Free)
  }

  function AddIo(s: Shared, k: int): Shared {
    s.(n := s.n.(io := s.n.io + k))
  }

  function AddFd(s: Shared, k: int): Shared {
    s.(n := s.n.(fd := s.n.fd + k))
  }

  function AddRead(s: Shared, k: int): Shared {
    s.(n := s.n.(wantRead := s.n.wantRead + k))
  }

  function AddWrite(s: Shared, k: int): Shared {
    s.(n := s.n.(wantWrite := s.n.wantWrite + k))
  }

  /** An idle thread calls wait_to_start_io or starts fd work. A caller that passes
      FSAL_O_ANY passes false for both permissions. */
  function Begin(s: Shared, t: Thread, c: Choice): (Shared, Thread) {
    if !c.startsIo then
      (s, Thread(Fd(StartFdWork), c.call, t.l))
    else if c.call.want == O_ANY && (c.call.mayOpen || c.call.mayReopen) then
      (s, t)
    else
      (s, Thread(Wait(ClaimIo), c.call, t.l.(retried := false)))
  }

  /** Where PTHREAD_MUTEX_dec_int32_t_and_lock continues when it returns false. */
  function AfterFalse(t: Thread, site: Site): Thread {
    match site
    case BackingOff => Goto(t, Dec(Relock, BackingOff))
    case SteppingBack => Goto(t, Dec(Relock, SteppingBack))
    case GivingUp => t.(pc := Wait(DropWantRead), l := t.l.(ok := false))
    case Completing => Goto(t, Idle)
  }

  /** ... and when it returns true, with the mutex held. */
  function AfterTrue(t: Thread, site: Site): Thread {
    match site
    case BackingOff => Goto(t, Wait(AwaitFdWork))
    case SteppingBack => t.(pc := Reopen(AwaitLull), l := t.l.(canStart := true))
    case GivingUp => Goto(t, Dec(DropMutex, GivingUp))
    case Completing => Goto(t, Dec(DropMutex, Completing))
  }

  function DecNext(me: nat, s: Shared, t: Thread): (Shared, Thread)
    requires t.pc.Dec?
  {
    var site := t.pc.site;
    match t.pc.d
    case TryDec =>
      if s.n.io != 1 then (AddIo(s, -1), AfterFalse(t, site))
      else (s, Goto(t, Dec(TakeMutex, site)))
    case TakeMutex => Lock(me, s, t, Goto(t, Dec(DecLocked, site)))
    case DecLocked =>
      (AddIo(s, -1), if s.n.io == 1 then AfterTrue(t, site) else Goto(t, Dec(DropMutex, site)))
    case DropMutex => (Unlock(s), AfterFalse(t, site))
    case Relock =>
      if site == SteppingBack then
        Lock(me, s, t, t.(pc := Reopen(AwaitLull), l := t.l.(canStart := false)))
      else if site == BackingOff then
        Lock(me, s, t, Goto(t, Wait(AwaitFdWork)))
      else
        (s, t)
  }

  /** cant_reopen returned false: the caller may open or re-open. (It may return true
      at any time, because the global descriptor limit may be reached at any time.) */
  predicate MayReopenNow(s: Shared, t: Thread) {
    (t.call.mayOpen && s.mode == O_CLOSED) || t.call.mayReopen
  }

  function WaitNext(me: nat, s: Shared, t: Thread, c: Choice): (Shared, Thread)
    requires t.pc.Wait?
  {
    match t.pc.w
    case ClaimIo => (AddIo(s, 1), t.(pc := Wait(WantRead), l := t.l.(looped := false)))
    case WantRead =>
      (if READ in t.call.want && !t.l.retried then AddRead(s, 1) else s, Goto(t, Wait(WantWrite)))
    case WantWrite =>
      (if WRITE in t.call.want && !t.l.retried then AddWrite(s, 1) else s,
       Goto(t, Wait(CheckFdWork)))
    case CheckFdWork =>
      (s, Goto(t, if s.n.fd != 0 then Dec(TryDec, BackingOff) else Wait(CheckMode)))
    case AwaitFdWork =>
      if s.n.fd != 0 then (Unlock(s), Goto(t, Wait(AwaitFdWorkAsleep)))
      else (s, Goto(t, Wait(CheckModeLocked)))
    case AwaitFdWorkAsleep => Lock(me, s, t, Goto(t, Wait(AwaitFdWork)))
    case CheckModeLocked =>
      (s, Goto(t, Wait(if OpenCorrect(s.mode, t.call.want) then ReclaimIo
                       else if c.yes && MayReopenNow(s, t) then RaiseFdWorkLocked
                       else FailLocked)))
    case FailLocked => (Unlock(s), t.(pc := Wait(DropWantRead), l := t.l.(ok := false)))
    case RaiseFdWorkLocked =>
      (AddFd(s, 1), t.(pc := Reopen(AwaitLull), l := t.l.(canStart := false, inLoop := true)))
    case ReclaimIo => (AddIo(s, 1), t.(pc := Wait(ReleaseMutex), l := t.l.(looped := true)))
    case ReleaseMutex => (Unlock(s), Goto(t, Wait(CheckFdWork)))
    case CheckMode =>
      if OpenCorrect(s.mode, t.call.want) then
        (s, t.(pc := Wait(DropWantRead), l := t.l.(ok := true)))
      else if c.yes && !t.l.retried && MayReopenNow(s, t) then
        (s, Goto(t, Wait(RaiseFdWork)))
      else
        (s, Goto(t, Dec(TryDec, GivingUp)))
    case RaiseFdWork =>
      (AddFd(s, 1), t.(pc := Dec(TryDec, SteppingBack), l := t.l.(inLoop := false)))
    case DropWantRead =>
      (if READ in t.call.want then AddRead(s, -1) else s, Goto(t, Wait(DropWantWrite)))
    case DropWantWrite =>
      (if WRITE in t.call.want then AddWrite(s, -1) else s,
       Goto(t, if t.l.ok then DoingIo else Idle))
  }

  /** reopen_fsal_fd. The FSAL's open either succeeds, and then the descriptor serves
      the combined mode, or fails, and then it may be left in any mode. */
  function ReopenNext(me: nat, s: Shared, t: Thread, c: Choice): (Shared, Thread)
    requires t.pc.Reopen?
  {
    match t.pc.r
    case AwaitLull =>
      if !t.l.canStart && s.n.io != 0 then (Unlock(s), Goto(t, Reopen(AwaitLullAsleep)))
      else (s, Goto(t, Reopen(ReadMode)))
    case AwaitLullAsleep => Lock(me, s, t, Goto(t, Reopen(AwaitLull)))
    case ReadMode =>
      (s, t.(pc := Reopen(ReadWantRead),
             l := t.l.(flags := t.call.want + s.mode * O_RDWR)))
    case ReadWantRead =>
      (s, t.(pc := Reopen(ReadWantWrite),
             l := t.l.(flags := if s.n.wantRead != 0 then t.l.flags + {READ} else t.l.flags)))
    case ReadWantWrite =>
      (s, t.(pc := Reopen(OpenFd),
             l := t.l.(flags := if s.n.wantWrite != 0 then t.l.flags + {WRITE} else t.l.flags)))
    case OpenFd =>
      if OpenCorrect(s.mode, t.l.flags) then
        (s, t.(pc := Reopen(LowerFdWork), l := t.l.(ok := true)))
      else
        (s.(mode := c.mode),
         t.(pc := Reopen(LowerFdWork), l := t.l.(ok := c.yes && OpenCorrect(c.mode, t.l.flags))))
    case LowerFdWork => (AddFd(s, -1), Goto(t, Reopen(LeaveReopen)))
    case LeaveReopen =>
      if !t.l.ok then (Unlock(s), Goto(t, Wait(DropWantRead)))
      else if t.l.inLoop then (s, Goto(t, Wait(ReclaimIo)))
      else (Unlock(s), t.(pc := Wait(ClaimIo), l := t.l.(retried := true)))
  }

  /** fsal_start_fd_work, the open or close it brackets, and fsal_complete_fd_work. */
  function FdNext(me: nat, s: Shared, t: Thread, c: Choice): (Shared, Thread)
    requires t.pc.Fd?
  {
    match t.pc.f
    case StartFdWork => (AddFd(s, 1), Goto(t, Fd(StartLock)))
    case StartLock => Lock(me, s, t, Goto(t, Fd(StartWantRead)))
    case StartWantRead =>
      (s, Goto(t, Fd(if s.n.wantRead != 0 && t.call.reclaiming then Refuse else StartWantWrite)))
    case StartWantWrite =>
      (s, Goto(t, Fd(if s.n.wantWrite != 0 && t.call.reclaiming then Refuse else StartLull)))
    case StartLull =>
      if s.n.io == 0 then (s, Goto(t, Fd(FdSection)))
      else if t.call.reclaiming then (s, Goto(t, Fd(Refuse)))
      else (Unlock(s), Goto(t, Fd(StartAsleep)))
    case StartAsleep => Lock(me, s, t, Goto(t, Fd(StartLull)))
    case Refuse =>
      (Unlock(s).(n := s.n.(refused := s.n.refused + 1)), Goto(t, Idle))
    case FdSection => (s.(mode := c.mode), Goto(t, Fd(EndFdWork)))
    case EndFdWork => (AddFd(s, -1), Goto(t, Fd(EndUnlock)))
    case EndUnlock => (Unlock(s), Goto(t, Idle))
  }

  /** One step of thread `me`. */
  function Next(me: nat, s: Shared, t: Thread, c: Choice): (Shared, Thread) {
    match t.pc
    case Idle => Begin(s, t, c)
    case Wait(_) => WaitNext(me, s, t, c)
    case Dec(_, _) => DecNext(me, s, t)
    case Reopen(_) => ReopenNext(me, s, t, c)
    case DoingIo => (s, Goto(t, Dec(TryDec, Completing)))
    case Fd(_) => FdNext(me, s, t, c)
  }

  function Take(a: State, me: nat, c: Choice): State
    requires me < |a.threads|
  {
    var n := Next(me, a.sh, a.threads[me], c);
    State(n.0, a.threads[me := n.1])
  }

  /** A descriptor nobody is using: any mode, any number of threads, all idle. */
  ghost predicate Init(a: State) {
    && a.sh.n == Counts(0, 0, 0, 0, 0)
    && a.sh.mutex == Free
    && forall i :: 0 <= i < |a.threads| ==> a.threads[i].pc == Idle
  }

  /** A run: each state is the one before after one step of one thread. */
  ghost predicate Run(r: seq<State>) {
    && |r| > 0 && Init(r[0])
    && forall k :: 0 <= k < |r| - 1 ==> StepAt(r, k)
  }

  ghost predicate StepAt(r: seq<State>, k: nat)
    requires k + 1 < |r|
  {
    Steps(r[k], r[k + 1])
  }

  ghost predicate Steps(a: State, b: State) {
    exists me: nat, c: Choice :: me < |a.threads| && b == Take(a, me, c)
  }

  // ----- what each thread contributes ------------------------------------------

  function IoPart(t: Thread): int {
    match t.pc
    case Idle => 0
    case DoingIo => 1
    case Fd(_) => 0
    case Reopen(_) => 0
    case Dec(d, _) => if d.DropMutex? || d.Relock? then 0 else 1
    case Wait(w) =>
      if w.DropWantRead? || w.DropWantWrite? then (if t.l.ok then 1 else 0)
      else if || w.WantRead? || w.WantWrite? || w.CheckFdWork? || w.ReleaseMutex?
              || w.CheckMode? || w.RaiseFdWork? then 1
      else 0
  }

  function FdPart(t: Thread): int {
    match t.pc
    case Idle => 0
    case DoingIo => 0
    case Fd(f) => if f.StartFdWork? || f.EndUnlock? then 0 else 1
    case Reopen(r) => if r.LeaveReopen? then 0 else 1
    case Dec(_, site) => if site == SteppingBack then 1 else 0
    case Wait(_) => 0
  }

  /** Inside wait_to_start_io, including the reopen_fsal_fd it calls. */
  predicate InWait(t: Thread) {
    t.pc.Wait? || t.pc.Reopen? || (t.pc.Dec? && t.pc.site != Completing)
  }

  function WantReadPart(t: Thread): int {
    if !InWait(t) || READ !in t.call.want || t.pc == Wait(DropWantWrite) then 0
    else if !t.l.retried && (t.pc == Wait(ClaimIo) || t.pc == Wait(WantRead)) then 0
    else 1
  }

  function WantWritePart(t: Thread): int {
    if !InWait(t) || WRITE !in t.call.want then 0
    else if !t.l.retried && t.pc.Wait?
            && (t.pc.w.ClaimIo? || t.pc.w.WantRead? || t.pc.w.WantWrite?) then 0
    else 1
  }

  predicate Holds(t: Thread) {
    match t.pc
    case Idle => false
    case DoingIo => false
    case Fd(f) => !f.StartFdWork? && !f.StartLock? && !f.StartAsleep?
    case Reopen(r) => !r.AwaitLullAsleep?
    case Dec(d, _) => d.DecLocked? || d.DropMutex?
    case Wait(w) =>
      || w.AwaitFdWork? || w.CheckModeLocked? || w.RaiseFdWorkLocked? || w.ReclaimIo?
      || w.ReleaseMutex? || w.FailLocked?
  }

  /** Inside the open/close section: raised fd_work, then saw io_work at zero while
      holding the mutex, and has not lowered fd_work again. */
  predicate InFdSection(t: Thread) {
    match t.pc
    case Fd(f) => f.FdSection? || f.EndFdWork?
    case Reopen(r) =>
      if r.AwaitLull? then t.l.canStart else !r.AwaitLullAsleep? && !r.LeaveReopen?
    case _ => false
  }

  /** Doing I/O: raised io_work, then saw fd_work at zero, and has not yet lowered
      io_work in fsal_complete_io (or by giving up or stepping back). */
  predicate InIoSection(t: Thread) {
    match t.pc
    case DoingIo => true
    case Dec(_, site) => IoPart(t) == 1 && site != BackingOff
    case Wait(w) =>
      || w.CheckMode? || w.RaiseFdWork? || (t.l.ok && (w.DropWantRead? || w.DropWantWrite?))
    case _ => false
  }

  /** Raised io_work with the mutex held, at the end of the back-off loop body. */
  predicate Reclaimed(t: Thread) {
    match t.pc
    case Wait(w) => w.ReleaseMutex? || (w.CheckFdWork? && t.l.looped)
    case Dec(_, site) => IoPart(t) == 1 && site == BackingOff && t.l.looped
    case _ => false
  }

  /** No open or close may happen while a thread is pinning the mode. */
  predicate Pins(t: Thread) {
    InIoSection(t) || Reclaimed(t)
  }

  /** Succeeded and not yet completed: the caller is using the descriptor. */
  predicate UsingFd(t: Thread) {
    match t.pc
    case DoingIo => true
    case Dec(_, site) => IoPart(t) == 1 && site == Completing
    case Wait(w) => t.l.ok && (w.DropWantRead? || w.DropWantWrite?)
    case _ => false
  }

  /** The thread has established that the mode serves its request. */
  predicate ModeChecked(t: Thread) {
    || UsingFd(t) || Reclaimed(t)
    || t.pc == Wait(ReclaimIo)
    || (t.pc == Wait(CheckMode) && t.l.looped)
    || (t.l.ok && t.l.inLoop && (t.pc == Reopen(LowerFdWork) || t.pc == Reopen(LeaveReopen)))
  }

  /** Past a permission check of cant_reopen, and not yet back from reopen_fsal_fd. */
  predicate Reopening(t: Thread) {
    || t.pc.Reopen? || (t.pc.Dec? && t.pc.site == SteppingBack)
    || t.pc == Wait(RaiseFdWorkLocked) || t.pc == Wait(RaiseFdWork)
  }

  predicate Combining(t: Thread) {
    t.pc == Reopen(ReadWantRead) || t.pc == Reopen(ReadWantWrite) || t.pc == Reopen(OpenFd)
  }

  /** Facts about one thread's local variables alone. */
  predicate LocalOk(t: Thread) {
    && (InWait(t) && t.call.want == O_ANY ==> !t.call.mayOpen && !t.call.mayReopen)
    && (Reopening(t) ==> t.call.want != O_ANY)
    && (Combining(t) ==> t.call.want <= t.l.flags <= t.call.want + O_RDWR)
    && LoopOk(t)
    && (t.pc == Reopen(AwaitLullAsleep) ==> !t.l.canStart)
  }

  predicate LoopOk(t: Thread) {
    t.pc == Wait(WantRead) || t.pc == Wait(WantWrite) ==> !t.l.looped
  }

  ghost predicate Accounted(a: State) {
    && a.sh.n.io == Sum(a.threads, IoPart)
    && a.sh.n.fd == Sum(a.threads, FdPart) + a.sh.n.refused
    && a.sh.n.wantRead == Sum(a.threads, WantReadPart)
    && a.sh.n.wantWrite == Sum(a.threads, WantWritePart)
    && a.sh.n.refused >= 0
  }

  ghost predicate MutexOk(a: State) {
    forall i :: 0 <= i < |a.threads| ==> (Holds(a.threads[i]) <==> a.sh.mutex == HeldBy(i))
  }

  ghost predicate Excluded(a: State) {
    forall i, j :: 0 <= i < |a.threads| && 0 <= j < |a.threads| ==>
      !(Pins(a.threads[i]) && InFdSection(a.threads[j]))
  }

  ghost predicate ModesOk(a: State) {
    forall i :: 0 <= i < |a.threads| && ModeChecked(a.threads[i]) ==>
      OpenCorrect(a.sh.mode, a.threads[i].call.want)
  }

  ghost predicate LocalsOk(a: State) {
    forall i :: 0 <= i < |a.threads| ==> LocalOk(a.threads[i])
  }

  ghost predicate Inv(a: State) {
    Accounted(a) && MutexOk(a) && Excluded(a) && ModesOk(a) && LocalsOk(a)
  }

  // ----- one step, seen locally -------------------------------------------------

  /** A step moves each counter by exactly the change in its own thread's part. */
  predicate Accounts(s: Shared, t: Thread, s': Shared, t': Thread) {
    && s'.n.io - s.n.io == IoPart(t') - IoPart(t)
    && (s'.n.fd - s'.n.refused) - (s.n.fd - s.n.refused) == FdPart(t') - FdPart(t)
    && s'.n.wantRead - s.n.wantRead == WantReadPart(t') - WantReadPart(t)
    && s'.n.wantWrite - s.n.wantWrite == WantWritePart(t') - WantWritePart(t)
    && s.n.refused <= s'.n.refused
  }

  lemma DecAccounts(me: nat, s: Shared, t: Thread)
    requires t.pc.Dec?
    ensures var n := DecNext(me, s, t); Accounts(s, t, n.0, n.1)
  {}

  lemma WaitAccounts(me: nat, s: Shared, t: Thread, c: Choice)
    requires t.pc.Wait?
    ensures var n := WaitNext(me, s, t, c); Accounts(s, t, n.0, n.1)
  {
    WaitReads(me, s, t, c);
    WaitWrites(me, s, t, c);
    WaitWork(me, s, t, c);
  }

  lemma WaitReads(me: nat, s: Shared, t: Thread, c: Choice)
    requires t.pc.Wait?
    ensures var n := WaitNext(me, s, t, c); n.0.n.wantRead - s.n.wantRead == WantReadPart(n.1) - WantReadPart(t)
  {
    match t.pc.w
    case WantRead =>
    case DropWantRead =>
    case ClaimIo =>
    case _ =>
  }

  lemma WaitWrites(me: nat, s: Shared, t: Thread, c: Choice)
    requires t.pc.Wait?
    ensures var n := WaitNext(me, s, t, c); n.0.n.wantWrite - s.n.wantWrite == WantWritePart(n.1) - WantWritePart(t)
  {
    match t.pc.w
    case WantWrite =>
    case DropWantWrite =>
    case ClaimIo =>
    case WantRead =>
    case _ =>
  }

  lemma WaitWork(me: nat, s: Shared, t: Thread, c: Choice)
    requires t.pc.Wait?
    ensures var n := WaitNext(me, s, t, c);
      && n.0.n.io - s.n.io == IoPart(n.1) - IoPart(t) && n.0.n.refused == s.n.refused
      && n.0.n.fd - s.n.fd == FdPart(n.1) - FdPart(t)
  {}

  lemma ReopenAccounts(me: nat, s: Shared, t: Thread, c: Choice)
    requires t.pc.Reopen?
    ensures var n := ReopenNext(me, s, t, c); Accounts(s, t, n.0, n.1)
  {}

  lemma FdAccounts(me: nat, s: Shared, t: Thread, c: Choice)
    requires t.pc.Fd?
    ensures var n := FdNext(me, s, t, c); Accounts(s, t, n.0, n.1)
  {}

  lemma NextAccounts(me: nat, s: Shared, t: Thread, c: Choice)
    ensures var n := Next(me, s, t, c); Accounts(s, t, n.0, n.1)
  {
    match t.pc
    case Idle =>
    case Wait(_) => WaitAccounts(me, s, t, c);
    case Dec(_, _) => DecAccounts(me, s, t);
    case Reopen(_) => ReopenAccounts(me, s, t, c);
    case DoingIo =>
    case Fd(_) => FdAccounts(me, s, t, c);
  }

  /** The mutex changes hands only through the stepping thread, and its program
      counter always shows whether it has it. */
  predicate MutexStep(me: nat, s: Shared, t: Thread, s': Shared, t': Thread) {
    || (s'.mutex == s.mutex && Holds(t') == Holds(t))
    || (s.mutex == Free && s'.mutex == HeldBy(me) && !Holds(t) && Holds(t'))
    || (s'.mutex == Free && Holds(t) && !Holds(t'))
  }

  lemma NextMutex(me: nat, s: Shared, t: Thread, c: Choice)
    ensures var n := Next(me, s, t, c); MutexStep(me, s, t, n.0, n.1)
  {
    match t.pc
    case Idle =>
    case Wait(_) => WaitMutex(me, s, t, c);
    case Dec(_, _) =>
    case Reopen(_) => ReopenMutex(me, s, t, c);
    case DoingIo =>
    case Fd(_) => FdMutex(me, s, t, c);
  }

  lemma WaitMutex(me: nat, s: Shared, t: Thread, c: Choice)
    requires t.pc.Wait?
    ensures var n := WaitNext(me, s, t, c); MutexStep(me, s, t, n.0, n.1)
  {}

  lemma ReopenMutex(me: nat, s: Shared, t: Thread, c: Choice)
    requires t.pc.Reopen?
    ensures var n := ReopenNext(me, s, t, c); MutexStep(me, s, t, n.0, n.1)
  {}

  lemma FdMutex(me: nat, s: Shared, t: Thread, c: Choice)
    requires t.pc.Fd?
    ensures var n := FdNext(me, s, t, c); MutexStep(me, s, t, n.0, n.1)
  {}

  /** How a thread enters the two sections, and that only the open/close section
      changes the mode. */
  predicate SectionStep(s: Shared, t: Thread, s': Shared, t': Thread) {
    && (InFdSection(t') ==> InFdSection(t) || s'.n.io == 0)
    && (Pins(t') ==> Pins(t) || s.n.fd == 0 || (Holds(t) && !InFdSection(t)))
    && (s'.mode != s.mode ==> InFdSection(t))
  }

  lemma NextSection(me: nat, s: Shared, t: Thread, c: Choice)
    requires LocalOk(t)
    ensures var n := Next(me, s, t, c); SectionStep(s, t, n.0, n.1)
  {
    match t.pc
    case Idle =>
    case Wait(_) => WaitSection(me, s, t, c);
    case Dec(_, _) => DecSection(me, s, t);
    case Reopen(_) => ReopenSection(me, s, t, c);
    case DoingIo =>
    case Fd(_) => FdSectionStep(me, s, t, c);
  }

  lemma WaitSection(me: nat, s: Shared, t: Thread, c: Choice)
    requires t.pc.Wait? && LocalOk(t)
    ensures var n := WaitNext(me, s, t, c); SectionStep(s, t, n.0, n.1)
  {}

  lemma DecSection(me: nat, s: Shared, t: Thread)
    requires t.pc.Dec? && LocalOk(t)
    ensures var n := DecNext(me, s, t); SectionStep(s, t, n.0, n.1)
  {}

  lemma ReopenSection(me: nat, s: Shared, t: Thread, c: Choice)
    requires t.pc.Reopen? && LocalOk(t)
    ensures var n := ReopenNext(me, s, t, c); SectionStep(s, t, n.0, n.1)
  {}

  lemma FdSectionStep(me: nat, s: Shared, t: Thread, c: Choice)
    requires t.pc.Fd? && LocalOk(t)
    ensures var n := FdNext(me, s, t, c); SectionStep(s, t, n.0, n.1)
  {}

  /** What membership of the sections says about a single thread. */
  lemma SectionFacts(t: Thread)
    ensures InFdSection(t) ==> Holds(t) && FdPart(t) == 1 && !Pins(t)
    ensures Pins(t) ==> IoPart(t) == 1
    ensures ModeChecked(t) ==> Pins(t) || Holds(t)
    ensures 0 <= IoPart(t) <= 1 && 0 <= FdPart(t) <= 1
    ensures 0 <= WantReadPart(t) <= 1 && 0 <= WantWritePart(t) <= 1
  {}

  /** A thread only counts the mode as checked when it serves its request. */
  predicate ModeOk(s: Shared, t: Thread) {
    ModeChecked(t) ==> OpenCorrect(s.mode, t.call.want)
  }

  lemma NextLocal(me: nat, s: Shared, t: Thread, c: Choice)
    requires LocalOk(t)
    ensures var n := Next(me, s, t, c); LocalOk(n.1)
  {
    match t.pc
    case Idle =>
    case Wait(_) => WaitLocal(me, s, t, c);
    case Dec(_, _) => DecLocal(me, s, t);
    case Reopen(_) => ReopenLocal(me, s, t, c);
    case DoingIo =>
    case Fd(_) => FdLocal(me, s, t, c);
  }

  lemma WaitLocal(me: nat, s: Shared, t: Thread, c: Choice)
    requires t.pc.Wait? && LocalOk(t)
    ensures var n := WaitNext(me, s, t, c); LocalOk(n.1)
  {}

  lemma DecLocal(me: nat, s: Shared, t: Thread)
    requires t.pc.Dec? && LocalOk(t)
    ensures var n := DecNext(me, s, t); LocalOk(n.1)
  {}

  lemma ReopenLocal(me: nat, s: Shared, t: Thread, c: Choice)
    requires t.pc.Reopen? && LocalOk(t)
    ensures var n := ReopenNext(me, s, t, c); LocalOk(n.1)
  {
    match t.pc.r
    case ReadMode =>
    case ReadWantRead =>
    case ReadWantWrite =>
    case _ =>
  }

  lemma FdLocal(me: nat, s: Shared, t: Thread, c: Choice)
    requires t.pc.Fd? && LocalOk(t)
    ensures var n := FdNext(me, s, t, c); LocalOk(n.1)
  {}

  lemma NextMode(me: nat, s: Shared, t: Thread, c: Choice)
    requires LocalOk(t) && ModeOk(s, t)
    ensures var n := Next(me, s, t, c); ModeOk(n.0, n.1)
  {
    match t.pc
    case Idle =>
    case Wait(_) => WaitMode(me, s, t, c);
    case Dec(_, _) => DecMode(me, s, t);
    case Reopen(_) => ReopenMode(me, s, t, c);
    case DoingIo =>
    case Fd(_) => FdMode(me, s, t, c);
  }

  lemma WaitMode(me: nat, s: Shared, t: Thread, c: Choice)
    requires t.pc.Wait? && LoopOk(t) && ModeOk(s, t)
    ensures var n := WaitNext(me, s, t, c); ModeOk(n.0, n.1)
  {
    WaitChecks(me, s, t, c);
    WaitKeepsMode(me, s, t, c);
  }

  lemma WaitKeepsMode(me: nat, s: Shared, t: Thread, c: Choice)
    requires t.pc.Wait?
    ensures var n := WaitNext(me, s, t, c); n.0.mode == s.mode && n.1.call == t.call
  {}

  lemma WaitChecks(me: nat, s: Shared, t: Thread, c: Choice)
    requires t.pc.Wait? && LoopOk(t)
    ensures ModeChecked(WaitNext(me, s, t, c).1) ==> ModeChecked(t) || OpenCorrect(s.mode, t.call.want)
  {}

  lemma DecMode(me: nat, s: Shared, t: Thread)
    requires t.pc.Dec? && ModeOk(s, t)
    ensures var n := DecNext(me, s, t); ModeOk(n.0, n.1)
  {}

  lemma ReopenMode(me: nat, s: Shared, t: Thread, c: Choice)
    requires t.pc.Reopen? && LocalOk(t) && ModeOk(s, t)
    ensures var n := ReopenNext(me, s, t, c); ModeOk(n.0, n.1)
  {
    if t.pc.r.OpenFd? {
      OpenCorrectNarrow(s.mode, t.call.want, t.l.flags);
      OpenCorrectNarrow(c.mode, t.call.want, t.l.flags);
    }
  }

  lemma FdMode(me: nat, s: Shared, t: Thread, c: Choice)
    requires t.pc.Fd? && ModeOk(s, t)
    ensures var n := FdNext(me, s, t, c); ModeOk(n.0, n.1)
  {}

  /** A mode that serves the combined request serves each request in it. */
  lemma OpenCorrectNarrow(fd: Mask, want: Mask, flags: Mask)
    requires want != O_ANY && want <= flags <= want + O_RDWR
    ensures OpenCorrect(fd, flags) ==> OpenCorrect(fd, want)
  {
    assert flags == O_ANY ==> 5 in flags;
    assert 5 !in O_RDWR;
    if OpenCorrect(fd, flags) && flags != O_ANY {
      forall b | b in want * O_RDWR ensures b in fd {
        assert b in flags * O_RDWR;
      }
    }
  }

  // ----- one step, seen by all threads --------------------------------------------

  lemma AccountedKept(a: State, me: nat, c: Choice)
    requires me < |a.threads| && Accounted(a)
    ensures Accounted(Take(a, me, c))
  {
    var t := a.threads[me];
    var t' := Next(me, a.sh, t, c).1;
    NextAccounts(me, a.sh, t, c);
    SumUpdate(a.threads, me, t', IoPart);
    SumUpdate(a.threads, me, t', FdPart);
    SumUpdate(a.threads, me, t', WantReadPart);
    SumUpdate(a.threads, me, t', WantWritePart);
  }

  /** A counter at zero means no thread contributes to it. */
  lemma NobodyIn(a: State, i: nat)
    requires Accounted(a) && i < |a.threads|
    ensures Pins(a.threads[i]) ==> a.sh.n.io >= 1
    ensures InFdSection(a.threads[i]) ==> a.sh.n.fd >= 1
  {
    forall k | 0 <= k < |a.threads| ensures IoPart(a.threads[k]) >= 0 && FdPart(a.threads[k]) >= 0 {
      SectionFacts(a.threads[k]);
    }
    SumAtLeast(a.threads, i, IoPart);
    SumAtLeast(a.threads, i, FdPart);
    SectionFacts(a.threads[i]);
  }

  lemma MutexKept(a: State, me: nat, c: Choice)
    requires me < |a.threads| && MutexOk(a)
    ensures MutexOk(Take(a, me, c))
  {
    NextMutex(me, a.sh, a.threads[me], c);
  }

  lemma ExcludedKept(a: State, me: nat, c: Choice)
    requires me < |a.threads| && Inv(a)
    ensures Excluded(Take(a, me, c))
  {
    var b := Take(a, me, c);
    AccountedKept(a, me, c);
    NextSection(me, a.sh, a.threads[me], c);
    SectionFacts(a.threads[me]);
    SectionFacts(b.threads[me]);
    forall i, j | 0 <= i < |b.threads| && 0 <= j < |b.threads|
      ensures !(Pins(b.threads[i]) && InFdSection(b.threads[j]))
    {
      SectionFacts(a.threads[j]);
      NobodyIn(a, j);
      NobodyIn(b, i);
    }
  }

  lemma ModesKept(a: State, me: nat, c: Choice)
    requires me < |a.threads| && Inv(a)
    ensures ModesOk(Take(a, me, c)) && LocalsOk(Take(a, me, c))
  {
    var b := Take(a, me, c);
    NextLocal(me, a.sh, a.threads[me], c);
    NextMode(me, a.sh, a.threads[me], c);
    NextSection(me, a.sh, a.threads[me], c);
    SectionFacts(a.threads[me]);
    forall i | 0 <= i < |b.threads| && ModeChecked(b.threads[i])
      ensures OpenCorrect(b.sh.mode, b.threads[i].call.want)
    {
      SectionFacts(a.threads[i]);
    }
  }

  lemma InvKept(a: State, me: nat, c: Choice)
    requires me < |a.threads| && Inv(a)
    ensures Inv(Take(a, me, c))
  {
    AccountedKept(a, me, c);
    MutexKept(a, me, c);
    ExcludedKept(a, me, c);
    ModesKept(a, me, c);
  }

  lemma InvInit(a: State)
    requires Init(a)
    ensures Inv(a)
  {
    SumZero(a.threads, IoPart);
    SumZero(a.threads, FdPart);
    SumZero(a.threads, WantReadPart);
    SumZero(a.threads, WantWritePart);
  }
}
