/** Wake-ups: `work_cond` is one condition variable for two kinds of waiter, and every call that
    wakes uses pthread_cond_signal.

    FdWork lets a sleeper go on whenever the mutex is free. Here a sleeper goes on only after a
    signal was given to it. */
module FdSignals {
  import opened Bits
  import opened FdReclaim
  import opened FdRuns
  import opened FdWork
  import opened Tally

  /** Waits for fd_work to be zero. */
  predicate AwaitsFdWork(t: Thread) {
    t.pc == Wait(AwaitFdWorkAsleep)
  }

  /** Waits for io_work to be zero. */
  predicate AwaitsIo(t: Thread) {
    t.pc == Fd(StartAsleep) || t.pc == Reopen(AwaitLullAsleep)
  }

  predicate Asleep(t: Thread) {
    AwaitsFdWork(t) || AwaitsIo(t)
  }

  /** The step calls pthread_cond_signal: io_work falls to zero in any call but one that will itself
      re-open, or fd work is over. */
  predicate Signals(s: Shared, t: Thread) {
    || (t.pc.Dec? && t.pc.d == DecLocked && t.pc.site != SteppingBack && s.n.io == 1)
    || t.pc == Reopen(LowerFdWork) || t.pc == Fd(EndFdWork)
  }

  /** `woken`: the sleepers that a signal was given to. */
  datatype World = World(a: State, woken: set<nat>)

  ghost predicate Sleeps(w: World, i: nat) {
    i < |w.a.threads| && Asleep(w.a.threads[i]) && i !in w.woken
  }

  ghost predicate SomeSleeps(w: World) {
    exists i: nat :: Sleeps(w, i)
  }

  /** One step of thread `me`, which is not asleep or has been woken. A signal is given to one of the
      threads that sleep, the system chooses which, and to none if none does. */
  ghost predicate Step(w: World, w': World, me: nat, c: Choice) {
    && me < |w.a.threads| && !Sleeps(w, me) && w'.a == Take(w.a, me, c)
    && var still := w.woken - (if w'.a.threads[me] == w.a.threads[me] then {} else {me});
       if Signals(w.a.sh, w.a.threads[me]) && SomeSleeps(w)
       then exists i: nat :: Sleeps(w, i) && w'.woken == still + {i}
       else w'.woken == still
  }

  // ----- runs ---------------------------------------------------------------------------------

  ghost predicate Begins(w: World) {
    Init(w.a) && w.woken == {}
  }

  ghost predicate WorldStep(r: seq<World>, k: nat)
    requires k + 1 < |r|
  {
    Moves(r[k], r[k + 1])
  }

  ghost predicate Moves(w: World, w': World) {
    exists me: nat, c: Choice :: Step(w, w', me, c)
  }

  /** A run, with whatever choice the system makes of whom to wake. */
  ghost predicate WorldRun(r: seq<World>) {
    && |r| > 0 && Begins(r[0])
    && forall k :: 0 <= k < |r| - 1 ==> WorldStep(r, k)
  }

  lemma {:induction false} WorldRunInv(r: seq<World>, k: nat)
    requires WorldRun(r) && k < |r|
    ensures Inv(r[k].a)
  {
    if k == 0 {
      InvInit(r[0].a);
    } else {
      WorldRunInv(r, k - 1);
      assert WorldStep(r, k - 1);
      var me: nat, c: Choice :| Step(r[k - 1], r[k], me, c);
      InvKept(r[k - 1].a, me, c);
    }
  }

  /** Everybody is between calls or asleep. */
  ghost predicate AllRest(w: World) {
    forall i :: 0 <= i < |w.a.threads| ==> w.a.threads[i].pc == Idle || Sleeps(w, i)
  }

  /** Nobody can take a step but threads that begin a new call, and yet somebody waits. */
  ghost predicate Stuck(w: World) {
    SomeSleeps(w) && AllRest(w)
  }

  ghost predicate SomeInSection(a: State) {
    exists j :: 0 <= j < |a.threads| && InFdSection(a.threads[j])
  }

  /** Whoever sleeps still has a reason to. */
  ghost predicate Justified(w: World, i: nat) {
    Sleeps(w, i) ==>
      if AwaitsFdWork(w.a.threads[i]) then w.a.sh.n.fd != 0
      else w.a.sh.n.io != 0 || SomeInSection(w.a)
  }

  /** Asleep, with what it waits for come true. */
  ghost predicate Overlooked(w: World, i: nat) {
    Sleeps(w, i) && !Justified(w, i)
  }

  /** The step does not signal. */
  ghost predicate MovesQuietly(w: World, w': World) {
    exists me: nat, c: Choice :: Step(w, w', me, c) && !Signals(w.a.sh, w.a.threads[me])
  }

  /** The step signals, and leaves someone asleep that has no reason to be. */
  ghost predicate Loses(w: World, w': World) {
    && (exists me: nat, c: Choice :: Step(w, w', me, c) && Signals(w.a.sh, w.a.threads[me]))
    && exists i: nat :: Overlooked(w', i)
  }

  // ----- where a thread comes to be overlooked -------------------------------------------------

  /** What a step can do to the two conditions and to its own sleep. */
  lemma SignalFacts(me: nat, s: Shared, t: Thread, c: Choice)
    requires s.n.io >= 0 && s.n.fd >= 0
    ensures var n := Next(me, s, t, c);
      && (n.0.n.fd == 0 && s.n.fd != 0 ==> Signals(s, t))
      && (n.0.n.io == 0 && s.n.io != 0 ==> Signals(s, t) || InFdSection(n.1))
      && (InFdSection(t) && !InFdSection(n.1) ==> Signals(s, t))
      && (Asleep(t) && n.1 != t ==> !Asleep(n.1))
      && (!Asleep(t) && AwaitsFdWork(n.1) ==> n.0.n.fd != 0)
      && (!Asleep(t) && AwaitsIo(n.1) ==> n.0.n.io != 0)
  {
    match t.pc
    case Idle =>
    case Wait(_) =>
    case Dec(_, _) =>
    case Reopen(_) =>
    case DoingIo =>
    case Fd(_) =>
  }

  lemma CountsNonNegative(a: State)
    requires Inv(a)
    ensures a.sh.n.io >= 0 && a.sh.n.fd >= 0
  {
    forall j | 0 <= j < |a.threads| ensures IoPart(a.threads[j]) >= 0 && FdPart(a.threads[j]) >= 0 {
      SectionFacts(a.threads[j]);
    }
    SumNonNegative(a.threads, IoPart);
    SumNonNegative(a.threads, FdPart);
  }

  /** Only a signal takes away a reason to sleep. */
  lemma JustifiedKept(w: World, w': World, me: nat, c: Choice, i: nat)
    requires Inv(w.a) && Step(w, w', me, c) && !Signals(w.a.sh, w.a.threads[me]) && Justified(w, i)
    ensures Justified(w', i)
  {
    CountsNonNegative(w.a);
    SignalFacts(me, w.a.sh, w.a.threads[me], c);
    if Sleeps(w', i) && i != me {
      assert Sleeps(w, i);
      if SomeInSection(w.a) {
        var j :| 0 <= j < |w.a.threads| && InFdSection(w.a.threads[j]);
        assert InFdSection(w'.a.threads[j]);
      }
      if InFdSection(w'.a.threads[me]) {
        assert SomeInSection(w'.a);
      }
    }
  }

  lemma OverlookedBefore(w: World, w': World, i: nat)
    requires Inv(w.a) && MovesQuietly(w, w') && Overlooked(w', i)
    ensures Overlooked(w, i)
  {
    var me: nat, c: Choice :| Step(w, w', me, c) && !Signals(w.a.sh, w.a.threads[me]);
    if Justified(w, i) {
      JustifiedKept(w, w', me, c, i);
    }
  }

  lemma OverlookedOrLost(w: World, w': World, i: nat)
    requires Inv(w.a) && Moves(w, w') && Overlooked(w', i)
    ensures Loses(w, w') || (MovesQuietly(w, w') && Overlooked(w, i))
  {
    if MovesQuietly(w, w') {
      OverlookedBefore(w, w', i);
    }
  }

  lemma OverlookedOrLostAt(r: seq<World>, k: nat, i: nat)
    requires WorldRun(r) && k + 1 < |r| && Overlooked(r[k + 1], i)
    ensures Loses(r[k], r[k + 1]) || (MovesQuietly(r[k], r[k + 1]) && Overlooked(r[k], i))
  {
    WorldRunInv(r, k);
    assert WorldStep(r, k);
    OverlookedOrLost(r[k], r[k + 1], i);
  }

  lemma NoneSleepsFirst(w: World, i: nat)
    requires Begins(w)
    ensures !Sleeps(w, i)
  {}

  ghost predicate QuietAfter(r: seq<World>, k: nat, q: nat) {
    k < q < |r| - 1 ==> MovesQuietly(r[q], r[q + 1])
  }

  /** The step at `k` lost a wake-up, and up to `m` there was no signal since. */
  ghost predicate LostAt(r: seq<World>, k: nat, m: nat) {
    k < m < |r| && Loses(r[k], r[k + 1]) && forall q: nat :: q < m ==> QuietAfter(r, k, q)
  }

  lemma LostNow(r: seq<World>, k: nat)
    requires k + 1 < |r| && Loses(r[k], r[k + 1])
    ensures LostAt(r, k, k + 1)
  {}

  lemma LostSince(r: seq<World>, k: nat, m: nat)
    requires m + 1 < |r| && LostAt(r, k, m) && MovesQuietly(r[m], r[m + 1])
    ensures LostAt(r, k, m + 1)
  {
    assert QuietAfter(r, k, m);
  }

  /** In every run, an overlooked thread was left asleep by a signal, the last there was. */
  lemma {:induction false} OverlookedSince(r: seq<World>, m: nat, i: nat) returns (k: nat)
    requires WorldRun(r) && m < |r| && Overlooked(r[m], i)
    ensures LostAt(r, k, m)
  {
    NoneSleepsFirst(r[0], i);
    OverlookedOrLostAt(r, m - 1, i);
    if Loses(r[m - 1], r[m]) {
      k := m - 1;
      LostNow(r, k);
    } else {
      k := OverlookedSince(r, m - 1, i);
      LostSince(r, k, m - 1);
    }
  }

  // ----- when the descriptor comes to rest with a thread asleep ------------------------------------

  lemma StuckOnRefusal(w: World)
    requires Inv(w.a) && Stuck(w) && forall i: nat :: Justified(w, i)
    ensures w.a.sh.n.refused > 0
  {
    OnlyReadersSleep(w);
    SumZero(w.a.threads, FdPart);
    var i: nat :| Sleeps(w, i);
    assert Justified(w, i);
  }

  /** With nobody in I/O nobody still waits for io_work to be zero. */
  lemma OnlyReadersSleep(w: World)
    requires Inv(w.a) && Stuck(w) && forall i: nat :: Justified(w, i)
    ensures forall j :: 0 <= j < |w.a.threads| ==> AwaitsFdWork(w.a.threads[j]) || w.a.threads[j].pc == Idle
  {
    forall j | 0 <= j < |w.a.threads| ensures !InFdSection(w.a.threads[j]) && IoPart(w.a.threads[j]) == 0 {
      assert w.a.threads[j].pc == Idle || Sleeps(w, j);
    }
    SumZero(w.a.threads, IoPart);
    forall j | 0 <= j < |w.a.threads| ensures AwaitsFdWork(w.a.threads[j]) || w.a.threads[j].pc == Idle {
      assert Justified(w, j);
    }
  }

  lemma {:induction false} SleepsOn(r: seq<World>, k: nat, m: nat, i: nat)
    requires k < m < |r| && Sleeps(r[k + 1], i) && forall q: nat :: q < m ==> QuietAfter(r, k, q)
    ensures Sleeps(r[m], i)
    decreases m
  {
    if m > k + 1 {
      SleepsOn(r, k, m - 1, i);
      assert QuietAfter(r, k, m - 1);
      var me: nat, c: Choice :| Step(r[m - 1], r[m], me, c) && !Signals(r[m - 1].a.sh, r[m - 1].a.threads[me]);
    }
  }

  /** A run, but for a refused reclaim, leaves the descriptor at rest with a thread asleep iff everybody
      comes to rest, and the last signal left a thread asleep that had no reason to be. */
  lemma StuckIffLost(r: seq<World>, m: nat)
    requires WorldRun(r) && m < |r| && r[m].a.sh.n.refused == 0
    ensures Stuck(r[m]) <==> AllRest(r[m]) && exists k: nat :: LostAt(r, k, m)
  {
    if Stuck(r[m]) {
      WorldRunInv(r, m);
      if forall i: nat :: Justified(r[m], i) {
        StuckOnRefusal(r[m]);
      }
      var i: nat :| !Justified(r[m], i);
      var k := OverlookedSince(r, m, i);
    }
    if AllRest(r[m]) && exists k: nat :: LostAt(r, k, m) {
      var k: nat :| LostAt(r, k, m);
      var i: nat :| Overlooked(r[k + 1], i);
      SleepsOn(r, k, m, i);
    }
  }

  ghost predicate LosesAt(r: seq<World>, k: nat) {
    k + 1 < |r| && Loses(r[k], r[k + 1])
  }

  /** So as long as no signal leaves a thread asleep that has no reason to be, the descriptor never comes
      to rest with a thread asleep, but for a refused reclaim. */
  lemma NoLostWakeUp(r: seq<World>, m: nat)
    requires WorldRun(r) && m < |r| && forall k: nat :: k < m ==> !LosesAt(r, k)
    ensures Stuck(r[m]) ==> r[m].a.sh.n.refused > 0
  {
    WorldRunInv(r, m);
    if Stuck(r[m]) && r[m].a.sh.n.refused == 0 {
      StuckIffLost(r, m);
      var k: nat :| LostAt(r, k, m);
      assert LosesAt(r, k);
    }
  }

  /** Whoever sleeps after a signal slept before it, and a sleeper was woken. */
  lemma SignalWakesOne(w: World, w': World, me: nat, c: Choice, i: nat) returns (j: nat)
    requires Step(w, w', me, c) && Signals(w.a.sh, w.a.threads[me]) && Sleeps(w', i)
    ensures Sleeps(w, i) && Sleeps(w, j) && i != j
  {
    assert !Asleep(w'.a.threads[me]);
    assert Sleeps(w, i);
    j :| Sleeps(w, j) && j in w'.woken;
  }

  /** A signal given while at most one thread sleeps is such a one. */
  lemma OneSleeperIsEnough(w: World, w': World)
    requires forall i: nat, j: nat :: Sleeps(w, i) && Sleeps(w, j) ==> i == j
    ensures !Loses(w, w')
  {
    if Loses(w, w') {
      var me: nat, c: Choice :| Step(w, w', me, c) && Signals(w.a.sh, w.a.threads[me]);
      var i: nat :| Overlooked(w', i);
      var j := SignalWakesOne(w, w', me, c, i);
    }
  }

  // ----- the code's signal does not ---------------------------------------------------------

  /** The next `n` turns of a thread neither sleep nor signal. */
  predicate Quiet(me: nat, s: Shared, t: Thread, c: Choice, n: nat)
    decreases n
  {
    n == 0 || (!Asleep(t) && !Signals(s, t) && var x := Next(me, s, t, c); Quiet(me, x.0, x.1, c, n - 1))
  }

  lemma {:induction false} QuietAt(me: nat, s: Shared, t: Thread, c: Choice, n: nat, i: nat)
    requires Quiet(me, s, t, c, n) && i < n
    ensures var x := Turns(me, s, t, c, i); !Asleep(x.1) && !Signals(x.0, x.1)
    decreases n
  {
    if i != 0 {
      var x := Next(me, s, t, c);
      QuietAt(me, x.0, x.1, c, n - 1, i - 1);
    }
  }

  ghost predicate EndsIn(r: seq<World>, w: World) {
    WorldRun(r) && r[|r| - 1] == w
  }

  lemma OneStep(r: seq<World>, w: World, w': World, me: nat, c: Choice) returns (r': seq<World>)
    requires EndsIn(r, w) && Step(w, w', me, c)
    ensures EndsIn(r', w') && r <= r'
  {
    r' := r + [w'];
    forall k | 0 <= k < |r'| - 1 ensures WorldStep(r', k) {
      if k < |r| - 1 {
        assert WorldStep(r, k);
      } else {
        assert Step(r'[k], r'[k + 1], me, c);
      }
    }
  }

  /** A thread runs on alone through quiet turns. */
  lemma {:induction false} QuietTurns(r: seq<World>, w: World, me: nat, c: Choice, n: nat)
    returns (r': seq<World>)
    requires EndsIn(r, w) && me < |w.a.threads| && me !in w.woken
    requires Quiet(me, w.a.sh, w.a.threads[me], c, n)
    ensures var x := Turns(me, w.a.sh, w.a.threads[me], c, n);
      EndsIn(r', World(State(x.0, w.a.threads[me := x.1]), w.woken))
  {
    AloneIs(w.a, me, c, n);
    r' := QuietRun(r, w, me, c, n, n);
  }

  lemma {:induction false} QuietRun(r: seq<World>, w: World, me: nat, c: Choice, n: nat, i: nat)
    returns (r': seq<World>)
    requires EndsIn(r, w) && me < |w.a.threads| && me !in w.woken && i <= n
    requires Quiet(me, w.a.sh, w.a.threads[me], c, n)
    ensures EndsIn(r', World(Alone(w.a, me, c, i), w.woken))
    decreases i
  {
    if i == 0 {
      r' := r;
    } else {
      var s := QuietRun(r, w, me, c, n, i - 1);
      var b := Alone(w.a, me, c, i - 1);
      QuietAlone(w.a, me, c, n, i - 1);
      r' := QuietTurn(s, b, w.woken, me, c);
    }
  }

  lemma QuietTurn(r: seq<World>, a: State, woken: set<nat>, me: nat, c: Choice) returns (r': seq<World>)
    requires EndsIn(r, World(a, woken)) && me < |a.threads| && me !in woken
    requires !Asleep(a.threads[me]) && !Signals(a.sh, a.threads[me])
    ensures EndsIn(r', World(Take(a, me, c), woken)) && r <= r'
  {
    QuietStep(a, woken, me, c);
    r' := OneStep(r, World(a, woken), World(Take(a, me, c), woken), me, c);
  }

  lemma QuietAlone(a: State, me: nat, c: Choice, n: nat, i: nat)
    requires me < |a.threads| && Quiet(me, a.sh, a.threads[me], c, n) && i < n
    ensures var b := Alone(a, me, c, i); !Asleep(b.threads[me]) && !Signals(b.sh, b.threads[me])
  {
    AloneIs(a, me, c, i);
    QuietAt(me, a.sh, a.threads[me], c, n, i);
  }

  lemma QuietStep(a: State, woken: set<nat>, me: nat, c: Choice)
    requires me < |a.threads| && me !in woken && !Asleep(a.threads[me]) && !Signals(a.sh, a.threads[me])
    ensures Step(World(a, woken), World(Take(a, me, c), woken), me, c)
  {
    assert woken - {me} == woken;
  }

  const CLOSE: Choice := Choice(Call({}, false, false, false), false, false, O_CLOSED)

  // ----- everybody else comes to rest ----------------------------------------------------------

  /** On its way out, or back to sleep, without a signal and with no lock to wait for. */
  predicate Quits(s: Shared, t: Thread) {
    match t.pc
    case Dec(d, site) => d.DropMutex? && (site == GivingUp || site == Completing)
    case Wait(p) =>
      if p.AwaitFdWork? then s.n.fd != 0 || !OpenCorrect(s.mode, t.call.want)
      else if p.CheckModeLocked? then !OpenCorrect(s.mode, t.call.want)
      else p.FailLocked? || ((p.DropWantRead? || p.DropWantWrite?) && !t.l.ok)
    case Reopen(p) => (p.AwaitLull? && !t.l.canStart && s.n.io != 0) || (p.LeaveReopen? && !t.l.ok)
    case Fd(p) => (p.StartLull? && s.n.io != 0 && !t.call.reclaiming) || p.EndUnlock?
    case _ => false
  }

  /** Woken for nothing: what it waits for is not so, or the descriptor is in the wrong mode for it. */
  predicate Fruitless(s: Shared, t: Thread) {
    if AwaitsFdWork(t) then s.n.fd != 0 || !OpenCorrect(s.mode, t.call.want)
    else AwaitsIo(t) && s.n.io != 0 && (if t.pc.Fd? then !t.call.reclaiming else !t.l.canStart)
  }

  ghost predicate MayRest(w: World, j: nat)
    requires j < |w.a.threads|
  {
    var t := w.a.threads[j];
    || t.pc == Idle || Sleeps(w, j)
    || (if j in w.woken then Fruitless(w.a.sh, t) else Quits(w.a.sh, t))
  }

  /** Everybody sleeps, is between calls, or can go there without a signal. */
  ghost predicate CanRest(w: World) {
    forall j :: 0 <= j < |w.a.threads| ==> MayRest(w, j)
  }

  predicate SameFd(s: Shared, s': Shared) {
    s'.mode == s.mode && s'.n.io == s.n.io && s'.n.fd == s.n.fd && s'.n.refused == s.n.refused
  }

  /** The turns that are left. */
  function Left(t: Thread): nat {
    match t.pc
    case Dec(_, _) => 3
    case Wait(p) =>
      if p.AwaitFdWork? then 5 else if p.CheckModeLocked? then 4 else if p.FailLocked? then 3
      else if p.DropWantRead? then 2 else 1
    case Reopen(_) => 3
    case _ => 1
  }

  predicate Rests(t: Thread) {
    t.pc == Idle || Asleep(t)
  }

  lemma QuitsOn(me: nat, s: Shared, t: Thread)
    requires Quits(s, t)
    ensures var n := Next(me, s, t, CLOSE);
      && !Signals(s, t) && !Asleep(t) && SameFd(s, n.0)
      && (Rests(n.1) || (Quits(n.0, n.1) && Left(n.1) < Left(t)))
  {}

  /** From `w` to `w'` only thread `j` changed. */
  ghost predicate Only(w: World, w': World, j: nat) {
    && |w'.a.threads| == |w.a.threads| && SameFd(w.a.sh, w'.a.sh) && w'.woken == w.woken - {j}
    && forall i :: 0 <= i < |w.a.threads| && i != j ==> w'.a.threads[i] == w.a.threads[i]
  }

  lemma {:induction false} QuitsAlone(r: seq<World>, w: World, j: nat) returns (r': seq<World>, w': World)
    requires EndsIn(r, w) && j < |w.a.threads| && j !in w.woken && Quits(w.a.sh, w.a.threads[j])
    ensures EndsIn(r', w') && r <= r' && Only(w, w', j) && Rests(w'.a.threads[j])
    decreases Left(w.a.threads[j])
  {
    QuitsOn(j, w.a.sh, w.a.threads[j]);
    r' := QuietTurn(r, w.a, w.woken, j, CLOSE);
    w' := World(Take(w.a, j, CLOSE), w.woken);
    if !Rests(w'.a.threads[j]) {
      r', w' := QuitsAlone(r', w', j);
    }
  }

  ghost predicate StillSleeps(w: World, w': World, i: nat) {
    Sleeps(w, i) && Sleeps(w', i) && w'.a.threads[i] == w.a.threads[i]
  }

  lemma StillCanRest(w: World, w': World, j: nat)
    requires CanRest(w) && j < |w.a.threads| && !Sleeps(w, j) && Only(w, w', j) && Rests(w'.a.threads[j])
    ensures CanRest(w') && forall i: nat :: Sleeps(w, i) ==> StillSleeps(w, w', i)
  {
    forall i | 0 <= i < |w'.a.threads| ensures MayRest(w', i) {
      assert MayRest(w, i);
    }
  }

  /** Those on their way out go first, and let go of the mutex. */
  lemma {:induction false} LetOut(r: seq<World>, w: World, m: nat) returns (r': seq<World>, w': World)
    requires EndsIn(r, w) && CanRest(w) && m <= |w.a.threads|
    ensures EndsIn(r', w') && r <= r' && CanRest(w') && SameFd(w.a.sh, w'.a.sh) && |w'.a.threads| == |w.a.threads|
    ensures (forall j :: 0 <= j < m ==> Rests(w'.a.threads[j])) && forall i: nat :: Sleeps(w, i) ==> StillSleeps(w, w', i)
  {
    if m == 0 {
      r', w' := r, w;
    } else {
      r', w' := LetOut(r, w, m - 1);
      assert MayRest(w', m - 1);
      if !Rests(w'.a.threads[m - 1]) {
        var w1 := w';
        assert w1.woken - {m - 1} == w1.woken;
        r', w' := QuitsAlone(r', w1, m - 1);
        StillCanRest(w1, w', m - 1);
      }
    }
  }

  ghost predicate Owned(a: State) {
    a.sh.mutex == Free || a.sh.mutex.id < |a.threads|
  }

  lemma {:induction false} RunOwned(r: seq<World>, k: nat)
    requires WorldRun(r) && k < |r|
    ensures Owned(r[k].a)
  {
    if k > 0 {
      RunOwned(r, k - 1);
      assert WorldStep(r, k - 1);
    }
  }

  lemma RestIsUnlocked(r: seq<World>, w: World)
    requires EndsIn(r, w) && forall j :: 0 <= j < |w.a.threads| ==> Rests(w.a.threads[j])
    ensures w.a.sh.mutex == Free
  {
    WorldRunInv(r, |r| - 1);
    RunOwned(r, |r| - 1);
  }

  ghost predicate RestUpTo(w: World, m: nat) {
    && (forall j :: 0 <= j < |w.a.threads| ==> Rests(w.a.threads[j]))
    && forall j :: 0 <= j < m && j < |w.a.threads| && Asleep(w.a.threads[j]) ==> j !in w.woken
  }

  lemma WokenRests(r: seq<World>, w: World, j: nat) returns (r': seq<World>, w': World)
    requires EndsIn(r, w) && CanRest(w) && RestUpTo(w, j)
    requires j < |w.a.threads| && j in w.woken && Asleep(w.a.threads[j])
    ensures EndsIn(r', w') && r <= r' && Only(w, w', j) && Rests(w'.a.threads[j])
  {
    RestIsUnlocked(r, w);
    assert MayRest(w, j);
    var w1 := World(Take(w.a, j, CLOSE), w.woken - {j});
    assert Step(w, w1, j, CLOSE);
    r' := OneStep(r, w, w1, j, CLOSE);
    r', w' := QuitsAlone(r', w1, j);
    assert w1.woken - {j} == w.woken - {j};
  }

  /** The woken take the mutex one after the other, and go out or back to sleep. */
  lemma {:induction false} LetWokenOut(r: seq<World>, w: World, m: nat) returns (r': seq<World>, w': World)
    requires EndsIn(r, w) && CanRest(w) && RestUpTo(w, 0) && m <= |w.a.threads|
    ensures EndsIn(r', w') && r <= r' && CanRest(w') && SameFd(w.a.sh, w'.a.sh) && |w'.a.threads| == |w.a.threads|
    ensures RestUpTo(w', m) && forall i: nat :: Sleeps(w, i) ==> StillSleeps(w, w', i)
  {
    if m == 0 {
      r', w' := r, w;
    } else {
      r', w' := LetWokenOut(r, w, m - 1);
      if Asleep(w'.a.threads[m - 1]) && m - 1 in w'.woken {
        var w1 := w';
        r', w' := WokenRests(r', w1, m - 1);
        StillCanRest(w1, w', m - 1);
      }
    }
  }

  /** From every state in which a thread sleeps and everybody else can come to rest without a signal, the
      descriptor can come to rest with that thread asleep. */
  lemma SleeperCanBeLeft(r: seq<World>, w: World, i: nat) returns (r': seq<World>, w': World)
    requires EndsIn(r, w) && CanRest(w) && Sleeps(w, i)
    ensures EndsIn(r', w') && r <= r' && Stuck(w') && SameFd(w.a.sh, w'.a.sh)
    ensures Sleeps(w', i) && (Overlooked(w, i) ==> Overlooked(w', i))
  {
    r', w' := LetOut(r, w, |w.a.threads|);
    assert StillSleeps(w, w', i);
    var w1 := w';
    r', w' := LetWokenOut(r', w1, |w1.a.threads|);
    assert StillSleeps(w1, w', i);
    assert !SomeInSection(w'.a);
  }

  lemma QuietIo(me: nat, s: Shared, t: Thread, c: Choice)
    requires t.pc == Idle && IoCall(c) && s.n.fd == 0 && OpenCorrect(s.mode, c.call.want)
    ensures Quiet(me, s, t, c, 8)
  {
    var x1 := Next(me, s, t, c);
    var x2 := Next(me, x1.0, x1.1, c);
    var x3 := Next(me, x2.0, x2.1, c);
    var x4 := Next(me, x3.0, x3.1, c);
    assert x4.1.pc == Wait(CheckFdWork) && x4.0.n.fd == 0;
    var x5 := Next(me, x4.0, x4.1, c);
    var x6 := Next(me, x5.0, x5.1, c);
    assert x6.1.pc == Wait(DropWantRead);
    assert Quiet(me, x6.0, x6.1, c, 2);
    assert Quiet(me, x5.0, x5.1, c, 3);
    assert Quiet(me, x4.0, x4.1, c, 4);
    assert Quiet(me, x3.0, x3.1, c, 5);
    assert Quiet(me, x2.0, x2.1, c, 6);
  }

  /** Fd work that finds I/O in progress goes to sleep. */
  lemma FdWorkSleeps(me: nat, s: Shared, t: Thread, c: Choice)
    requires t.pc == Idle && !c.startsIo && !c.call.reclaiming && s.mutex == Free && s.n.io != 0
    ensures Quiet(me, s, t, c, 6)
    ensures var x := Turns(me, s, t, c, 6); x.0 == AddFd(s, 1) && x.1.pc == Fd(StartAsleep)
  {
    var x1 := Next(me, s, t, c);
    var x2 := Next(me, x1.0, x1.1, c);
    var x3 := Next(me, x2.0, x2.1, c);
    assert x3.1.pc == Fd(StartWantRead) && x3.0 == AddFd(s, 1).(mutex := HeldBy(me));
    var x4 := Next(me, x3.0, x3.1, c);
    var x5 := Next(me, x4.0, x4.1, c);
    var x6 := Next(me, x5.0, x5.1, c);
    assert Turns(me, x4.0, x4.1, c, 2) == x6 && Quiet(me, x4.0, x4.1, c, 2);
    assert Turns(me, x2.0, x2.1, c, 4) == x6 && Quiet(me, x2.0, x2.1, c, 4);
  }

  /** A read that finds fd work wanted backs off and goes to sleep. */
  lemma ReadBacksOff(me: nat, s: Shared, t: Thread)
    requires t.pc == Idle && s.n.fd != 0 && s.n.io == 1 && s.mutex == Free
    ensures Quiet(me, s, t, READ_CALL, 8)
    ensures var x := Turns(me, s, t, READ_CALL, 8);
      x.0 == AddRead(s, 1) && x.1.pc == Wait(AwaitFdWorkAsleep)
  {
    var c := READ_CALL;
    var x1 := Next(me, s, t, c);
    var x2 := Next(me, x1.0, x1.1, c);
    var x3 := Next(me, x2.0, x2.1, c);
    var x4 := Next(me, x3.0, x3.1, c);
    assert x4.1.pc == Wait(CheckFdWork) && x4.0 == AddRead(AddIo(s, 1), 1);
    var x5 := Next(me, x4.0, x4.1, c);
    var x6 := Next(me, x5.0, x5.1, c);
    assert x6.1.pc == Dec(Relock, BackingOff) && x6.0 == AddRead(s, 1);
    var x7 := Next(me, x6.0, x6.1, c);
    var x8 := Next(me, x7.0, x7.1, c);
    assert Turns(me, x6.0, x6.1, c, 2) == x8 && Quiet(me, x6.0, x6.1, c, 2);
    assert Turns(me, x4.0, x4.1, c, 4) == x8 && Quiet(me, x4.0, x4.1, c, 4);
    assert Turns(me, x2.0, x2.1, c, 6) == x8 && Quiet(me, x2.0, x2.1, c, 6);
  }

  lemma LastIoAboutToSignal(me: nat, s: Shared, t: Thread, c: Choice)
    requires t.pc == DoingIo && s.n.io == 1 && s.mutex == Free
    ensures Quiet(me, s, t, c, 3)
    ensures var x := Turns(me, s, t, c, 3);
      x.0 == s.(mutex := HeldBy(me)) && x.1.pc == Dec(DecLocked, Completing)
  {
    var x1 := Next(me, s, t, c);
    var x2 := Next(me, x1.0, x1.1, c);
    var x3 := Next(me, x2.0, x2.1, c);
    assert Turns(me, x1.0, x1.1, c, 2) == x3 && Quiet(me, x1.0, x1.1, c, 2);
  }

  /** Thread 0 reads; thread 1 wants to close and sleeps until the read is over; thread 2 wants to
      read, backs off and sleeps until the close is over. */
  lemma TwoSleep() returns (r: seq<World>, w: World)
    ensures EndsIn(r, w) && |w.a.threads| == 3 && w.woken == {}
    ensures w.a.sh == Shared(Counts(1, 1, 1, 0, 0), {READ}, Free)
    ensures w.a.threads[0].pc == DoingIo && w.a.threads[1].pc == Fd(StartAsleep)
    ensures w.a.threads[2].pc == Wait(AwaitFdWorkAsleep)
  {
    var idle := Thread(Idle, READ_CALL.call, Locals(false, false, false, false, false, {}));
    w := World(State(Shared(Counts(0, 0, 0, 0, 0), {READ}, Free), [idle, idle, idle]), {});
    r := [w];
    assert Begins(w);
    QuietIo(0, w.a.sh, w.a.threads[0], READ_CALL);
    IoGoesThrough(0, w.a.sh, w.a.threads[0], READ_CALL);
    r := QuietTurns(r, w, 0, READ_CALL, 8);
    w := r[|r| - 1];
    FdWorkSleeps(1, w.a.sh, w.a.threads[1], CLOSE);
    r := QuietTurns(r, w, 1, CLOSE, 6);
    w := r[|r| - 1];
    ReadBacksOff(2, w.a.sh, w.a.threads[2]);
    r := QuietTurns(r, w, 2, READ_CALL, 8);
    w := r[|r| - 1];
  }

  /** The read ends and its signal goes to the reader instead of the closer: the reader finds fd_work
      raised and sleeps again, and the closer, whose condition now holds, is never woken. */
  lemma SignalLost() returns (r: seq<World>)
    ensures WorldRun(r) && Stuck(r[|r| - 1]) && r[|r| - 1].a.sh.n.refused == 0
    ensures Overlooked(r[|r| - 1], 1) && r[|r| - 1].a.sh.n.io == 0
  {
    var w;
    r, w := TwoSleep();
    LastIoAboutToSignal(0, w.a.sh, w.a.threads[0], READ_CALL);
    r := QuietTurns(r, w, 0, READ_CALL, 3);
    w := r[|r| - 1];
    assert Sleeps(w, 2);
    var signalled := World(Take(w.a, 0, READ_CALL), {2});
    assert signalled.woken == (w.woken - {0}) + {2};
    r := OneStep(r, w, signalled, 0, READ_CALL);
    assert Overlooked(signalled, 1) && Fruitless(signalled.a.sh, signalled.a.threads[2]);
    r, w := SleeperCanBeLeft(r, signalled, 1);
  }

  // ----- a reader that fails keeps the signal to itself --------------------------------------------

  /** Fd work has been asked for, and has not begun. */
  lemma FdWorkAsked(me: nat, s: Shared, t: Thread)
    requires t.pc == Idle
    ensures Quiet(me, s, t, CLOSE, 2)
    ensures var x := Turns(me, s, t, CLOSE, 2); x.0 == AddFd(s, 1) && x.1 == Thread(Fd(StartLock), CLOSE.call, t.l)
  {
    var x1 := Next(me, s, t, CLOSE);
    var x2 := Next(me, x1.0, x1.1, CLOSE);
    assert Turns(me, x1.0, x1.1, CLOSE, 1) == x2;
  }

  /** A read finds fd work asked for. */
  lemma ReadClaims(me: nat, s: Shared, t: Thread)
    requires t.pc == Idle && s.n.fd != 0
    ensures Quiet(me, s, t, READ_CALL, 5)
    ensures var x := Turns(me, s, t, READ_CALL, 5);
      x.0 == AddRead(AddIo(s, 1), 1) && x.1.pc == Dec(TryDec, BackingOff) && x.1.call == READ_CALL.call
  {
    var c := READ_CALL;
    var x1 := Next(me, s, t, c);
    var x2 := Next(me, x1.0, x1.1, c);
    var x3 := Next(me, x2.0, x2.1, c);
    var x4 := Next(me, x3.0, x3.1, c);
    var x5 := Next(me, x4.0, x4.1, c);
    assert x3.1.pc == Wait(WantWrite) && x3.0 == AddRead(AddIo(s, 1), 1);
    assert Turns(me, x3.0, x3.1, c, 2) == x5 && Quiet(me, x3.0, x3.1, c, 2);
    assert Turns(me, x1.0, x1.1, c, 4) == x5 && Quiet(me, x1.0, x1.1, c, 4);
  }

  /** Not the last in I/O, it takes its claim back and has yet to take the mutex. */
  lemma ReadStepsBack(me: nat, s: Shared, t: Thread)
    requires t.pc == Dec(TryDec, BackingOff) && s.n.io == 2
    ensures Quiet(me, s, t, READ_CALL, 1)
    ensures var x := Turns(me, s, t, READ_CALL, 1); x.0 == AddIo(s, -1) && x.1 == Goto(t, Dec(Relock, BackingOff))
  {
    var x1 := Next(me, s, t, READ_CALL);
    assert Turns(me, x1.0, x1.1, READ_CALL, 0) == x1;
  }

  lemma LastReadAboutToSignal(me: nat, s: Shared, t: Thread)
    requires t.pc == Dec(TryDec, BackingOff) && s.n.io == 1 && s.mutex == Free
    ensures Quiet(me, s, t, READ_CALL, 2)
    ensures var x := Turns(me, s, t, READ_CALL, 2);
      x.0 == s.(mutex := HeldBy(me)) && x.1 == Goto(t, Dec(DecLocked, BackingOff))
  {
    var x1 := Next(me, s, t, READ_CALL);
    var x2 := Next(me, x1.0, x1.1, READ_CALL);
    assert Turns(me, x1.0, x1.1, READ_CALL, 1) == x2;
  }

  lemma ReadSleeps(me: nat, s: Shared, t: Thread, n: nat)
    requires s.n.fd != 0
    requires (n == 1 && t.pc == Wait(AwaitFdWork)) || (n == 2 && t.pc == Dec(Relock, BackingOff) && s.mutex == Free)
    ensures Quiet(me, s, t, READ_CALL, n)
    ensures var x := Turns(me, s, t, READ_CALL, n); x.0 == Unlock(s) && x.1 == Goto(t, Wait(AwaitFdWorkAsleep))
  {
    var x1 := Next(me, s, t, READ_CALL);
    var x2 := Next(me, x1.0, x1.1, READ_CALL);
    assert Turns(me, x1.0, x1.1, READ_CALL, 0) == x1;
    assert Turns(me, x1.0, x1.1, READ_CALL, 1) == x2;
  }

  /** The close, up to where it signals. */
  lemma CloseAboutToSignal(me: nat, s: Shared, t: Thread)
    requires t.pc == Fd(StartLock) && t.call == CLOSE.call && s.mutex == Free && s.n.io == 0
    ensures Quiet(me, s, t, CLOSE, 5)
    ensures var x := Turns(me, s, t, CLOSE, 5);
      x.0 == s.(mutex := HeldBy(me), mode := O_CLOSED) && x.1 == Goto(t, Fd(EndFdWork))
  {
    var c := CLOSE;
    var x1 := Next(me, s, t, c);
    var x2 := Next(me, x1.0, x1.1, c);
    var x3 := Next(me, x2.0, x2.1, c);
    var x4 := Next(me, x3.0, x3.1, c);
    var x5 := Next(me, x4.0, x4.1, c);
    assert x3.1.pc == Fd(StartLull) && x3.0 == s.(mutex := HeldBy(me));
    assert Turns(me, x3.0, x3.1, c, 2) == x5 && Quiet(me, x3.0, x3.1, c, 2);
    assert Turns(me, x1.0, x1.1, c, 4) == x5 && Quiet(me, x1.0, x1.1, c, 4);
  }

  /** Thread 0 wants to close; threads 1 and 2 have claimed I/O and found that out. */
  lemma TwoReadersClaim() returns (r: seq<World>, w: World)
    ensures EndsIn(r, w) && |w.a.threads| == 3 && w.woken == {}
    ensures w.a.sh == Shared(Counts(1, 1, 2, 0, 0), {READ}, Free)
    ensures w.a.threads[0].pc == Fd(StartLock) && w.a.threads[0].call == CLOSE.call
    ensures w.a.threads[1].pc == Dec(TryDec, BackingOff) && w.a.threads[1].call == READ_CALL.call
    ensures w.a.threads[2].pc == Dec(Relock, BackingOff)
  {
    var idle := Thread(Idle, READ_CALL.call, Locals(false, false, false, false, false, {}));
    w := World(State(Shared(Counts(0, 0, 0, 0, 0), {READ}, Free), [idle, idle, idle]), {});
    r := [w];
    assert Begins(w);
    FdWorkAsked(0, w.a.sh, w.a.threads[0]);
    r := QuietTurns(r, w, 0, CLOSE, 2);
    w := r[|r| - 1];
    ReadClaims(1, w.a.sh, w.a.threads[1]);
    r := QuietTurns(r, w, 1, READ_CALL, 5);
    w := r[|r| - 1];
    ReadClaims(2, w.a.sh, w.a.threads[2]);
    r := QuietTurns(r, w, 2, READ_CALL, 5);
    w := r[|r| - 1];
    ReadStepsBack(2, w.a.sh, w.a.threads[2]);
    r := QuietTurns(r, w, 2, READ_CALL, 1);
    w := r[|r| - 1];
  }

  /** Both readers sleep until the close is over; the signal of the last to back off found nobody asleep. */
  lemma TwoReadersSleep() returns (r: seq<World>, w: World)
    ensures EndsIn(r, w) && |w.a.threads| == 3 && w.woken == {}
    ensures w.a.sh == Shared(Counts(0, 1, 2, 0, 0), {READ}, Free)
    ensures w.a.threads[0].pc == Fd(StartLock) && w.a.threads[0].call == CLOSE.call
    ensures w.a.threads[1].pc == Wait(AwaitFdWorkAsleep) && w.a.threads[1].call == READ_CALL.call
    ensures w.a.threads[2].pc == Wait(AwaitFdWorkAsleep)
  {
    r, w := TwoReadersClaim();
    LastReadAboutToSignal(1, w.a.sh, w.a.threads[1]);
    r := QuietTurns(r, w, 1, READ_CALL, 2);
    w := r[|r| - 1];
    var signalled := World(Take(w.a, 1, READ_CALL), {});
    assert !SomeSleeps(w) && w.woken - {1} == {};
    r := OneStep(r, w, signalled, 1, READ_CALL);
    ReadSleeps(1, signalled.a.sh, signalled.a.threads[1], 1);
    r := QuietTurns(r, signalled, 1, READ_CALL, 1);
    w := r[|r| - 1];
    ReadSleeps(2, w.a.sh, w.a.threads[2], 2);
    r := QuietTurns(r, w, 2, READ_CALL, 2);
    w := r[|r| - 1];
  }

  /** The close ends and signals one of the readers. */
  lemma CloseSignalsOne() returns (r: seq<World>, w: World)
    ensures EndsIn(r, w) && |w.a.threads| == 3 && w.woken == {1}
    ensures w.a.sh == Shared(Counts(0, 0, 2, 0, 0), O_CLOSED, HeldBy(0)) && w.a.threads[0].pc == Fd(EndUnlock)
    ensures w.a.threads[1].pc == Wait(AwaitFdWorkAsleep) && w.a.threads[1].call == READ_CALL.call
    ensures w.a.threads[2].pc == Wait(AwaitFdWorkAsleep)
  {
    r, w := TwoReadersSleep();
    CloseAboutToSignal(0, w.a.sh, w.a.threads[0]);
    r := QuietTurns(r, w, 0, CLOSE, 5);
    var before := r[|r| - 1];
    assert Sleeps(before, 1);
    w := World(Take(before.a, 0, CLOSE), {1});
    assert w.woken == (before.woken - {0}) + {1};
    r := OneStep(r, before, w, 0, CLOSE);
  }

  /** It finds the descriptor closed, fails and returns without a signal; the other reader waits for fd
      work that is long over. */
  lemma FailedReaderKeepsSignal() returns (r: seq<World>)
    ensures WorldRun(r) && Stuck(r[|r| - 1]) && r[|r| - 1].a.sh.n.refused == 0
    ensures Overlooked(r[|r| - 1], 2) && r[|r| - 1].a.sh.n.fd == 0
  {
    var w;
    r, w := CloseSignalsOne();
    assert Overlooked(w, 2);
    assert READ in READ_CALL.call.want * O_RDWR;
    assert Fruitless(w.a.sh, w.a.threads[1]);
    r, w := SleeperCanBeLeft(r, w, 2);
  }
}
