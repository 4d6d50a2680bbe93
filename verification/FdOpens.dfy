/** When a request can come to do I/O: the descriptor serves it, or it may open or re-open it. */
module FdOpens {
  import opened Bits
  import opened FdReclaim
  import opened FdRuns
  import opened FdWork
  import opened Tally

  /** The request makes its call, finds a free descriptor if it has to open, and the open succeeds. */
  function Opening(call: Call): Choice {
    Choice(call, true, true, O_RDWR)
  }

  /** A call of wait_to_start_io that a caller may make. */
  predicate Callable(call: Call) {
    call.want == O_ANY ==> !call.mayOpen && !call.mayReopen
  }

  /** The descriptor serves the request, or the request may make it do so. */
  predicate Servable(mode: Mask, call: Call) {
    OpenCorrect(mode, call.want) || (call.mayOpen && mode == {}) || call.mayReopen
  }

  /** A descriptor serves a request that asks for any mode iff it is open, and another iff it is open for
      reading if the request wants to read, and for writing if it wants to write. */
  lemma ServesIff(mode: Mask, want: Mask)
    ensures OpenCorrect(mode, want) <==>
      if want == O_ANY then mode != {} else (READ in want ==> READ in mode) && (WRITE in want ==> WRITE in mode)
  {
    assert (READ in want ==> READ in want * O_RDWR) && (WRITE in want ==> WRITE in want * O_RDWR);
    if want != O_ANY && (READ in want ==> READ in mode) && (WRITE in want ==> WRITE in mode) {
      assert mode * want * O_RDWR == want * O_RDWR;
    }
  }

  lemma {:induction false} TurnsSum(me: nat, s: Shared, t: Thread, c: Choice, n: nat, k: nat)
    ensures var x := Turns(me, s, t, c, n); Turns(me, s, t, c, n + k) == Turns(me, x.0, x.1, c, k)
    decreases n
  {
    if n != 0 {
      var x := Next(me, s, t, c);
      TurnsSum(me, x.0, x.1, c, n - 1, k);
    }
  }

  // ----- one request, alone --------------------------------------------------------------------------

  /** From the call to where it has decided to open. */
  lemma DecidesToOpen(me: nat, s: Shared, t: Thread, call: Call)
    requires t.pc == Idle && Callable(call) && s.n.fd == 0 && s.n.io == 0 && s.mutex == Free
    requires !OpenCorrect(s.mode, call.want) && Servable(s.mode, call)
    ensures var x := Turns(me, s, t, Opening(call), 6);
      && x.0.mode == s.mode && x.0.n.fd == 0 && x.0.n.io == 1 && x.0.mutex == Free
      && x.1.pc == Wait(RaiseFdWork) && x.1.call == call
  {
    var c := Opening(call);
    var x1 := Next(me, s, t, c);
    var x2 := Next(me, x1.0, x1.1, c);
    var x3 := Next(me, x2.0, x2.1, c);
    assert x3.1.pc == Wait(WantWrite) && x3.1.call == call && !x3.1.l.retried;
    var x4 := Next(me, x3.0, x3.1, c);
    var x5 := Next(me, x4.0, x4.1, c);
    var x6 := Next(me, x5.0, x5.1, c);
    assert x5.1.pc == Wait(CheckMode) && x5.0.mode == s.mode;
    assert Turns(me, x4.0, x4.1, c, 2) == x6;
    assert Turns(me, x2.0, x2.1, c, 4) == x6;
  }

  /** Nobody else is in I/O: it goes straight to the open. */
  lemma StepsBackAlone(me: nat, s: Shared, t: Thread, call: Call)
    requires t.pc == Wait(RaiseFdWork) && t.call == call && s.n.fd == 0 && s.n.io == 1 && s.mutex == Free
    ensures var x := Turns(me, s, t, Opening(call), 4);
      && x.0.mode == s.mode && x.0.n.fd == 1 && x.0.n.io == 0 && x.0.mutex == HeldBy(me)
      && x.1.pc == Reopen(AwaitLull) && x.1.call == call && !x.1.l.inLoop
  {
    var c := Opening(call);
    var x1 := Next(me, s, t, c);
    var x2 := Next(me, x1.0, x1.1, c);
    var x3 := Next(me, x2.0, x2.1, c);
    var x4 := Next(me, x3.0, x3.1, c);
    assert Turns(me, x2.0, x2.1, c, 2) == x4;
  }

  /** The open: after it the descriptor serves the request. */
  lemma Opens(me: nat, s: Shared, t: Thread, call: Call)
    requires t.pc == Reopen(AwaitLull) && t.call == call && s.n.fd == 1 && s.n.io == 0 && call.want != O_ANY
    requires READ in call.want || WRITE in call.want
    ensures var x := Turns(me, s, t, Opening(call), 7);
      && OpenCorrect(x.0.mode, call.want) && x.0.n.fd == 0 && x.0.n.io == 0 && x.1.call == call
      && (if t.l.inLoop then x.1.pc == Wait(ReclaimIo) && x.0.mutex == s.mutex
          else x.1.pc == Wait(ClaimIo) && x.0.mutex == Free)
  {
    var c := Opening(call);
    var x1 := Next(me, s, t, c);
    var x2 := Next(me, x1.0, x1.1, c);
    var x3 := Next(me, x2.0, x2.1, c);
    var x4 := Next(me, x3.0, x3.1, c);
    assert x4.1.pc == Reopen(OpenFd) && x4.0 == s && x4.1.call == call && call.want <= x4.1.l.flags;
    assert READ in x4.1.l.flags || WRITE in x4.1.l.flags;
    FlagsServe(x4.1.l.flags, call.want, s.mode);
    var x5 := Next(me, x4.0, x4.1, c);
    assert x5.1.pc == Reopen(LowerFdWork) && x5.1.l.ok && OpenCorrect(x5.0.mode, call.want);
    var x6 := Next(me, x5.0, x5.1, c);
    var x7 := Next(me, x6.0, x6.1, c);
    assert Turns(me, x5.0, x5.1, c, 2) == x7;
    assert Turns(me, x3.0, x3.1, c, 4) == x7;
    assert Turns(me, x1.0, x1.1, c, 6) == x7;
  }

  lemma FlagsServe(flags: Mask, want: Mask, mode: Mask)
    requires want <= flags && want != O_ANY && (READ in flags || WRITE in flags)
    ensures OpenCorrect(O_RDWR, flags)
    ensures OpenCorrect(mode, flags) ==> OpenCorrect(mode, want)
  {
    assert READ in O_RDWR && WRITE in O_RDWR;
    assert flags != O_ANY;
    if OpenCorrect(mode, flags) {
      forall b | b in want * O_RDWR ensures b in mode * want * O_RDWR {
        assert b in flags * O_RDWR;
      }
      assert mode * want * O_RDWR == want * O_RDWR;
    }
    assert O_RDWR * flags * O_RDWR == flags * O_RDWR;
  }

  /** From a claim of I/O, with a mode that serves, to the I/O. */
  lemma Starts(me: nat, s: Shared, t: Thread, call: Call)
    requires t.pc == Wait(ClaimIo) && t.call == call && s.n.fd == 0 && OpenCorrect(s.mode, call.want)
    ensures Turns(me, s, t, Opening(call), 7).1.pc == DoingIo
  {
    var c := Opening(call);
    var x1 := Next(me, s, t, c);
    var x2 := Next(me, x1.0, x1.1, c);
    var x3 := Next(me, x2.0, x2.1, c);
    assert x3.1.pc == Wait(CheckFdWork) && x3.0.n.fd == 0 && x3.0.mode == s.mode && x3.1.call == call;
    var x4 := Next(me, x3.0, x3.1, c);
    var x5 := Next(me, x4.0, x4.1, c);
    assert x5.1.pc == Wait(DropWantRead) && x5.1.l.ok;
    var x6 := Next(me, x5.0, x5.1, c);
    var x7 := Next(me, x6.0, x6.1, c);
    assert Turns(me, x5.0, x5.1, c, 2) == x7;
    assert Turns(me, x3.0, x3.1, c, 4) == x7;
    assert Turns(me, x1.0, x1.1, c, 6) == x7;
  }

  /** If the mode does not serve, something is wanted. */
  lemma WantsSomething(mode: Mask, call: Call)
    requires Callable(call) && !OpenCorrect(mode, call.want) && Servable(mode, call)
    ensures call.want != O_ANY && (READ in call.want || WRITE in call.want)
  {
    assert READ !in call.want && WRITE !in call.want ==> call.want * O_RDWR == {};
  }

  /** A request that finds the descriptor idle and can be served does I/O. */
  lemma ServedAlone(me: nat, s: Shared, t: Thread, call: Call) returns (n: nat)
    requires t.pc == Idle && Callable(call) && s.n.fd == 0 && s.n.io == 0 && s.mutex == Free && Servable(s.mode, call)
    ensures Turns(me, s, t, Opening(call), n).1.pc == DoingIo
  {
    var c := Opening(call);
    if OpenCorrect(s.mode, call.want) {
      n := 8;
      IoGoesThrough(me, s, t, c);
    } else {
      WantsSomething(s.mode, call);
      DecidesToOpen(me, s, t, call);
      var a := Turns(me, s, t, c, 6);
      StepsBackAlone(me, a.0, a.1, call);
      TurnsSum(me, s, t, c, 6, 4);
      var b := Turns(me, s, t, c, 10);
      Opens(me, b.0, b.1, call);
      TurnsSum(me, s, t, c, 10, 7);
      var d := Turns(me, s, t, c, 17);
      Starts(me, d.0, d.1, call);
      TurnsSum(me, s, t, c, 17, 7);
      n := 24;
    }
  }

  /** A request that backed off, and whose wait is over, opens under the mutex if it has to. */
  lemma ServedAfterWait(me: nat, s: Shared, t: Thread, call: Call) returns (n: nat)
    requires t.pc == Wait(AwaitFdWork) && t.call == call && Callable(call)
    requires s.n.fd == 0 && s.n.io == 0 && s.mutex == HeldBy(me) && Servable(s.mode, call)
    ensures Turns(me, s, t, Opening(call), n).1.pc == DoingIo
  {
    var c := Opening(call);
    var x1 := Next(me, s, t, c);
    var x2 := Next(me, x1.0, x1.1, c);
    assert Turns(me, x1.0, x1.1, c, 1) == x2;
    if OpenCorrect(s.mode, call.want) {
      StartsLocked(me, x2.0, x2.1, call);
      TurnsSum(me, s, t, c, 2, 6);
      n := 8;
    } else {
      WantsSomething(s.mode, call);
      var x3 := Next(me, x2.0, x2.1, c);
      assert Turns(me, x1.0, x1.1, c, 2) == x3;
      Opens(me, x3.0, x3.1, call);
      TurnsSum(me, s, t, c, 3, 7);
      var y := Turns(me, s, t, c, 10);
      StartsLocked(me, y.0, y.1, call);
      TurnsSum(me, s, t, c, 10, 6);
      n := 16;
    }
  }

  lemma StartsLocked(me: nat, s: Shared, t: Thread, call: Call)
    requires t.pc == Wait(ReclaimIo) && t.call == call && s.n.fd == 0 && OpenCorrect(s.mode, call.want)
    ensures Turns(me, s, t, Opening(call), 6).1.pc == DoingIo
  {
    var c := Opening(call);
    var x1 := Next(me, s, t, c);
    var x2 := Next(me, x1.0, x1.1, c);
    var x3 := Next(me, x2.0, x2.1, c);
    var x4 := Next(me, x3.0, x3.1, c);
    assert x4.1.pc == Wait(DropWantRead) && x4.1.l.ok;
    var x5 := Next(me, x4.0, x4.1, c);
    var x6 := Next(me, x5.0, x5.1, c);
    assert Turns(me, x4.0, x4.1, c, 2) == x6;
    assert Turns(me, x2.0, x2.1, c, 4) == x6;
  }

  // ----- continuations in which one thread makes one call ------------------------------------------------

  /** One step, in which nobody but thread `me` makes a call, and it makes this one. */
  ghost predicate StepsFor(a: State, b: State, me: nat, call: Call) {
    exists i: nat, c: Choice ::
      && i < |a.threads| && b == Take(a, i, c)
      && (a.threads[i].pc == Idle ==> i == me && c.startsIo && c.call == call)
  }

  ghost predicate StepForAt(r: seq<State>, k: nat, me: nat, call: Call) {
    0 < k + 1 < |r| && StepsFor(r[k], r[k + 1], me, call)
  }

  /** A continuation of run `r` in which others only finish what they are at. */
  ghost predicate Calls(r: seq<State>, r': seq<State>, me: nat, call: Call) {
    && Run(r) && Run(r') && r <= r'
    && forall k: nat :: |r| - 1 <= k < |r'| - 1 ==> StepForAt(r', k, me, call)
  }

  lemma CallsMore(r: seq<State>, r1: seq<State>, me: nat, call: Call, i: nat, c: Choice) returns (r2: seq<State>)
    requires Calls(r, r1, me, call) && i < |r1[|r1| - 1].threads|
    requires r1[|r1| - 1].threads[i].pc == Idle ==> i == me && c.startsIo && c.call == call
    ensures Calls(r, r2, me, call) && r2 == r1 + [Take(r1[|r1| - 1], i, c)]
  {
    var a := r1[|r1| - 1];
    r2 := r1 + [Take(a, i, c)];
    assert StepsFor(a, Take(a, i, c), me, call) && Steps(a, Take(a, i, c));
    forall k | 0 <= k < |r2| - 1 ensures StepAt(r2, k) {
      assert k < |r1| - 1 ==> StepAt(r1, k);
    }
    forall k: nat | |r| - 1 <= k < |r2| - 1 ensures StepForAt(r2, k, me, call) {
      assert k < |r1| - 1 ==> StepForAt(r1, k, me, call);
    }
  }

  /** A continuation that ends in `a`. */
  ghost predicate CallsTo(r: seq<State>, r': seq<State>, me: nat, call: Call, a: State) {
    Calls(r, r', me, call) && |r'| > 0 && r'[|r'| - 1] == a
  }

  lemma CallsStep(r: seq<State>, r1: seq<State>, me: nat, call: Call, a: State, i: nat, c: Choice)
    returns (r2: seq<State>)
    requires CallsTo(r, r1, me, call, a) && i < |a.threads|
    requires a.threads[i].pc == Idle ==> i == me && c.startsIo && c.call == call
    ensures CallsTo(r, r2, me, call, Take(a, i, c))
  {
    r2 := CallsMore(r, r1, me, call, i, c);
  }

  /** The request runs on alone. */
  lemma {:induction false} CallsAlone(r: seq<State>, r1: seq<State>, me: nat, a: State, c: Choice, n: nat)
    returns (r2: seq<State>)
    requires CallsTo(r, r1, me, c.call, a) && me < |a.threads| && c.startsIo
    ensures CallsTo(r, r2, me, c.call, Alone(a, me, c, n))
  {
    if n == 0 {
      r2 := r1;
    } else {
      r2 := CallsAlone(r, r1, me, a, c, n - 1);
      r2 := CallsStep(r, r2, me, c.call, Alone(a, me, c, n - 1), me, c);
    }
  }

  // ----- others finish their I/O --------------------------------------------------------------------------

  ghost predicate Owned(a: State) {
    a.sh.mutex == Free || a.sh.mutex.id < |a.threads|
  }

  lemma {:induction false} RunOwned(r: seq<State>, k: nat)
    requires Run(r) && k < |r|
    ensures Owned(r[k])
  {
    if k > 0 {
      RunOwned(r, k - 1);
      assert StepAt(r, k - 1);
    }
  }

  lemma RestIsFree(r: seq<State>, k: nat)
    requires Run(r) && k < |r| && AtRest(r[k])
    ensures r[k].sh.mutex == Free
  {
    RunInv(r, k);
    RunOwned(r, k);
  }

  /** The thread is in a call in each of the next `n` turns. */
  predicate InCall(i: nat, s: Shared, t: Thread, c: Choice, n: nat)
    decreases n
  {
    n == 0 || (t.pc != Idle && var x := Next(i, s, t, c); InCall(i, x.0, x.1, c, n - 1))
  }

  lemma {:induction false} InCallAt(i: nat, s: Shared, t: Thread, c: Choice, n: nat, k: nat)
    requires InCall(i, s, t, c, n) && k < n
    ensures Turns(i, s, t, c, k).1.pc != Idle
    decreases n
  {
    if k != 0 {
      var x := Next(i, s, t, c);
      InCallAt(i, x.0, x.1, c, n - 1, k - 1);
    }
  }

  lemma InCallAlone(a: State, i: nat, c: Choice, n: nat, k: nat)
    requires i < |a.threads| && InCall(i, a.sh, a.threads[i], c, n) && k < n
    ensures Alone(a, i, c, k).threads[i].pc != Idle
  {
    AloneIs(a, i, c, k);
    InCallAt(i, a.sh, a.threads[i], c, n, k);
  }

  lemma {:induction false} CallsOther(r: seq<State>, r1: seq<State>, me: nat, call: Call, a: State, i: nat, c: Choice,
                                      n: nat, k: nat)
    returns (r2: seq<State>)
    requires CallsTo(r, r1, me, call, a) && i < |a.threads| && k <= n && InCall(i, a.sh, a.threads[i], c, n)
    ensures CallsTo(r, r2, me, call, Alone(a, i, c, k))
    decreases k
  {
    if k == 0 {
      r2 := r1;
    } else {
      r2 := CallsOther(r, r1, me, call, a, i, c, n, k - 1);
      InCallAlone(a, i, c, n, k - 1);
      r2 := CallsStep(r, r2, me, call, Alone(a, i, c, k - 1), i, c);
    }
  }

  lemma FinishesIo(i: nat, s: Shared, t: Thread, c: Choice)
    requires t.pc == DoingIo && s.n.io >= 1 && s.mutex == Free
    ensures var n := if s.n.io == 1 then 5 else 2;
      InCall(i, s, t, c, n) && var x := Turns(i, s, t, c, n); x.0 == AddIo(s, -1) && x.1.pc == Idle
  {
    var x1 := Next(i, s, t, c);
    var x2 := Next(i, x1.0, x1.1, c);
    assert Turns(i, x1.0, x1.1, c, 1) == x2;
    if s.n.io == 1 {
      CompleteAlone(i, s, t, c);
      var x3 := Next(i, x2.0, x2.1, c);
      var x4 := Next(i, x3.0, x3.1, c);
      assert InCall(i, x3.0, x3.1, c, 2);
      assert InCall(i, x1.0, x1.1, c, 4);
    }
  }

  /** One after the other, those below `m` finish. */
  lemma {:induction false} OthersFinish(r: seq<State>, me: nat, call: Call, m: nat) returns (r1: seq<State>)
    requires Run(r) && AtRest(r[|r| - 1]) && m <= |r[|r| - 1].threads|
    ensures Calls(r, r1, me, call)
    ensures var a, b := r[|r| - 1], r1[|r1| - 1];
      && AtRest(b) && |b.threads| == |a.threads| && b.sh.mode == a.sh.mode && b.sh.n.refused == a.sh.n.refused
      && (forall i :: 0 <= i < m ==> b.threads[i].pc == Idle)
  {
    if m == 0 {
      r1 := r;
    } else {
      r1 := OthersFinish(r, me, call, m - 1);
      if r1[|r1| - 1].threads[m - 1].pc == DoingIo {
        r1 := OneFinishes(r, r1, me, call, m - 1);
      }
    }
  }

  lemma OneFinishes(r: seq<State>, r1: seq<State>, me: nat, call: Call, i: nat) returns (r2: seq<State>)
    requires Calls(r, r1, me, call) && AtRest(r1[|r1| - 1])
    requires i < |r1[|r1| - 1].threads| && r1[|r1| - 1].threads[i].pc == DoingIo
    ensures Calls(r, r2, me, call)
    ensures var a, b := r1[|r1| - 1], r2[|r2| - 1];
      && AtRest(b) && b.sh == AddIo(a.sh, -1) && |b.threads| == |a.threads|
      && b.threads[i].pc == Idle && forall j :: 0 <= j < |a.threads| && j != i ==> b.threads[j] == a.threads[j]
  {
    var a, c := r1[|r1| - 1], Opening(call);
    RestIsFree(r1, |r1| - 1);
    IoCounted(r1, i);
    FinishesIo(i, a.sh, a.threads[i], c);
    var n := if a.sh.n.io == 1 then 5 else 2;
    r2 := CallsOther(r, r1, me, call, a, i, c, n, n);
    AloneIs(a, i, c, n);
  }

  lemma IoCounted(r: seq<State>, i: nat)
    requires Run(r) && i < |r[|r| - 1].threads| && r[|r| - 1].threads[i].pc == DoingIo
    ensures r[|r| - 1].sh.n.io >= 1
  {
    var a := r[|r| - 1];
    RunInv(r, |r| - 1);
    forall j | 0 <= j < |a.threads| ensures IoPart(a.threads[j]) >= 0 {
      SectionFacts(a.threads[j]);
    }
    SumAtLeast(a.threads, i, IoPart);
  }

  // ----- a request that cannot be served ---------------------------------------------------------------

  /** Outside the calls, or finishing I/O. */
  predicate Finishing(t: Thread) {
    t.pc == Idle || t.pc == DoingIo || (t.pc.Dec? && t.pc.site == Completing && !t.pc.d.Relock?)
  }

  /** In the call, on the way to giving up. */
  predicate Hopeless(t: Thread, call: Call) {
    t.call == call &&
    match t.pc
    case Wait(w) =>
      || w.ClaimIo? || w.WantRead? || w.WantWrite? || w.CheckFdWork? || w.CheckMode?
      || ((w.DropWantRead? || w.DropWantWrite?) && !t.l.ok)
    case Dec(d, site) => site == GivingUp && !d.Relock?
    case _ => false
  }

  ghost predicate NoHope(a: State, me: nat, call: Call, mode: Mask) {
    && a.sh.mode == mode && a.sh.n.fd == 0 && me < |a.threads|
    && (a.threads[me].pc == Idle || Hopeless(a.threads[me], call))
    && forall i :: 0 <= i < |a.threads| && i != me ==> Finishing(a.threads[i])
  }

  lemma HopelessOn(me: nat, s: Shared, t: Thread, c: Choice, call: Call)
    requires s.n.fd == 0 && !Servable(s.mode, call)
    requires Hopeless(t, call) || (t.pc == Idle && c.startsIo && c.call == call)
    ensures var n := Next(me, s, t, c); n.0.mode == s.mode && n.0.n.fd == 0 && (n.1.pc == Idle || Hopeless(n.1, call))
  {}

  lemma FinishingOn(i: nat, s: Shared, t: Thread, c: Choice)
    requires Finishing(t) && t.pc != Idle
    ensures var n := Next(i, s, t, c); n.0.mode == s.mode && n.0.n.fd == s.n.fd && Finishing(n.1)
  {}

  lemma NoHopeOn(a: State, b: State, me: nat, call: Call, mode: Mask)
    requires NoHope(a, me, call, mode) && !Servable(mode, call) && StepsFor(a, b, me, call)
    ensures NoHope(b, me, call, mode)
  {
    var i: nat, c: Choice :|
      && i < |a.threads| && b == Take(a, i, c)
      && (a.threads[i].pc == Idle ==> i == me && c.startsIo && c.call == call);
    if i == me {
      HopelessOn(me, a.sh, a.threads[me], c, call);
    } else {
      FinishingOn(i, a.sh, a.threads[i], c);
    }
  }

  lemma {:induction false} NoHopeEver(r: seq<State>, r': seq<State>, me: nat, call: Call, mode: Mask, k: nat)
    requires Calls(r, r', me, call) && |r| - 1 <= k < |r'| && !Servable(mode, call) && NoHope(r[|r| - 1], me, call, mode)
    ensures NoHope(r'[k], me, call, mode)
    decreases k
  {
    if k == |r| - 1 {
      assert r'[k] == r[k];
    } else {
      NoHopeEver(r, r', me, call, mode, k - 1);
      assert StepForAt(r', k - 1, me, call);
      NoHopeOn(r'[k - 1], r'[k], me, call, mode);
    }
  }

  /** From every reachable state of rest, a request can come to do I/O, with the others only finishing
      theirs, iff no reclaim was ever refused and the descriptor serves it, or it may open and the
      descriptor is closed, or it may re-open. */
  lemma IoStartsIff(r: seq<State>, me: nat, call: Call)
    requires Run(r) && AtRest(r[|r| - 1]) && me < |r[|r| - 1].threads|
    requires r[|r| - 1].threads[me].pc == Idle && Callable(call)
    ensures (exists r' :: Calls(r, r', me, call) && DoesIo(r', me)) <==>
      var s := r[|r| - 1].sh;
      s.n.refused == 0 && (OpenCorrect(s.mode, call.want) || (call.mayOpen && s.mode == {}) || call.mayReopen)
  {
    var a := r[|r| - 1];
    CountersAtRest(r, |r| - 1);
    if a.sh.n.refused == 0 && Servable(a.sh.mode, call) {
      var r' := ServedInTheEnd(r, me, call);
    } else {
      forall r' | Calls(r, r', me, call) ensures !DoesIo(r', me) {
        NeverServed(r, r', me, call);
      }
    }
  }

  lemma ServedInTheEnd(r: seq<State>, me: nat, call: Call) returns (r': seq<State>)
    requires Run(r) && AtRest(r[|r| - 1]) && me < |r[|r| - 1].threads| && Callable(call)
    requires r[|r| - 1].sh.n.refused == 0 && Servable(r[|r| - 1].sh.mode, call)
    ensures Calls(r, r', me, call) && DoesIo(r', me)
  {
    r' := OthersFinish(r, me, call, |r[|r| - 1].threads|);
    var b := r'[|r'| - 1];
    RestIsFree(r', |r'| - 1);
    CountersAtRest(r', |r'| - 1);
    SumZero(b.threads, (t: Thread) => if t.pc == DoingIo then 1 else 0);
    var n := ServedAlone(me, b.sh, b.threads[me], call);
    AloneIs(b, me, Opening(call), n);
    r' := CallsAlone(r, r', me, b, Opening(call), n);
  }

  lemma NeverServed(r: seq<State>, r': seq<State>, me: nat, call: Call)
    requires Run(r) && AtRest(r[|r| - 1]) && me < |r[|r| - 1].threads| && r[|r| - 1].threads[me].pc == Idle
    requires r[|r| - 1].sh.n.refused != 0 || !Servable(r[|r| - 1].sh.mode, call)
    requires Calls(r, r', me, call)
    ensures !DoesIo(r', me)
  {
    var k := |r| - 1;
    var a := r[k];
    CountersAtRest(r, k);
    RunInv(r, k);
    assert r'[k] == a;
    if a.sh.n.refused != 0 {
      RefusedReclaimBlocksIo(r', k, |r'| - 1);
    } else {
      NoHopeEver(r, r', me, call, a.sh.mode, |r'| - 1);
    }
  }

  // ----- a re-open takes no access away -----------------------------------------------------------------

  /** Whoever is about to open has the accesses of the mode among those it will open for. */
  ghost predicate ModeCombined(a: State) {
    forall j :: 0 <= j < |a.threads| && Combining(a.threads[j]) ==> a.sh.mode * O_RDWR <= a.threads[j].l.flags
  }

  lemma CombinesInReopen(me: nat, s: Shared, t: Thread, c: Choice)
    requires t.pc.Reopen? && (Combining(t) ==> s.mode * O_RDWR <= t.l.flags)
    ensures var n := ReopenNext(me, s, t, c); Combining(n.1) ==> n.0.mode == s.mode && s.mode * O_RDWR <= n.1.l.flags
  {}

  lemma CombinesOnlyThere(me: nat, s: Shared, t: Thread, c: Choice)
    requires !t.pc.Reopen?
    ensures !Combining(Next(me, s, t, c).1)
  {}

  lemma CombinedStep(me: nat, s: Shared, t: Thread, c: Choice)
    requires Combining(t) ==> s.mode * O_RDWR <= t.l.flags
    ensures var n := Next(me, s, t, c); Combining(n.1) ==> n.0.mode * O_RDWR <= n.1.l.flags
  {
    if t.pc.Reopen? {
      CombinesInReopen(me, s, t, c);
    } else {
      CombinesOnlyThere(me, s, t, c);
    }
  }

  lemma OnlySectionsChange(me: nat, s: Shared, t: Thread, c: Choice)
    ensures Next(me, s, t, c).0.mode != s.mode ==> InFdSection(t)
  {}

  lemma {:induction false} RunCombined(r: seq<State>, k: nat)
    requires Run(r) && k < |r|
    ensures ModeCombined(r[k])
  {
    if k > 0 {
      RunCombined(r, k - 1);
      assert StepAt(r, k - 1);
      var me: nat, c: Choice :| me < |r[k - 1].threads| && r[k] == Take(r[k - 1], me, c);
      CombinedStep(me, r[k - 1].sh, r[k - 1].threads[me], c);
      OnlySectionsChange(me, r[k - 1].sh, r[k - 1].threads[me], c);
      forall j: nat | j < |r[k].threads| && Combining(r[k].threads[j])
        ensures r[k].sh.mode * O_RDWR <= r[k].threads[j].l.flags
      {
        IoExcludesFdWork(r, k - 1, me, j);
      }
    }
  }

  /** In every run, a re-open that succeeds leaves the descriptor every access that it had; and one that finds
      all it would open for there already leaves the descriptor as it is. */
  lemma ReopenKeepsAccess(r: seq<State>, k: nat, me: nat, c: Choice)
    requires Run(r) && k < |r| && me < |r[k].threads| && r[k].threads[me].pc == Reopen(OpenFd)
    ensures var t, s' := r[k].threads[me], Take(r[k], me, c).sh;
      && (Take(r[k], me, c).threads[me].l.ok ==> r[k].sh.mode * O_RDWR <= s'.mode)
      && (t.l.flags * O_RDWR <= r[k].sh.mode ==> s'.mode == r[k].sh.mode)
  {
    RunInv(r, k);
    RunCombined(r, k);
    var t := r[k].threads[me];
    OpensFor(me, r[k].sh, t, c);
    if t.l.flags * O_RDWR <= r[k].sh.mode {
      assert 5 !in O_RDWR && t.l.flags != O_ANY;
      assert r[k].sh.mode * t.l.flags * O_RDWR == t.l.flags * O_RDWR;
    }
  }

  // ----- a call re-opens once at most, outside its loop ---------------------------------------------------

  /** How many re-opens after the loop the call may still begin. */
  function MayBegin(t: Thread): int {
    match t.pc
    case Wait(w) => if t.l.retried || w.FailLocked? || w.DropWantRead? || w.DropWantWrite? then 0 else 1
    case Dec(_, site) => if t.l.retried || site != BackingOff then 0 else 1
    case Reopen(_) => if t.l.retried || !t.l.inLoop then 0 else 1
    case _ => 0
  }

  predicate BeginsReopen(t: Thread) {
    t.pc == Wait(RaiseFdWork)
  }

  predicate NotAgain(t: Thread) {
    (BeginsReopen(t) ==> !t.l.retried) && (t.pc.Dec? && t.pc.site == SteppingBack ==> !t.l.inLoop)
  }

  lemma BeginStep(me: nat, s: Shared, t: Thread, c: Choice)
    requires NotAgain(t)
    ensures var n := Next(me, s, t, c);
      && NotAgain(n.1)
      && (InWait(t) && InWait(n.1) ==> MayBegin(n.1) + (if BeginsReopen(t) then 1 else 0) <= MayBegin(t))
  {
    match t.pc
    case Idle =>
    case Wait(_) =>
    case Dec(_, _) =>
    case Reopen(_) =>
    case DoingIo =>
    case Fd(_) =>
  }

  lemma {:induction false} RunNotAgain(r: seq<State>, k: nat, me: nat)
    requires Run(r) && k < |r| && me < |r[k].threads|
    ensures NotAgain(r[k].threads[me])
  {
    if k > 0 {
      assert StepAt(r, k - 1);
      var i: nat, c: Choice :| i < |r[k - 1].threads| && r[k] == Take(r[k - 1], i, c);
      RunNotAgain(r, k - 1, me);
      BeginStep(i, r[k - 1].sh, r[k - 1].threads[me], c);
    }
  }

  /** How often thread `me` has begun to re-open after its loop, between r[k] and r[m]. */
  ghost function OuterReopens(r: seq<State>, who: seq<nat>, k: nat, m: nat, me: nat): nat
    requires k <= m < |r| && m <= |who|
    decreases m
  {
    if k == m then 0
    else OuterReopens(r, who, k, m - 1, me)
         + if who[m - 1] == me && me < |r[m - 1].threads| && BeginsReopen(r[m - 1].threads[me]) then 1 else 0
  }

  ghost predicate InWaitAt(r: seq<State>, q: nat, me: nat) {
    q < |r| && me < |r[q].threads| && InWait(r[q].threads[me])
  }

  /** In every run, one call of wait_to_start_io re-opens after its loop at most once. */
  lemma {:induction false} ReopensOnce(r: seq<State>, who: seq<nat>, k: nat, m: nat, me: nat)
    requires Run(r) && k <= m < |r| && m <= |who| && (forall q :: k <= q < m ==> StepBy(r, who, q))
    requires forall q :: k <= q <= m ==> InWaitAt(r, q, me)
    ensures InWaitAt(r, k, me) && InWaitAt(r, m, me)
    ensures OuterReopens(r, who, k, m, me) + MayBegin(r[m].threads[me]) <= MayBegin(r[k].threads[me]) <= 1
    decreases m
  {
    assert InWaitAt(r, k, me) && InWaitAt(r, m, me);
    if k < m {
      assert InWaitAt(r, m - 1, me) && StepBy(r, who, m - 1);
      ReopensOnce(r, who, k, m - 1, me);
      RunNotAgain(r, m - 1, me);
      var c: Choice :| r[m] == Take(r[m - 1], who[m - 1], c);
      BeginStep(me, r[m - 1].sh, r[m - 1].threads[me], c);
    }
  }
}
