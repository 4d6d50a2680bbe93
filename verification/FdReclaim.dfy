/** A refused reclaim and what it costs: fsal_start_fd_work to fsal_complete_fd_work as one call,
    when that call leaves fd_work raised, and when I/O can still start. */
module FdReclaim {
  import opened Bits
  import opened FdRuns
  import opened FdWork

  // ----- one call, whatever the other threads do -----------------------------------------

  /** What the steps of thread `me` between r[k] and r[m], and only they, did to fd_work. */
  ghost function OwnFdWork(r: seq<State>, who: seq<nat>, k: nat, m: nat, me: nat): int
    requires k <= m < |r| && m <= |who|
    decreases m
  {
    if k == m then 0
    else OwnFdWork(r, who, k, m - 1, me)
         + (if who[m - 1] == me then r[m].sh.n.fd - r[m - 1].sh.n.fd else 0)
  }

  /** The next step of `t` reads a counter and finds the descriptor in use. */
  predicate Sees(s: Shared, t: Thread) {
    || (t.pc == Fd(StartWantRead) && s.n.wantRead != 0)
    || (t.pc == Fd(StartWantWrite) && s.n.wantWrite != 0)
    || (t.pc == Fd(StartLull) && s.n.io != 0)
  }

  ghost predicate SeesAt(r: seq<State>, who: seq<nat>, q: nat, me: nat) {
    && q < |r| && q < |who| && who[q] == me && me < |r[q].threads|
    && Sees(r[q].sh, r[q].threads[me])
  }

  ghost predicate SawUse(r: seq<State>, who: seq<nat>, k: nat, m: nat, me: nat) {
    exists q :: k <= q < m && SeesAt(r, who, q, me)
  }

  ghost predicate InFdCall(r: seq<State>, q: nat, me: nat) {
    q < |r| && me < |r[q].threads| && r[q].threads[me].pc.Fd?
  }

  lemma FdCallStep(me: nat, s: Shared, t: Thread, c: Choice)
    requires t.pc.Fd?
    ensures var n := Next(me, s, t, c);
      && n.1.call == t.call
      && (n.1.pc == Fd(Refuse) <==> t.call.reclaiming && Sees(s, t))
      && (t.pc == Fd(Refuse) ==> n.1.pc == Idle && n.0.n.fd == s.n.fd)
      && (t.pc != Fd(Refuse) ==> n.0.n.fd - s.n.fd == FdPart(n.1) - FdPart(t))
  {}

  /** Until the call returns its own part of fd_work is what its program counter says, and it is
      about to refuse just when it is a reclaim that saw the descriptor in use. */
  lemma {:induction false} FdCallSoFar(r: seq<State>, who: seq<nat>, k: nat, m: nat, me: nat)
    requires k <= m < |r| && m <= |who| && (forall q :: k <= q < m ==> StepBy(r, who, q))
    requires forall q :: k <= q <= m ==> InFdCall(r, q, me)
    requires InFdCall(r, k, me) && r[k].threads[me].pc == Fd(StartFdWork)
    ensures InFdCall(r, m, me) && r[m].threads[me].call == r[k].threads[me].call
    ensures OwnFdWork(r, who, k, m, me) == FdPart(r[m].threads[me])
    ensures r[m].threads[me].pc == Fd(Refuse) <==>
            r[k].threads[me].call.reclaiming && SawUse(r, who, k, m, me)
    decreases m
  {
    if k < m {
      FdCallSoFar(r, who, k, m - 1, me);
      assert InFdCall(r, m, me);
      FdCallMore(r, who, k, m, me);
      assert StepBy(r, who, m - 1);
      var c: Choice :| r[m] == Take(r[m - 1], who[m - 1], c);
      if who[m - 1] == me {
        FdCallStep(me, r[m - 1].sh, r[m - 1].threads[me], c);
      }
    }
  }

  lemma FdCallMore(r: seq<State>, who: seq<nat>, k: nat, m: nat, me: nat)
    requires k < m
    ensures SawUse(r, who, k, m, me) <==> SawUse(r, who, k, m - 1, me) || SeesAt(r, who, m - 1, me)
  {
    if SawUse(r, who, k, m, me) {
      var q :| k <= q < m && SeesAt(r, who, q, me);
      if q != m - 1 {
        assert k <= q < m - 1;
      }
    }
    if SawUse(r, who, k, m - 1, me) {
      var q :| k <= q < m - 1 && SeesAt(r, who, q, me);
      assert k <= q < m;
    }
  }

  /** From the entry of fsal_start_fd_work to the return of the call that ends it, over every path
      and whatever other threads do in between: the call's own steps raise fd_work by one if it is
      a reclaim and it saw want_read, want_write or io_work above zero, and by nothing otherwise. */
  lemma FdNetEffect(r: seq<State>, who: seq<nat>, k: nat, m: nat, me: nat)
    requires k < m < |r| && m <= |who| && (forall q :: k <= q < m ==> StepBy(r, who, q))
    requires forall q :: k <= q < m ==> InFdCall(r, q, me)
    requires InFdCall(r, k, me) && r[k].threads[me].pc == Fd(StartFdWork)
    requires me < |r[m].threads| && r[m].threads[me].pc == Idle
    ensures OwnFdWork(r, who, k, m, me) ==
            if r[k].threads[me].call.reclaiming && SawUse(r, who, k, m, me) then 1 else 0
  {
    FdCallSoFar(r, who, k, m - 1, me);
    FdCallMore(r, who, k, m, me);
    assert StepBy(r, who, m - 1) && InFdCall(r, m - 1, me);
    var c: Choice :| r[m] == Take(r[m - 1], who[m - 1], c);
    assert who[m - 1] == me;
    FdCallStep(me, r[m - 1].sh, r[m - 1].threads[me], c);
  }

  // ----- one thread running alone ----------------------------------------------------------

  function Alone(a: State, me: nat, c: Choice, n: nat): (b: State)
    requires me < |a.threads|
    ensures |b.threads| == |a.threads|
  {
    if n == 0 then a else Take(Alone(a, me, c, n - 1), me, c)
  }

  function Turns(me: nat, s: Shared, t: Thread, c: Choice, n: nat): (Shared, Thread)
    decreases n
  {
    if n == 0 then (s, t) else var x := Next(me, s, t, c); Turns(me, x.0, x.1, c, n - 1)
  }

  lemma {:induction false} TurnsMore(me: nat, s: Shared, t: Thread, c: Choice, n: nat)
    ensures var x := Turns(me, s, t, c, n); Turns(me, s, t, c, n + 1) == Next(me, x.0, x.1, c)
    decreases n
  {
    var x := Next(me, s, t, c);
    if n != 0 {
      TurnsMore(me, x.0, x.1, c, n - 1);
    } else {
      assert Turns(me, x.0, x.1, c, 0) == x;
    }
  }

  /** Only the stepping thread and the shared part change. */
  lemma {:induction false} AloneIs(a: State, me: nat, c: Choice, n: nat)
    requires me < |a.threads|
    ensures var x := Turns(me, a.sh, a.threads[me], c, n);
      Alone(a, me, c, n) == State(x.0, a.threads[me := x.1])
  {
    if n != 0 {
      AloneIs(a, me, c, n - 1);
      TurnsMore(me, a.sh, a.threads[me], c, n - 1);
    }
  }

  lemma {:induction false} RunOn(r: seq<State>, me: nat, c: Choice, n: nat) returns (r': seq<State>)
    requires Run(r) && me < |r[|r| - 1].threads|
    ensures Run(r') && |r'| == |r| + n && r <= r'
    ensures r'[|r'| - 1] == Alone(r[|r| - 1], me, c, n)
  {
    if n == 0 {
      r' := r;
    } else {
      var s := RunOn(r, me, c, n - 1);
      var a := s[|s| - 1];
      r' := s + [Take(a, me, c)];
      forall k | 0 <= k < |r'| - 1 ensures StepAt(r', k) {
        if k < |s| - 1 {
          assert StepAt(s, k);
        } else {
          assert Steps(a, Take(a, me, c));
        }
      }
    }
  }

  /** A call of wait_to_start_io that the caller may make. */
  predicate IoCall(c: Choice) {
    c.startsIo && (c.call.want == O_ANY ==> !c.call.mayOpen && !c.call.mayReopen)
  }

  /** With fd_work at zero and a mode that serves, the call goes straight through. */
  lemma IoGoesThrough(me: nat, s: Shared, t: Thread, c: Choice)
    requires t.pc == Idle && IoCall(c) && s.n.fd == 0 && OpenCorrect(s.mode, c.call.want)
    ensures var x := Turns(me, s, t, c, 8); x.0 == AddIo(s, 1) && x.1.pc == DoingIo
  {
    var x1 := Next(me, s, t, c);
    var x2 := Next(me, x1.0, x1.1, c);
    var x3 := Next(me, x2.0, x2.1, c);
    var x4 := Next(me, x3.0, x3.1, c);
    assert x4.1.pc == Wait(CheckFdWork) && x4.0.n.fd == 0;
    var x5 := Next(me, x4.0, x4.1, c);
    var x6 := Next(me, x5.0, x5.1, c);
    assert x6.1.pc == Wait(DropWantRead) && x6.1.l.ok;
    var x7 := Next(me, x6.0, x6.1, c);
    var x8 := Next(me, x7.0, x7.1, c);
    assert Turns(me, x6.0, x6.1, c, 2) == x8;
    assert Turns(me, x4.0, x4.1, c, 4) == x8;
    assert Turns(me, x2.0, x2.1, c, 6) == x8;
  }

  predicate InUse(s: Shared) {
    s.n.wantRead != 0 || s.n.wantWrite != 0 || s.n.io != 0
  }

  function ReclaimTurns(s: Shared): nat {
    if s.n.wantRead != 0 then 5 else if s.n.wantWrite != 0 then 6 else if s.n.io != 0 then 7 else 9
  }

  /** A reclaim by a thread that runs alone: refused with fd_work raised if the descriptor is in
      use, and otherwise it closes the descriptor and puts everything back. */
  lemma ReclaimAlone(me: nat, s: Shared, t: Thread, c: Choice)
    requires t.pc == Idle && !c.startsIo && c.call.reclaiming && s.mutex == Free
    ensures var x := Turns(me, s, t, c, ReclaimTurns(s));
      && x.1.pc == Idle
      && x.0 == if InUse(s) then s.(n := s.n.(fd := s.n.fd + 1, refused := s.n.refused + 1))
                else s.(mode := c.mode)
  {
    var x1 := Next(me, s, t, c);
    var x2 := Next(me, x1.0, x1.1, c);
    var x3 := Next(me, x2.0, x2.1, c);
    assert x3.1.pc == Fd(StartWantRead) && x3.0.n == s.n.(fd := s.n.fd + 1);
    var n := ReclaimTurns(s);
    assert Turns(me, s, t, c, n) == Turns(me, x1.0, x1.1, c, n - 1);
    assert Turns(me, x1.0, x1.1, c, n - 1) == Turns(me, x2.0, x2.1, c, n - 2);
    assert Turns(me, x2.0, x2.1, c, n - 2) == Turns(me, x3.0, x3.1, c, n - 3);
    var x4 := Next(me, x3.0, x3.1, c);
    var x5 := Next(me, x4.0, x4.1, c);
    assert Turns(me, x3.0, x3.1, c, n - 3) == Turns(me, x4.0, x4.1, c, n - 4);
    assert Turns(me, x4.0, x4.1, c, n - 4) == Turns(me, x5.0, x5.1, c, n - 5);
    if n > 5 {
      var x6 := Next(me, x5.0, x5.1, c);
      assert Turns(me, x5.0, x5.1, c, n - 5) == Turns(me, x6.0, x6.1, c, n - 6);
      if n > 6 {
        var x7 := Next(me, x6.0, x6.1, c);
        assert Turns(me, x6.0, x6.1, c, n - 6) == Turns(me, x7.0, x7.1, c, n - 7);
      }
    }
  }

  /** fsal_complete_io by the last I/O, alone. */
  lemma CompleteAlone(me: nat, s: Shared, t: Thread, c: Choice)
    requires t.pc == DoingIo && s.n.io == 1 && s.mutex == Free
    ensures var x := Turns(me, s, t, c, 5); x.0 == AddIo(s, -1) && x.1.pc == Idle
  {
    var x1 := Next(me, s, t, c);
    var x2 := Next(me, x1.0, x1.1, c);
    var x3 := Next(me, x2.0, x2.1, c);
    assert x3.1.pc == Dec(DecLocked, Completing);
    var x4 := Next(me, x3.0, x3.1, c);
    var x5 := Next(me, x4.0, x4.1, c);
    assert Turns(me, x3.0, x3.1, c, 2) == x5;
    assert Turns(me, x1.0, x1.1, c, 4) == x5;
  }

  // ----- when I/O can start ----------------------------------------------------------------

  ghost predicate AtRest(a: State) {
    forall i :: 0 <= i < |a.threads| ==> a.threads[i].pc == Idle || a.threads[i].pc == DoingIo
  }

  ghost predicate Continues(r: seq<State>, r': seq<State>) {
    Run(r') && |r'| > 0 && r <= r'
  }

  ghost predicate DoesIo(r: seq<State>, me: nat) {
    |r| > 0 && me < |r[|r| - 1].threads| && r[|r| - 1].threads[me].pc == DoingIo
  }

  /** With all threads outside the calls and a mode that serves, an idle thread's I/O can start in
      some continuation if and only if no reclaim has ever been refused. */
  lemma IoStartsIffNoneRefused(r: seq<State>, me: nat, c: Choice)
    requires Run(r) && AtRest(r[|r| - 1]) && me < |r[|r| - 1].threads|
    requires r[|r| - 1].threads[me].pc == Idle && IoCall(c) && OpenCorrect(r[|r| - 1].sh.mode, c.call.want)
    ensures (exists r' :: Continues(r, r') && DoesIo(r', me)) <==> r[|r| - 1].sh.n.refused == 0
  {
    var k := |r| - 1;
    var a := r[k];
    CountersAtRest(r, k);
    RunInv(r, k);
    if a.sh.n.refused == 0 {
      var r' := RunOn(r, me, c, 8);
      AloneIs(a, me, c, 8);
      IoGoesThrough(me, a.sh, a.threads[me], c);
      assert Continues(r, r') && DoesIo(r', me);
    } else {
      forall r' | Continues(r, r') ensures !DoesIo(r', me) {
        assert r'[k] == a;
        RefusedReclaimBlocksIo(r', k, |r'| - 1);
      }
    }
  }

  const READ_CALL: Choice := Choice(Call({READ}, false, false, false), true, false, O_CLOSED)
  const RECLAIM: Choice := Choice(Call({}, false, false, true), false, false, O_CLOSED)

  /** Two threads and a descriptor open for reading: one thread reads, the other tries to reclaim
      the descriptor and is refused, the read ends. Everything is at rest, and fd_work is one. */
  lemma RefusedReachable() returns (r: seq<State>)
    ensures Run(r)
    ensures var a := r[|r| - 1];
      && |a.threads| == 2 && a.threads[0].pc == Idle && a.threads[1].pc == Idle
      && a.sh == Shared(Counts(0, 1, 0, 0, 1), {READ}, Free)
  {
    var idle := Thread(Idle, READ_CALL.call, Locals(false, false, false, false, false, {}));
    var a := State(Shared(Counts(0, 0, 0, 0, 0), {READ}, Free), [idle, idle]);
    r := RunOn([a], 0, READ_CALL, 8);
    AloneIs(a, 0, READ_CALL, 8);
    IoGoesThrough(0, a.sh, idle, READ_CALL);
    var b := Alone(a, 0, READ_CALL, 8);
    r := RunOn(r, 1, RECLAIM, 7);
    AloneIs(b, 1, RECLAIM, 7);
    ReclaimAlone(1, b.sh, b.threads[1], RECLAIM);
    var d := Alone(b, 1, RECLAIM, 7);
    r := RunOn(r, 0, READ_CALL, 5);
    AloneIs(d, 0, READ_CALL, 5);
    CompleteAlone(0, d.sh, d.threads[0], READ_CALL);
  }
}
