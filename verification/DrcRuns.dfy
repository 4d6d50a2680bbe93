/** What every run of the duplicate request caches keeps: any number of client addresses,
    connections and requests, and any schedule of their steps. */
module DrcRuns {
  import opened Tally
  import opened DupReq
  import opened DrcRecycle

  /** The world a schedule leads to from a server that has seen no request. */
  ghost function Reached(cfg: Config, w0: World, acts: seq<Action>): (w: World)
    requires Init(w0)
    ensures WorldInv(w)
  {
    InitInv(w0);
    After(cfg, w0, acts)
  }

  // ----- the recycle queue --------------------------------------------------------------

  /** Queued exactly when flagged, only while nobody refers to the DRC; the stored length is
      the length; and a DRC that nobody refers to and is not queued has exactly one thread
      on its way to queue it. */
  lemma RecycleQueueSound(cfg: Config, w0: World, acts: seq<Action>, d: nat)
    requires Init(w0)
    ensures var w := Reached(cfg, w0, acts);
      && w.qlen == |w.queue| && Distinct(w.queue)
      && (d in w.queue ==> d < |w.nodes| && w.nodes[d].h.live && w.nodes[d].h.recycle
                           && w.nodes[d].h.refcnt == 0 && Pending(w.nodes[d]) == 0)
      && (d < |w.nodes| && w.nodes[d].h.live && w.nodes[d].h.refcnt == 0 && d !in w.queue ==>
            Pending(w.nodes[d]) == 1)
      && (d < |w.nodes| && w.nodes[d].h.refcnt != 0 ==> Pending(w.nodes[d]) == 0 && d !in w.queue)
  {
    var w := Reached(cfg, w0, acts);
    if d < |w.nodes| {
      assert NodeInv(w.nodes[d]);
      Counted(w.nodes[d]);
    }
  }

  /** A live DRC's count rises from zero only by taking the DRC off the queue. */
  lemma NoRiseBeforeQueued(cfg: Config, w0: World, acts: seq<Action>, a: Action, d: nat)
    requires Init(w0)
    ensures var w := Reached(cfg, w0, acts); var w' := Act(cfg, w, a);
      d < |w.nodes| && w.nodes[d].h.live && w.nodes[d].h.refcnt == 0 ==>
        && d < |w'.nodes|
        && (w'.nodes[d].h.refcnt != 0 ==> d in w.queue && d !in w'.queue)
  {
    var w := Reached(cfg, w0, acts);
    if d < |w.nodes| && w.nodes[d].h.live && w.nodes[d].h.refcnt == 0 {
      ActInv(cfg, w, a);
      ActOn(cfg, w, a, d);
      RiseStep(cfg, w, a, d);
    }
  }

  /** An action that is not on node `d` leaves it alone. */
  lemma ActOn(cfg: Config, w: World, a: Action, d: nat)
    requires WorldInv(w) && d < |w.nodes|
    ensures var w' := Act(cfg, w, a);
      && |w'.nodes| == |w.nodes|
      && (a.AReq? && (a.d != d || a.me >= |w.nodes[d].sys.reqs|) ==> w'.nodes[d] == w.nodes[d])
      && (a.AClose? && (a.d != d || a.x >= |w.nodes[d].xprts|) ==> w'.nodes[d] == w.nodes[d])
      && (a.AExpire? && (|w.queue| == 0 || w.queue[0] != d) ==> w'.nodes[d] == w.nodes[d])
  {}

  lemma RiseStep(cfg: Config, w: World, a: Action, d: nat)
    requires WorldInv(w) && d < |w.nodes| && w.nodes[d].h.live && w.nodes[d].h.refcnt == 0
    requires |Act(cfg, w, a).nodes| == |w.nodes|
    ensures Act(cfg, w, a).nodes[d].h.refcnt != 0 ==> d in w.queue && d !in Act(cfg, w, a).queue
  {
    var n := w.nodes[d];
    assert NodeInv(n);
    ActOn(cfg, w, a, d);
    match a
    case AReq(d', me, c) =>
      if d' == d && me < |n.sys.reqs| {
        RiseReq(cfg, n, me, c);
        if n.h.recycle {
          UnqueueOk(w.queue, d);
        }
      }
    case AClose(d', x) =>
      if x < |n.xprts| {
        RiseClose(n, x);
      }
    case AExpire =>
  }

  lemma RiseClose(n: Node, x: nat)
    requires NodeInv(n) && n.h.live && n.h.refcnt == 0 && x < |n.xprts|
    ensures CloseXprt(n, x).0.h.refcnt == 0
  {
    Counted(n);
  }

  lemma RiseReq(cfg: Config, n: Node, me: nat, c: Choice)
    requires NodeInv(n) && n.h.live && n.h.refcnt == 0 && me < |n.sys.reqs|
    ensures var g := ReqStep(cfg, n, me, c); g.0.h.refcnt != 0 ==> n.h.recycle && g.1.Dequeue?
  {
    Counted(n);
    var r := n.sys.reqs[me];
    if r.pc.GetDrc? {
      assert XprtOk(n, r);
    }
  }

  /** The thread that is to queue the DRC always finds it unreferenced and unqueued when it
      has its locks back, so it queues it: the check it repeats never fails. */
  lemma QueuerQueues(cfg: Config, w0: World, acts: seq<Action>, d: nat, me: nat, c: Choice)
    requires Init(w0)
    ensures var w := Reached(cfg, w0, acts);
      d < |w.nodes| && me < |w.nodes[d].sys.reqs| && w.nodes[d].sys.reqs[me].pc == Rele(QueueDrc) ==>
        && w.nodes[d].h.refcnt == 0 && d !in w.queue
        && Act(cfg, w, AReq(d, me, c)).queue == w.queue + [d]
  {
    var w := Reached(cfg, w0, acts);
    if d < |w.nodes| && me < |w.nodes[d].sys.reqs| && w.nodes[d].sys.reqs[me].pc == Rele(QueueDrc) {
      var n := w.nodes[d];
      assert NodeInv(n);
      Counted(n);
      SumAtLeast(n.sys.reqs, me, QueuePart);
    }
  }

  // ----- entries and their references -------------------------------------------------------

  /** An entry's references are the table's, until the one thread that took the entry out of
      the queue drops it, and those of the requests attached to it. */
  lemma EntryReferences(cfg: Config, w0: World, acts: seq<Action>, d: nat, e: nat)
    requires Init(w0)
    ensures var w := Reached(cfg, w0, acts); d < |w.nodes| ==>
      var s := w.nodes[d].sys;
      var tokens := B(e in s.k.q) + Sum(s.reqs, LeaveOf(e)) + Sum(s.reqs, OweOf(e));
      && 0 <= tokens <= 1
      && (if e in s.k.entries then s.k.entries[e].refcnt else 0) == tokens + Sum(s.reqs, HoldOf(e))
      && (e in s.k.entries ==> s.k.entries[e].refcnt > 0)
  {
    var w := Reached(cfg, w0, acts);
    if d < |w.nodes| {
      assert NodeInv(w.nodes[d]);
      assert BookOk(w.nodes[d].sys, e);
      PartsNonNegative(w.nodes[d].sys, e);
    }
  }

  /** The asserts of drc_free_expired hold at the head of the queue, and it leaks nothing. */
  lemma ExpireFreesEverything(cfg: Config, w0: World, acts: seq<Action>)
    requires Init(w0)
    ensures var w := Reached(cfg, w0, acts); |w.queue| > 0 ==>
      var d := w.queue[0];
      && d < |w.nodes| && w.nodes[d].h.refcnt == 0
      && (forall e :: e in w.nodes[d].sys.k.entries <==> e in w.nodes[d].sys.k.q)
      && (forall e :: e in w.nodes[d].sys.k.q ==> w.nodes[d].sys.k.entries[e].refcnt == 1)
      && Expire(w).nodes[d].sys.k.entries == map[]
  {
    var w := Reached(cfg, w0, acts);
    if |w.queue| > 0 {
      assert w.queue[0] in w.queue;
      QueuedNodeFacts(w.nodes[w.queue[0]]);
      ExpireNodeInv(w.nodes[w.queue[0]]);
    }
  }

  /** The stored size is the queue's length; what is queued can be found; and what can be
      found is queued, when nfs_dupreq_delete is not between its two removals. */
  lemma QueueMatchesTable(cfg: Config, w0: World, acts: seq<Action>, d: nat, e: nat)
    requires Init(w0)
    ensures var w := Reached(cfg, w0, acts); d < |w.nodes| ==>
      var s := w.nodes[d].sys;
      && s.k.size == |s.k.q|
      && (e in s.k.q ==> InTable(s.k, e))
      && ((forall i :: 0 <= i < |s.reqs| ==> s.reqs[i].pc != Delete(LeaveTable)) ==>
            (e in s.k.q <==> InTable(s.k, e)))
  {
    var w := Reached(cfg, w0, acts);
    if d < |w.nodes| {
      var s := w.nodes[d].sys;
      assert NodeInv(w.nodes[d]);
      assert BookOk(s, e);
      if forall i :: 0 <= i < |s.reqs| ==> s.reqs[i].pc != Delete(LeaveTable) {
        SumZero(s.reqs, LeaveOf(e));
      }
    }
  }

  /** One finish retires at most MAX_RETRIES + 1 entries: the thread that retires its n-th
      has n of at most MAX_RETRIES; and what it retires is the head of the queue. */
  lemma RetiresFromHead(cfg: Config, w0: World, acts: seq<Action>, d: nat, me: nat, c: Choice)
    requires Init(w0)
    ensures var w := Reached(cfg, w0, acts);
      d < |w.nodes| && me < |w.nodes[d].sys.reqs| && w.nodes[d].sys.reqs[me].pc.Finish? ==>
        var s := w.nodes[d].sys; var f := s.reqs[me].pc.fin;
        var n' := Act(cfg, w, AReq(d, me, c)).nodes;
        && |n'| == |w.nodes| && |n'[d].sys.reqs| == |s.reqs|
        && (!f.Mark? ==> f.n <= MAX_RETRIES)
        && (n'[d].sys.k.q == s.k.q
            || (f.RetirePop? && s.k.q != [] && n'[d].sys.k.q == s.k.q[1..]
                && n'[d].sys.reqs[me].pc == Finish(RetirePut(f.n, s.k.q[0]))))
        && (f.RetirePut? ==>
              n'[d].sys.reqs[me].pc == if f.n < MAX_RETRIES then Finish(Retire(f.n + 1))
                                       else Rele(WakeNext))
  {
    var w := Reached(cfg, w0, acts);
    if d < |w.nodes| && me < |w.nodes[d].sys.reqs| && w.nodes[d].sys.reqs[me].pc.Finish? {
      var s := w.nodes[d].sys;
      assert NodeInv(w.nodes[d]);
      assert ReqOk(s.k, s.reqs[me]);
      Present(s, me);
    }
  }

  // ----- duplicates ------------------------------------------------------------------------------

  /** While an entry is incomplete at most one request works on it; the service function runs
      only for an incomplete entry; and never more than MAX_DUPES were made to wait. */
  lemma OneWorkerPerEntry(cfg: Config, w0: World, acts: seq<Action>, d: nat, e: nat)
    requires Init(w0)
    ensures var w := Reached(cfg, w0, acts);
      d < |w.nodes| && e in w.nodes[d].sys.k.entries ==>
        var s := w.nodes[d].sys; var v := s.k.entries[e];
        && (!v.complete ==> Sum(s.reqs, ActiveOf(e)) <= 1)
        && (forall i :: 0 <= i < |s.reqs| && s.reqs[i].dv == e && s.reqs[i].pc == Run(Executing) ==>
              !v.complete)
        && v.dup.arrived == v.dup.resumed + v.dup.queue
        && |v.dup.arrived| <= MAX_DUPES
  {
    var w := Reached(cfg, w0, acts);
    if d < |w.nodes| && e in w.nodes[d].sys.k.entries {
      var s := w.nodes[d].sys;
      assert NodeInv(w.nodes[d]);
      assert ActiveOk(s, e) && EntryOk(s.k.entries[e]);
      forall i | 0 <= i < |s.reqs| && s.reqs[i].dv == e && s.reqs[i].pc == Run(Executing)
        ensures !s.k.entries[e].complete
      {
        assert ReqOk(s.k, s.reqs[i]);
      }
    }
  }

  /** A step resumes at most the longest-waiting duplicate of one entry, and only a releasing
      request does; a step makes at most the request itself wait, behind all others. */
  predicate DupStep(v: Entry, v': Entry, me: nat, waking: bool) {
    var d, d' := v.dup, v'.dup;
    || (d'.queue == d.queue && d'.arrived == d.arrived && d'.resumed == d.resumed)
    || (waking && d.queue != [] && d'.queue == d.queue[1..] && d'.arrived == d.arrived
        && d'.resumed == d.resumed + [d.queue[0]])
    || (!waking && d'.queue == d.queue + [me] && d'.arrived == d.arrived + [me]
        && d'.resumed == d.resumed)
  }

  lemma DuplicatesInArrivalOrder(cfg: Config, s: Sys, me: nat, rc: Rc, e: nat)
    requires Inv(s) && me < |s.reqs| && OnEntry(s.reqs[me])
    ensures var s' := Move(cfg, s, me, rc);
      e in s.k.entries && e in s'.k.entries ==>
        DupStep(s.k.entries[e], s'.k.entries[e], me, s.reqs[me].pc == Rele(WakeNext))
  {
    Present(s, me);
    var s' := Move(cfg, s, me, rc);
    if s.reqs[me].pc == Rele(WakeNext) && Wakes(s, me) {
      WakeIsWakeStep(s, me);
    } else if s.reqs[me].pc.Finish? {
      FinishDupes(cfg, s.k, s.reqs[me], e);
    } else if s.reqs[me].pc.Delete? {
      DeleteDupes(s.k, s.reqs[me], e);
    }
  }

  lemma DeleteDupes(k: Cache, r: Req, e: nat)
    requires r.pc.Delete? && r.dv in k.entries
    ensures var k' := DeleteNext(k, r).0;
      e in k.entries && e in k'.entries ==> k'.entries[e].dup == k.entries[e].dup
  {}

  lemma FinishDupes(cfg: Config, k: Cache, r: Req, e: nat)
    requires r.pc.Finish? && r.dv in k.entries
    ensures var k' := FinishNext(cfg, k, r).0;
      e in k.entries && e in k'.entries ==> k'.entries[e].dup == k.entries[e].dup
  {}

  /** The entry is complete, or was and is gone: entry numbers are not used again. */
  predicate Done(k: Cache, e: nat) {
    e < k.nextId && (e in k.entries ==> k.entries[e].complete)
  }

  lemma MoveKeepsDone(cfg: Config, s: Sys, me: nat, rc: Rc, e: nat)
    requires Inv(s) && me < |s.reqs| && OnEntry(s.reqs[me]) && Done(s.k, e)
    ensures Done(Move(cfg, s, me, rc).k, e)
  {
    Present(s, me);
    var s' := Move(cfg, s, me, rc);
    assert s'.k.nextId >= s.k.nextId;
    if s.reqs[me].pc != Rele(WakeNext) {
      MoveGood(cfg, s, me, rc);
      assert ActiveStep(s.k, s.reqs[me], s'.k, s'.reqs[me], e);
    }
  }

  lemma {:induction false} PutAllDone(k: Cache, es: seq<nat>, e: nat)
    requires Done(k, e)
    ensures Done(PutAll(k, es), e)
    decreases |es|
  {
    if |es| != 0 {
      PutAllDone(PutEntry(k, es[0]), es[1..], e);
    }
  }

  lemma ActKeepsDone(cfg: Config, w: World, a: Action, d: nat, e: nat)
    requires WorldInv(w) && d < |w.nodes| && Done(w.nodes[d].sys.k, e)
    ensures |Act(cfg, w, a).nodes| == |w.nodes| && Done(Act(cfg, w, a).nodes[d].sys.k, e)
  {
    ActOn(cfg, w, a, d);
    var n := w.nodes[d];
    assert NodeInv(n);
    match a
    case AReq(d', me, c) =>
      if d' == d && me < |n.sys.reqs| && OnEntry(n.sys.reqs[me]) {
        MoveKeepsDone(cfg, n.sys, me, c.rc, e);
      }
    case AClose(d', x) =>
    case AExpire => PutAllDone(n.sys.k, n.sys.k.q, e);
  }

  /** Once an entry is complete, its request is never run again, whatever happens next. */
  lemma {:induction false} NeverRunAgain(cfg: Config, w: World, acts: seq<Action>, d: nat, e: nat)
    requires WorldInv(w) && d < |w.nodes| && Done(w.nodes[d].sys.k, e)
    ensures var w' := After(cfg, w, acts);
      && |w'.nodes| == |w.nodes| && Done(w'.nodes[d].sys.k, e)
      && forall i :: 0 <= i < |w'.nodes[d].sys.reqs| && w'.nodes[d].sys.reqs[i].dv == e ==>
           w'.nodes[d].sys.reqs[i].pc != Run(Executing)
    decreases |acts|
  {
    if |acts| == 0 {
      var s := w.nodes[d].sys;
      assert NodeInv(w.nodes[d]);
      forall i | 0 <= i < |s.reqs| && s.reqs[i].dv == e ensures s.reqs[i].pc != Run(Executing) {
        assert ReqOk(s.k, s.reqs[i]);
      }
    } else {
      ActInv(cfg, w, acts[0]);
      ActKeepsDone(cfg, w, acts[0], d, e);
      NeverRunAgain(cfg, Act(cfg, w, acts[0]), acts[1..], d, e);
    }
  }

  // ----- duplicates left behind --------------------------------------------------------------------

  /** Someone is at work for every waiting duplicate, unless its entry was lost. */
  ghost predicate Served(s: Sys) {
    forall e :: e in s.k.entries ==> ServedAt(s, e)
  }

  ghost predicate ServedAt(s: Sys, e: nat)
    requires e in s.k.entries
  {
    s.k.entries[e].dup.queue != [] && !s.k.entries[e].lost ==> Sum(s.reqs, ActiveOf(e)) >= 1
  }

  lemma MoveServed(cfg: Config, s: Sys, me: nat, rc: Rc)
    requires Inv(s) && me < |s.reqs| && OnEntry(s.reqs[me]) && Served(s)
    ensures Served(Move(cfg, s, me, rc))
  {
    Present(s, me);
    var s' := Move(cfg, s, me, rc);
    if s.reqs[me].pc == Rele(WakeNext) {
      WakeServed(s, me);
    } else {
      MoveGood(cfg, s, me, rc);
      forall e | e in s'.k.entries ensures ServedAt(s', e) {
        StaysActive(cfg, s, me, rc, e);
        SumUpdate(s.reqs, me, s'.reqs[me], ActiveOf(e));
        DuplicatesInArrivalOrder(cfg, s, me, rc, e);
        LostStep(cfg, s, me, rc, e);
        JoinsServed(cfg, s, me, rc, e);
        if e in s.k.entries {
          assert ServedAt(s, e);
        }
      }
    }
  }

  /** Only waking the next duplicate ends a request's work on its entry. */
  lemma StaysActive(cfg: Config, s: Sys, me: nat, rc: Rc, e: nat)
    requires Inv(s) && me < |s.reqs| && OnEntry(s.reqs[me]) && s.reqs[me].pc != Rele(WakeNext)
    ensures |Move(cfg, s, me, rc).reqs| == |s.reqs|
    ensures ActivePart(Move(cfg, s, me, rc).reqs[me], e) >= ActivePart(s.reqs[me], e)
  {
    Present(s, me);
  }

  /** The one step that loses an entry: nfs_dupreq_finish, with the connection dead and
      duplicates waiting, of an entry whose `rc` nobody has set. */
  predicate Loses(s: Sys, me: nat, e: nat)
    requires me < |s.reqs|
  {
    && s.reqs[me].pc == Finish(Mark(XPRT_DIED)) && s.reqs[me].dv == e && e in s.k.entries
    && s.k.entries[e].dup.queue != [] && s.k.entries[e].rc == OK
  }

  lemma LostStep(cfg: Config, s: Sys, me: nat, rc: Rc, e: nat)
    requires Inv(s) && me < |s.reqs| && OnEntry(s.reqs[me])
    ensures var s' := Move(cfg, s, me, rc);
      && (e in s.k.entries && e in s'.k.entries ==>
            (s'.k.entries[e].lost <==> s.k.entries[e].lost || Loses(s, me, e)))
      && (e !in s.k.entries && e in s'.k.entries ==>
            !s'.k.entries[e].lost && s'.k.entries[e].dup.queue == [])
  {
    Present(s, me);
    match s.reqs[me].pc
    case Finish(_) => FinishLost(cfg, s, me, e);
    case Delete(_) => DeleteLost(s.k, s.reqs[me], e);
    case Rele(_) =>
      if Wakes(s, me) {
        WakeIsWakeStep(s, me);
      }
    case _ =>
  }

  /** At work on entry `e` itself: executing the request, or finishing or deleting it. */
  predicate WorksOn(r: Req, e: nat) {
    r.dv == e && (r.pc == Run(Executing) || (r.pc.Finish? && r.pc.fin.Mark?) || r.pc.Delete?)
  }

  ghost predicate NobodyWorks(s: Sys, e: nat) {
    forall i :: 0 <= i < |s.reqs| ==> !WorksOn(s.reqs[i], e)
  }

  /** Lost, by what can be seen in the cache: the entry is still in the table and incomplete, no
      status says what became of it, and nobody is at work on it. */
  lemma LostMeans(s: Sys, e: nat)
    requires Inv(s) && InTable(s.k, e)
    ensures var v := s.k.entries[e]; v.lost <==> !v.complete && v.rc == OK && NobodyWorks(s, e)
  {
    var v := s.k.entries[e];
    assert EntryOk(v) && ActiveOk(s, e);
    forall i | 0 <= i < |s.reqs| && WorksOn(s.reqs[i], e) ensures !v.lost {
      assert ReqOk(s.k, s.reqs[i]);
    }
    if !v.lost && !v.complete && v.rc == OK {
      var i := SumPositive(s.reqs, ActiveOf(e));
      assert ReqOk(s.k, s.reqs[i]) && PlaceOk(s.k, s.reqs[i], v);
      assert WorksOn(s.reqs[i], e);
    }
  }

  /** ... in every reachable state. */
  lemma LostIffUnfinished(cfg: Config, w0: World, acts: seq<Action>, d: nat, e: nat)
    requires Init(w0)
    ensures var w := Reached(cfg, w0, acts);
      d < |w.nodes| && InTable(w.nodes[d].sys.k, e) ==>
        var s := w.nodes[d].sys; var v := s.k.entries[e];
        v.lost <==> !v.complete && v.rc == OK && NobodyWorks(s, e)
  {
    InitInv(w0);
    var w := Reached(cfg, w0, acts);
    if d < |w.nodes| && InTable(w.nodes[d].sys.k, e) {
      assert NodeInv(w.nodes[d]);
      LostMeans(w.nodes[d].sys, e);
    }
  }

  lemma FinishLost(cfg: Config, s: Sys, me: nat, e: nat)
    requires me < |s.reqs| && s.reqs[me].pc.Finish? && s.reqs[me].dv in s.k.entries
    ensures var k' := FinishNext(cfg, s.k, s.reqs[me]).0;
      e in k'.entries ==>
        e in s.k.entries && (k'.entries[e].lost <==> s.k.entries[e].lost || Loses(s, me, e))
  {}

  lemma DeleteLost(k: Cache, r: Req, e: nat)
    requires r.pc.Delete? && r.dv in k.entries
    ensures var k' := DeleteNext(k, r).0;
      e in k'.entries ==> e in k.entries && k'.entries[e].lost == k.entries[e].lost
  {}

  /** A duplicate that starts to wait finds someone at work, or a lost entry. */
  lemma JoinsServed(cfg: Config, s: Sys, me: nat, rc: Rc, e: nat)
    requires Inv(s) && me < |s.reqs| && OnEntry(s.reqs[me]) && s.reqs[me].pc != Rele(WakeNext)
    ensures var s' := Move(cfg, s, me, rc);
      e in s.k.entries && e in s'.k.entries && s'.k.entries[e].dup.queue != s.k.entries[e].dup.queue ==>
        s.k.entries[e].lost || Sum(s.reqs, ActiveOf(e)) == 1
  {
    Present(s, me);
    var s' := Move(cfg, s, me, rc);
    assert ActiveOk(s, e);
    if e in s.k.entries && e in s'.k.entries && s'.k.entries[e].dup.queue != s.k.entries[e].dup.queue {
      if s.reqs[me].pc.Finish? {
        FinishDupes(cfg, s.k, s.reqs[me], e);
      }
      assert s.reqs[me].pc.Start? && s.reqs[me].key in s.k.table && s.k.table[s.reqs[me].key] == e;
      assert InTable(s.k, e);
    }
  }

  lemma WakeServed(s: Sys, me: nat)
    requires Inv(s) && me < |s.reqs| && s.reqs[me].pc == Rele(WakeNext) && Served(s)
    ensures s.reqs[me].dv in s.k.entries && QueueOk(s, s.reqs[me].dv)
    ensures Served(Wake(s, me))
  {
    Present(s, me);
    assert QueueOk(s, s.reqs[me].dv);
    var s' := Wake(s, me);
    if Wakes(s, me) {
      WakeIsWakeStep(s, me);
      var next := s.k.entries[s.reqs[me].dv].dup.queue[0];
      forall e | e in s'.k.entries ensures ServedAt(s', e) {
        assert ServedAt(s, e);
        assert WakeEntry(s.k.entries[e], s'.k.entries[e], e == s.reqs[me].dv);
        WakeSums(s, me, s', next, e);
      }
    } else {
      forall e | e in s'.k.entries ensures ServedAt(s', e) {
        assert ServedAt(s, e);
        SumUpdate(s.reqs, me, s'.reqs[me], ActiveOf(e));
      }
    }
  }

  /** Every change a request makes outside the cache leaves all who wait and work as they
      were. */
  ghost predicate Idles(s: Sys, s': Sys, me: nat) {
    && me < |s.reqs| && |s'.reqs| == |s.reqs| && s' == Sys(s.k, s.reqs[me := s'.reqs[me]])
    && !Attached(s.reqs[me]) && !Attached(s'.reqs[me])
  }

  lemma IdlesActive(s: Sys, s': Sys, me: nat, e: nat)
    requires Idles(s, s', me)
    ensures Sum(s'.reqs, ActiveOf(e)) == Sum(s.reqs, ActiveOf(e))
  {
    SumUpdate(s.reqs, me, s'.reqs[me], ActiveOf(e));
  }

  /** What an action can do to the requests and entries of node `d`. */
  lemma ActCases(cfg: Config, w: World, a: Action, d: nat)
    requires WorldInv(w) && d < |w.nodes|
    ensures var w' := Act(cfg, w, a); var s := w.nodes[d].sys;
      && |w'.nodes| == |w.nodes| && Inv(s)
      && var s' := w'.nodes[d].sys;
         || s' == s
         || (a.AReq? && a.me < |s.reqs| && OnEntry(s.reqs[a.me]) && s' == Move(cfg, s, a.me, a.c.rc))
         || (a.AReq? && Idles(s, s', a.me))
         || (a.AExpire? && w.nodes[d].h.recycle && s'.k.entries == map[] && s'.reqs == s.reqs)
  {
    ActOn(cfg, w, a, d);
    var n := w.nodes[d];
    assert NodeInv(n);
    match a
    case AReq(d', me, c) =>
      if d' == d && me < |n.sys.reqs| && !OnEntry(n.sys.reqs[me]) {
        OffEntry(cfg, n, me, c);
      }
    case AClose(_, _) =>
    case AExpire =>
      if |w.queue| > 0 && w.queue[0] == d {
        assert w.queue[0] in w.queue;
        ExpireNodeInv(n);
      }
  }

  lemma OffEntry(cfg: Config, n: Node, me: nat, c: Choice)
    requires NodeInv(n) && me < |n.sys.reqs| && !OnEntry(n.sys.reqs[me])
    ensures var s' := ReqStep(cfg, n, me, c).0.sys; s' == n.sys || Idles(n.sys, s', me)
  {
    var r := n.sys.reqs[me];
    if r.pc.GetDrc? {
      assert XprtOk(n, r);
    }
    assert n.sys.reqs[me := r] == n.sys.reqs;
  }

  ghost predicate AllServed(w: World) {
    forall d :: 0 <= d < |w.nodes| ==> Served(w.nodes[d].sys)
  }

  lemma ActServed(cfg: Config, w: World, a: Action)
    requires WorldInv(w) && AllServed(w)
    ensures AllServed(Act(cfg, w, a))
  {
    var w' := Act(cfg, w, a);
    forall d | 0 <= d < |w'.nodes| ensures Served(w'.nodes[d].sys) {
      assert |w'.nodes| == |w.nodes|;
      ActCases(cfg, w, a, d);
      var s, s' := w.nodes[d].sys, w'.nodes[d].sys;
      assert Served(s);
      if s' != s && a.AReq? && a.me < |s.reqs| {
        if OnEntry(s.reqs[a.me]) && s' == Move(cfg, s, a.me, a.c.rc) {
          MoveServed(cfg, s, a.me, a.c.rc);
        } else {
          forall e | e in s'.k.entries ensures ServedAt(s', e) {
            assert ServedAt(s, e);
            IdlesActive(s, s', a.me, e);
          }
        }
      }
    }
  }

  /** In every reachable state, for every waiting duplicate whose entry was not lost, a request
      is at work on the entry: one that will complete it, hand it on or wake the next. */
  lemma {:induction false} NobodyForgotten(cfg: Config, w: World, acts: seq<Action>)
    requires WorldInv(w) && AllServed(w)
    ensures AllServed(After(cfg, w, acts))
    decreases |acts|
  {
    if |acts| != 0 {
      ActServed(cfg, w, acts[0]);
      ActInv(cfg, w, acts[0]);
      NobodyForgotten(cfg, Act(cfg, w, acts[0]), acts[1..]);
    }
  }

  /** Request `i` waits on an entry that nobody works on. */
  ghost predicate Stranded(s: Sys, e: nat, i: nat) {
    && i < |s.reqs| && s.reqs[i].pc.Suspended? && s.reqs[i].dv == e
    && e in s.k.entries && Sum(s.reqs, ActiveOf(e)) == 0
  }

  /** A waiting duplicate has someone at work for it, in every reachable state, unless its entry
      was lost. */
  lemma StrandedOnlyIfLost(cfg: Config, w0: World, acts: seq<Action>, d: nat, e: nat, i: nat)
    requires Init(w0)
    ensures var w := Reached(cfg, w0, acts);
      d < |w.nodes| && Stranded(w.nodes[d].sys, e, i) ==>
        w.nodes[d].sys.k.entries[e].lost && !w.nodes[d].sys.k.entries[e].complete
  {
    InitInv(w0);
    assert AllServed(w0) by {
      forall d | 0 <= d < |w0.nodes| ensures Served(w0.nodes[d].sys) {
        assert InitNode(w0.nodes[d]);
      }
    }
    NobodyForgotten(cfg, w0, acts);
    var w := Reached(cfg, w0, acts);
    if d < |w.nodes| && Stranded(w.nodes[d].sys, e, i) {
      var s := w.nodes[d].sys;
      assert NodeInv(w.nodes[d]) && Served(s);
      assert Waits(s, i) && ServedAt(s, e) && EntryOk(s.k.entries[e]);
    }
  }

  lemma MoveKeepsStranded(cfg: Config, s: Sys, me: nat, rc: Rc, e: nat, i: nat)
    requires Inv(s) && me < |s.reqs| && OnEntry(s.reqs[me])
    requires Stranded(s, e, i) && s.k.entries[e].lost
    ensures var s' := Move(cfg, s, me, rc);
      Stranded(s', e, i) && s'.k.entries[e].lost
  {
    SumZeroAll(s.reqs, ActiveOf(e));
    Present(s, me);
    if s.reqs[me].pc == Rele(WakeNext) {
      WakeElsewhere(s, me, e, i);
    } else {
      GoodKeepsStranded(cfg, s, me, rc, e, i);
    }
    LostStep(cfg, s, me, rc, e);
  }

  lemma GoodKeepsStranded(cfg: Config, s: Sys, me: nat, rc: Rc, e: nat, i: nat)
    requires Inv(s) && me < |s.reqs| && OnEntry(s.reqs[me]) && s.reqs[me].pc != Rele(WakeNext)
    requires Stranded(s, e, i) && s.k.entries[e].lost
    ensures Stranded(Move(cfg, s, me, rc), e, i)
  {
    var s' := Move(cfg, s, me, rc);
    MoveGood(cfg, s, me, rc);
    BooksKept(s, s'.k, me, s'.reqs[me]);
    Present(s', i);
    assert EntryOk(s.k.entries[e]) && EntryOk(s'.k.entries[e]);
    LostStep(cfg, s, me, rc, e);
    assert ActiveStep(s.k, s.reqs[me], s'.k, s'.reqs[me], e);
    SumUpdate(s.reqs, me, s'.reqs[me], ActiveOf(e));
    SumNonNegative(s'.reqs, ActiveOf(e));
  }

  /** Waking a duplicate of another entry. */
  lemma WakeElsewhere(s: Sys, me: nat, e: nat, i: nat)
    requires Inv(s) && me < |s.reqs| && s.reqs[me].pc == Rele(WakeNext) && s.reqs[me].dv != e
    requires Stranded(s, e, i)
    ensures s.reqs[me].dv in s.k.entries && QueueOk(s, s.reqs[me].dv)
    ensures Stranded(Wake(s, me), e, i)
  {
    Present(s, me);
    assert QueueOk(s, s.reqs[me].dv);
    if Wakes(s, me) {
      WakeIsWakeStep(s, me);
      WakeSums(s, me, Wake(s, me), s.k.entries[s.reqs[me].dv].dup.queue[0], e);
    } else {
      SumUpdate(s.reqs, me, Wake(s, me).reqs[me], ActiveOf(e));
    }
  }

  lemma ActKeepsStranded(cfg: Config, w: World, a: Action, d: nat, e: nat, i: nat)
    requires WorldInv(w) && d < |w.nodes|
    requires Stranded(w.nodes[d].sys, e, i) && w.nodes[d].sys.k.entries[e].lost
    ensures var w' := Act(cfg, w, a);
      && |w'.nodes| == |w.nodes|
      && Stranded(w'.nodes[d].sys, e, i) && w'.nodes[d].sys.k.entries[e].lost
  {
    ActCases(cfg, w, a, d);
    var s, s' := w.nodes[d].sys, Act(cfg, w, a).nodes[d].sys;
    if w.nodes[d].h.recycle {
      assert NodeInv(w.nodes[d]);
      QueuedNodeFacts(w.nodes[d]);
      assert DrcPart(s.reqs[i]) == 0;
    } else if s' != s {
      if OnEntry(s.reqs[a.me]) && s' == Move(cfg, s, a.me, a.c.rc) {
        MoveKeepsStranded(cfg, s, a.me, a.c.rc, e, i);
      } else {
        IdlesActive(s, s', a.me, e);
      }
    }
  }

  /** A duplicate that waits on a lost entry waits for ever: in every later state of every
      schedule it is still suspended, unanswered, with nobody at work for it. */
  lemma {:induction false} StrandedForEver(cfg: Config, w: World, acts: seq<Action>, d: nat, e: nat, i: nat)
    requires WorldInv(w) && d < |w.nodes|
    requires Stranded(w.nodes[d].sys, e, i) && w.nodes[d].sys.k.entries[e].lost
    ensures var w' := After(cfg, w, acts);
      |w'.nodes| == |w.nodes| && Stranded(w'.nodes[d].sys, e, i)
    decreases |acts|
  {
    if |acts| != 0 {
      ActKeepsStranded(cfg, w, acts[0], d, e, i);
      ActInv(cfg, w, acts[0]);
      StrandedForEver(cfg, Act(cfg, w, acts[0]), acts[1..], d, e, i);
    }
  }

  /** A resumed duplicate runs the request again or goes away unanswered; the branch that
      would send the answer again is never taken. */
  lemma ResumedNeverResends(cfg: Config, w0: World, acts: seq<Action>, d: nat, me: nat, c: Choice)
    requires Init(w0)
    ensures var w := Reached(cfg, w0, acts);
      d < |w.nodes| && me < |w.nodes[d].sys.reqs| && w.nodes[d].sys.reqs[me].pc == Run(Resumed) ==>
        var s := w.nodes[d].sys; var w' := Act(cfg, w, AReq(d, me, c));
        && s.reqs[me].dv in s.k.entries && s.k.entries[s.reqs[me].dv].rc != XPRT_DIED
        && |w'.nodes| == |w.nodes| && |w'.nodes[d].sys.reqs| == |s.reqs|
        && w'.nodes[d].sys.reqs[me].pc ==
             if Retry(s.k.entries[s.reqs[me].dv].rc) then Run(Executing) else Rele(WakeNext)
  {
    var w := Reached(cfg, w0, acts);
    if d < |w.nodes| && me < |w.nodes[d].sys.reqs| && w.nodes[d].sys.reqs[me].pc == Run(Resumed) {
      assert NodeInv(w.nodes[d]);
      assert ReqOk(w.nodes[d].sys.k, w.nodes[d].sys.reqs[me]);
    }
  }

  // ----- how much one finish retires -----------------------------------------------------------------

  /** Request `me` is in the retirement loop of nfs_dupreq_finish. */
  predicate Retiring(s: Sys, me: nat) {
    me < |s.reqs| && s.reqs[me].pc.Finish? && !s.reqs[me].pc.fin.Mark?
  }

  /** The entries it has retired in this finish. */
  function Retired(f: FinishPc): int
    requires !f.Mark?
  {
    if f.RetirePut? then f.n + 1 else f.n
  }

  /** How many more entries `me` retires in this finish, under a schedule. */
  ghost function Retires(cfg: Config, w: World, acts: seq<Action>, d: nat, me: nat): int
    requires WorldInv(w)
    decreases |acts|
  {
    if |acts| == 0 || d >= |w.nodes| || !Retiring(w.nodes[d].sys, me) then 0
    else
      ActInv(cfg, w, acts[0]);
      var w' := Act(cfg, w, acts[0]);
      B(|w'.nodes| == |w.nodes| && acts[0].AReq? && acts[0].d == d && acts[0].me == me
        && w'.nodes[d].sys.k.q != w.nodes[d].sys.k.q)
      + Retires(cfg, w', acts[1..], d, me)
  }

  lemma OthersLeaveFinishAlone(cfg: Config, w: World, a: Action, d: nat, me: nat)
    requires WorldInv(w) && d < |w.nodes| && Retiring(w.nodes[d].sys, me)
    requires !(a.AReq? && a.d == d && a.me == me)
    ensures |Act(cfg, w, a).nodes| == |w.nodes|
    ensures me < |Act(cfg, w, a).nodes[d].sys.reqs|
    ensures Act(cfg, w, a).nodes[d].sys.reqs[me] == w.nodes[d].sys.reqs[me]
  {
    ActCases(cfg, w, a, d);
    ActOn(cfg, w, a, d);
    var s, s' := w.nodes[d].sys, Act(cfg, w, a).nodes[d].sys;
    if a.AReq? && a.d == d && a.me < |s.reqs| && OnEntry(s.reqs[a.me]) && s' == Move(cfg, s, a.me, a.c.rc) {
      Present(s, a.me);
      if s.reqs[a.me].pc != Rele(WakeNext) {
        MoveGood(cfg, s, a.me, a.c.rc);
      } else if Wakes(s, a.me) {
        WakeIsWakeStep(s, a.me);
      }
    }
  }

  lemma OwnFinishStep(cfg: Config, w: World, d: nat, me: nat, c: Choice)
    requires WorldInv(w) && d < |w.nodes| && Retiring(w.nodes[d].sys, me)
    ensures var w' := Act(cfg, w, AReq(d, me, c)); var f := w.nodes[d].sys.reqs[me].pc.fin;
      && |w'.nodes| == |w.nodes| && Retired(f) <= MAX_RETRIES + 1
      && (w'.nodes[d].sys.k.q != w.nodes[d].sys.k.q ==> Retiring(w'.nodes[d].sys, me))
      && (Retiring(w'.nodes[d].sys, me) ==>
            Retired(w'.nodes[d].sys.reqs[me].pc.fin)
              == Retired(f) + B(w'.nodes[d].sys.k.q != w.nodes[d].sys.k.q))
  {
    var s := w.nodes[d].sys;
    assert NodeInv(w.nodes[d]);
    assert ReqOk(s.k, s.reqs[me]);
    Present(s, me);
  }

  /** One finish retires at most DUPREQ_MAX_RETRIES + 1 entries, whatever the other threads do in
      the meantime. */
  lemma {:induction false} FinishRetiresFew(cfg: Config, w: World, acts: seq<Action>, d: nat, me: nat)
    requires WorldInv(w) && d < |w.nodes| && Retiring(w.nodes[d].sys, me)
    ensures Retires(cfg, w, acts, d, me) + Retired(w.nodes[d].sys.reqs[me].pc.fin) <= 6
    decreases |acts|
  {
    OwnFinishStep(cfg, w, d, me, CHOICE);
    if |acts| != 0 {
      var w' := Act(cfg, w, acts[0]);
      ActInv(cfg, w, acts[0]);
      if acts[0].AReq? && acts[0].d == d && acts[0].me == me {
        OwnFinishStep(cfg, w, d, me, acts[0].c);
      } else {
        OthersLeaveFinishAlone(cfg, w, acts[0], d, me);
      }
      if Retiring(w'.nodes[d].sys, me) {
        FinishRetiresFew(cfg, w', acts[1..], d, me);
      }
    }
  }

  // ----- a schedule that strands a duplicate ---------------------------------------------------------

  const XID: Key := Key(7, 7)

  function ReqAt(pc: Pc): Req {
    Req(pc, 0, XID, 0)
  }

  /** The cache with the one entry. */
  function OneEntry(refcnt: int, dup: Dupes, lost: bool, retwnd: int): Cache {
    Cache([0], 1, map[XID := 0], map[0 := Entry(XID, refcnt, false, OK, dup, lost)], retwnd, 1)
  }

  const GONE: Req := ReqAt(Rele(DropEntry))
  const NONE: Dupes := Dupes(0, [], [], [])
  const ONE_WAITS: Dupes := Dupes(1, [1], [1], [])
  const ONE_RESUMED: Dupes := Dupes(1, [], [1], [1])

  /** Three copies of one request: the first runs, the second waits behind it, and the third
      comes when both are gone. The first finds its connection dead. */
  function Scene(step: nat): Sys
    requires step <= 7
  {
    var start, waits := ReqAt(Start), ReqAt(Suspended);
    if step == 0 then Sys(Cache([], 0, map[], map[], 0, 0), [start, start, start])
    else if step == 1 then Sys(OneEntry(2, NONE, false, 0), [ReqAt(Run(Executing)), start, start])
    else if step == 2 then Sys(OneEntry(3, ONE_WAITS, false, 16), [ReqAt(Run(Executing)), waits, start])
    else if step == 3 then
      Sys(OneEntry(3, ONE_WAITS, false, 16), [ReqAt(Finish(Mark(XPRT_DIED))), waits, start])
    else if step == 4 then Sys(OneEntry(3, ONE_WAITS, true, 16), [ReqAt(Rele(WakeNext)), waits, start])
    else if step == 5 then Sys(OneEntry(3, ONE_RESUMED, true, 16), [GONE, ReqAt(Run(Resumed)), start])
    else if step == 6 then Sys(OneEntry(3, ONE_RESUMED, true, 16), [GONE, ReqAt(Rele(WakeNext)), start])
    else Sys(OneEntry(3, ONE_RESUMED, true, 16), [GONE, GONE, start])
  }

  function Actor(step: nat): nat {
    if step == 1 || step == 5 || step == 6 then 1 else 0
  }

  /** Whose turn it is, and what it leads to. */
  ghost predicate SceneFollows(cfg: Config, step: nat)
    requires step < 7 && Inv(Scene(step))
  {
    && Actor(step) < |Scene(step).reqs| && OnEntry(Scene(step).reqs[Actor(step)])
    && Move(cfg, Scene(step), Actor(step), XPRT_DIED) == Scene(step + 1)
  }

  lemma Start0(cfg: Config)
    requires Inv(Scene(0))
    ensures SceneFollows(cfg, 0)
  {
    var s' := Move(cfg, Scene(0), 0, XPRT_DIED);
    assert s'.k.q == Scene(1).k.q;
    assert s'.k.table == Scene(1).k.table;
    assert s'.k.entries == Scene(1).k.entries;
  }

  lemma Start1(cfg: Config)
    requires Inv(Scene(1))
    ensures SceneFollows(cfg, 1)
  {
    var s' := Move(cfg, Scene(1), 1, XPRT_DIED);
    assert s'.k.entries[0].dup == Scene(2).k.entries[0].dup;
    assert s'.k.entries == Scene(2).k.entries;
  }

  lemma Run2(cfg: Config)
    requires Inv(Scene(2))
    ensures SceneFollows(cfg, 2)
  {
    Present(Scene(2), 0);
  }

  lemma Mark3(cfg: Config)
    requires Inv(Scene(3))
    ensures SceneFollows(cfg, 3)
  {
    Present(Scene(3), 0);
    var s' := Move(cfg, Scene(3), 0, XPRT_DIED);
    assert s'.k.entries == Scene(4).k.entries;
  }

  lemma Wake4(cfg: Config)
    requires Inv(Scene(4))
    ensures SceneFollows(cfg, 4)
  {
    var s := Scene(4);
    Present(s, 0);
    assert QueueOk(s, 0);
    var s' := Wake(s, 0);
    assert s'.k.entries[0].dup == Scene(5).k.entries[0].dup;
    assert s'.k.entries == Scene(5).k.entries;
  }

  lemma Resumed5(cfg: Config)
    requires Inv(Scene(5))
    ensures SceneFollows(cfg, 5)
  {
    Present(Scene(5), 1);
  }

  lemma Wake6(cfg: Config)
    requires Inv(Scene(6))
    ensures SceneFollows(cfg, 6)
  {
    Present(Scene(6), 1);
  }

  lemma Start7(cfg: Config)
    requires Inv(Scene(7))
    ensures Stranded(Move(cfg, Scene(7), 2, XPRT_DIED), 0, 2)
  {
    var s' := Move(cfg, Scene(7), 2, XPRT_DIED);
    SumZero(s'.reqs, ActiveOf(0));
  }

  lemma SceneFollowed(cfg: Config, step: nat)
    requires step < 7 && Inv(Scene(step))
    ensures SceneFollows(cfg, step)
  {
    match step
    case 0 => Start0(cfg);
    case 1 => Start1(cfg);
    case 2 => Run2(cfg);
    case 3 => Mark3(cfg);
    case 4 => Wake4(cfg);
    case 5 => Resumed5(cfg);
    case _ => Wake6(cfg);
  }

  const CHOICE: Choice := Choice(0, XID, XPRT_DIED)

  /** One client address, one connection, three requests to come. */
  const QUIET: World :=
    World([Node(Head(false, 0, false, 0),
                Sys(Cache([], 0, map[], map[], 0, 0), [ReqAt(Idle), ReqAt(Idle), ReqAt(Idle)]),
                [NoDrc])], [], 0)

  /** The three requests arrive and take their references on the DRC. */
  function Arrived(step: nat): Node
    requires step <= 6
  {
    var pcs := if step == 0 then (Idle, Idle, Idle) else if step == 1 then (GetDrc, Idle, Idle)
               else if step == 2 then (Start, Idle, Idle) else if step == 3 then (Start, GetDrc, Idle)
               else if step == 4 then (Start, Start, Idle) else if step == 5 then (Start, Start, GetDrc)
               else (Start, Start, Start);
    Node(if step < 2 then Head(false, 0, false, 0) else Head(true, 1 + step / 2, false, 0),
         Sys(Cache([], 0, map[], map[], 0, 0), [ReqAt(pcs.0), ReqAt(pcs.1), ReqAt(pcs.2)]),
         [if step < 2 then NoDrc else HasDrc])
  }

  lemma ArrivedStep(cfg: Config, w: World, step: nat)
    requires WorldInv(w) && step < 6 && w == World([Arrived(step)], [], 0)
    ensures Act(cfg, w, AReq(0, step / 2, CHOICE)) == World([Arrived(step + 1)], [], 0)
  {
    var n := w.nodes[0];
    assert NodeInv(n);
    var n' := ReqStep(cfg, n, step / 2, CHOICE).0;
    assert n'.sys.reqs == Arrived(step + 1).sys.reqs;
    assert n'.xprts == Arrived(step + 1).xprts;
  }

  lemma {:induction false} AfterThen(cfg: Config, w: World, acts: seq<Action>, a: Action)
    requires WorldInv(w)
    ensures After(cfg, w, acts + [a]) == Act(cfg, After(cfg, w, acts), a)
    decreases |acts|
  {
    if |acts| == 0 {
      ActInv(cfg, w, a);
      assert acts + [a] == [a];
    } else {
      ActInv(cfg, w, acts[0]);
      assert (acts + [a])[0] == acts[0] && (acts + [a])[1..] == acts[1..] + [a];
      AfterThen(cfg, Act(cfg, w, acts[0]), acts[1..], a);
    }
  }

  lemma {:induction false} AllArrive(cfg: Config, step: nat) returns (acts: seq<Action>)
    requires step <= 6
    ensures Init(QUIET) && Reached(cfg, QUIET, acts) == World([Arrived(step)], [], 0)
  {
    assert Init(QUIET);
    if step == 0 {
      acts := [];
    } else {
      acts := AllArrive(cfg, step - 1);
      InitInv(QUIET);
      var a := AReq(0, (step - 1) / 2, CHOICE);
      ArrivedStep(cfg, Reached(cfg, QUIET, acts), step - 1);
      AfterThen(cfg, QUIET, acts, a);
      acts := acts + [a];
    }
  }

  lemma MoveAct(cfg: Config, w: World, me: nat)
    requires WorldInv(w) && |w.nodes| == 1 && me < |w.nodes[0].sys.reqs|
    requires NodeInv(w.nodes[0]) && OnEntry(w.nodes[0].sys.reqs[me])
    ensures var w' := Act(cfg, w, AReq(0, me, CHOICE));
      |w'.nodes| == 1 && w'.nodes[0].sys == Move(cfg, w.nodes[0].sys, me, XPRT_DIED)
  {}

  lemma {:induction false} SceneReached(cfg: Config, step: nat) returns (acts: seq<Action>)
    requires step <= 7
    ensures Init(QUIET)
    ensures var w := Reached(cfg, QUIET, acts); |w.nodes| == 1 && w.nodes[0].sys == Scene(step)
  {
    if step == 0 {
      acts := AllArrive(cfg, 6);
    } else {
      acts := SceneReached(cfg, step - 1);
      InitInv(QUIET);
      var w := Reached(cfg, QUIET, acts);
      assert NodeInv(w.nodes[0]);
      SceneFollowed(cfg, step - 1);
      MoveAct(cfg, w, Actor(step - 1));
      AfterThen(cfg, QUIET, acts, AReq(0, Actor(step - 1), CHOICE));
      acts := acts + [AReq(0, Actor(step - 1), CHOICE)];
    }
  }

  /** A run, under any configuration, that leaves a duplicate waiting for nobody; by
      StrandedForEver it is never answered, although its request is still in the table. */
  lemma StrandedReachable(cfg: Config) returns (acts: seq<Action>)
    ensures Init(QUIET)
    ensures var w := Reached(cfg, QUIET, acts); |w.nodes| == 1 && Stranded(w.nodes[0].sys, 0, 2)
  {
    acts := SceneReached(cfg, 7);
    InitInv(QUIET);
    var w := Reached(cfg, QUIET, acts);
    assert NodeInv(w.nodes[0]);
    Start7(cfg);
    MoveAct(cfg, w, 2);
    AfterThen(cfg, QUIET, acts, AReq(0, 2, CHOICE));
    acts := acts + [AReq(0, 2, CHOICE)];
  }
}
