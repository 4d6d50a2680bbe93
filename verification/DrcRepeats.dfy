/** A request is executed once for each entry, and not once for each xid: an entry can leave the table
    while its request runs. */
module DrcRepeats {
  import opened DrcRecycle
  import opened DrcRuns
  import opened DrcSchedules
  import opened DupReq
  import opened Tally

  /** Two requests run the service function for entries of the same key. */
  predicate RunTwice(s: Sys, i: nat, j: nat) {
    && i < |s.reqs| && j < |s.reqs| && i != j
    && s.reqs[i].pc == Run(Executing) && s.reqs[j].pc == Run(Executing)
    && s.reqs[i].dv in s.k.entries && s.reqs[j].dv in s.k.entries
    && s.k.entries[s.reqs[i].dv].key == s.k.entries[s.reqs[j].dv].key
  }

  /** In every reachable state, if a request runs twice at once then one of the two entries has left
      the table before its request was done. */
  lemma TwiceOnlyIfGone(cfg: Config, w0: World, acts: seq<Action>, d: nat, i: nat, j: nat)
    requires Init(w0)
    ensures var w := Reached(cfg, w0, acts);
      d < |w.nodes| && RunTwice(w.nodes[d].sys, i, j) ==>
        var s := w.nodes[d].sys; var e, f := s.reqs[i].dv, s.reqs[j].dv;
        && e != f && !s.k.entries[e].complete && !s.k.entries[f].complete
        && !(InTable(s.k, e) && InTable(s.k, f))
  {
    InitInv(w0);
    var w := Reached(cfg, w0, acts);
    if d < |w.nodes| && RunTwice(w.nodes[d].sys, i, j) {
      var s := w.nodes[d].sys;
      assert NodeInv(w.nodes[d]);
      assert ReqOk(s.k, s.reqs[i]) && ReqOk(s.k, s.reqs[j]);
      assert ActiveOk(s, s.reqs[i].dv);
      if s.reqs[i].dv == s.reqs[j].dv {
        SumTwo(s.reqs, i, j, ActiveOf(s.reqs[i].dv));
      }
    }
  }

  /** How an entry leaves the table: a finish retires it from the head of the queue, complete or not,
      or its own request deletes it. */
  predicate TakesOut(s: Sys, me: nat, e: nat)
    requires me < |s.reqs|
  {
    var r := s.reqs[me];
    || (r.pc == Delete(LeaveTable) && r.dv == e)
    || (r.pc.Finish? && r.pc.fin.RetirePop? && s.k.q != [] && s.k.q[0] == e && e in s.k.entries
        && s.k.entries[e].key.hk == r.pc.fin.hk)
  }

  lemma LeavesTableIff(cfg: Config, s: Sys, me: nat, rc: Rc, e: nat)
    requires Inv(s) && me < |s.reqs| && OnEntry(s.reqs[me]) && InTable(s.k, e)
    ensures !InTable(Move(cfg, s, me, rc).k, e) <==> TakesOut(s, me, e)
  {
    match s.reqs[me].pc
    case Start => StartTable(cfg, s, me, e);
    case Finish(_) => FinishTable(cfg, s, me, e);
    case Delete(_) => DeleteTable(s, me, e);
    case Rele(_) => ReleTable(cfg, s, me, rc, e);
    case _ =>
  }

  lemma StartTable(cfg: Config, s: Sys, me: nat, e: nat)
    requires CacheOk(s.k) && me < |s.reqs| && s.reqs[me].pc.Start? && InTable(s.k, e)
    ensures var r := s.reqs[me];
      InTable((if r.key in s.k.table then StartHit(cfg, s.k, r, me) else StartNew(s.k, r)).0, e)
  {}

  lemma ReleTable(cfg: Config, s: Sys, me: nat, rc: Rc, e: nat)
    requires Inv(s) && me < |s.reqs| && OnEntry(s.reqs[me]) && s.reqs[me].pc.Rele? && InTable(s.k, e)
    ensures InTable(Move(cfg, s, me, rc).k, e)
  {
    Present(s, me);
    if Wakes(s, me) {
      WakeIsWakeStep(s, me);
      var s' := Wake(s, me);
      assert WakeEntry(s.k.entries[e], s'.k.entries[e], e == s.reqs[me].dv);
    }
  }

  lemma FinishTable(cfg: Config, s: Sys, me: nat, e: nat)
    requires Inv(s) && me < |s.reqs| && s.reqs[me].pc.Finish? && InTable(s.k, e)
    ensures s.reqs[me].dv in s.k.entries
    ensures !InTable(FinishNext(cfg, s.k, s.reqs[me]).0, e) <==> TakesOut(s, me, e)
  {
    Present(s, me);
    if s.k.q != [] {
      assert s.k.q[0] in s.k.q;
      assert InTable(s.k, s.k.q[0]);
    }
  }

  lemma DeleteTable(s: Sys, me: nat, e: nat)
    requires Inv(s) && me < |s.reqs| && s.reqs[me].pc.Delete? && InTable(s.k, e)
    ensures s.reqs[me].dv in s.k.entries
    ensures !InTable(DeleteNext(s.k, s.reqs[me]).0, e) <==> TakesOut(s, me, e)
  {
    Present(s, me);
  }

  // ----- what must not leave the table -----------------------------------------------------------------

  /** The request executes its entry, or what is left to do on the entry will lead to someone that
      does: a status that says "again" is set, or about to be, and a duplicate is there to see it. */
  predicate HotReq(v: Entry, r: Req) {
    match r.pc
    case Run(p) => p.Executing? || (p.Resumed? && Retry(v.rc))
    case Finish(f) => f == Mark(XPRT_DIED) && v.dup.queue != [] && Retry(v.rc)
    case Delete(d) => v.dup.queue != [] && (d.Check? || Retry(v.rc))
    case Rele(l) => l.WakeNext? && v.dup.queue != [] && Retry(v.rc)
    case _ => false
  }

  predicate HotAt(s: Sys, e: nat, i: nat) {
    && e in s.k.entries && i < |s.reqs| && s.reqs[i].dv == e && Attached(s.reqs[i])
    && HotReq(s.k.entries[e], s.reqs[i])
  }

  ghost predicate Hot(s: Sys, e: nat) {
    exists i: nat :: HotAt(s, e, i)
  }

  /** No entry that is out of the table will be executed. */
  ghost predicate OutIsCold(s: Sys) {
    forall e: nat :: e in s.k.entries && !InTable(s.k, e) ==> !Hot(s, e)
  }

  /** The step takes an entry out of the table that is, or will be, executed. */
  ghost predicate TakesHotOut(s: Sys, me: nat)
    requires me < |s.reqs|
  {
    exists e: nat :: InTable(s.k, e) && TakesOut(s, me, e) && Hot(s, e)
  }

  /** A finish takes out a hot entry only if it retires an incomplete one, a delete iff a duplicate has come
      to wait on an entry whose status says "again". */
  lemma HotGuards(s: Sys, me: nat, e: nat)
    requires Inv(s) && me < |s.reqs| && InTable(s.k, e) && TakesOut(s, me, e)
    ensures s.reqs[me].pc.Finish? && Hot(s, e) ==> !s.k.entries[e].complete
    ensures s.reqs[me].pc.Delete? ==> (Hot(s, e) <==> s.k.entries[e].dup.queue != [] && Retry(s.k.entries[e].rc))
  {
    Present(s, me);
    var v := s.k.entries[e];
    assert EntryOk(v) && ActiveOk(s, e) && ReqOk(s.k, s.reqs[me]);
    if Hot(s, e) {
      var i: nat :| HotAt(s, e, i);
      assert ReqOk(s.k, s.reqs[i]);
      if s.reqs[me].pc.Delete? && i != me {
        SumTwo(s.reqs, me, i, ActiveOf(e));
      }
    }
    if s.reqs[me].pc.Delete? && v.dup.queue != [] && Retry(v.rc) {
      assert HotAt(s, e, me);
    }
  }

  /** As seen from entry `e`, on which the step is not that of a new duplicate. */
  predicate ColdStep(v: Entry, v': Entry, r: Req, r': Req, mine: bool) {
    && (!mine ==> v'.rc == v.rc && v'.dup == v.dup)
    && (Retry(v'.rc) ==> Retry(v.rc)) && (v'.dup.queue != [] ==> v.dup.queue != [])
    && (mine && !HotReq(v, r) ==> !HotReq(v', r'))
  }

  lemma FinishCold(cfg: Config, s: Sys, me: nat, e: nat)
    requires Inv(s) && me < |s.reqs| && s.reqs[me].pc.Finish? && e in s.k.entries
    ensures s.reqs[me].dv in s.k.entries
    ensures var n := FinishNext(cfg, s.k, s.reqs[me]);
      e in n.0.entries ==> ColdStep(s.k.entries[e], n.0.entries[e], s.reqs[me], n.1, s.reqs[me].dv == e)
  {
    Present(s, me);
    assert ReqOk(s.k, s.reqs[me]) && EntryOk(s.k.entries[s.reqs[me].dv]);
  }

  lemma DeleteCold(s: Sys, me: nat, e: nat)
    requires Inv(s) && me < |s.reqs| && s.reqs[me].pc.Delete? && e in s.k.entries
    requires s.reqs[me].dv == e ==> !HotReq(s.k.entries[e], s.reqs[me])
    ensures s.reqs[me].dv in s.k.entries
    ensures var n := DeleteNext(s.k, s.reqs[me]);
      e in n.0.entries ==> ColdStep(s.k.entries[e], n.0.entries[e], s.reqs[me], n.1, s.reqs[me].dv == e)
  {
    Present(s, me);
  }

  /** A colder entry is not hot to any request that has not moved. */
  lemma StaysCold(v: Entry, v': Entry, r: Req)
    requires (Retry(v'.rc) ==> Retry(v.rc)) && (v'.dup.queue != [] ==> v.dup.queue != []) && !HotReq(v, r)
    ensures !HotReq(v', r)
  {}

  /** One request has moved, and nobody was woken. */
  lemma MovedCold(s: Sys, s': Sys, me: nat, e: nat)
    requires me < |s.reqs| == |s'.reqs| && s'.reqs == s.reqs[me := s'.reqs[me]]
    requires e in s.k.entries && e in s'.k.entries && !Hot(s, e)
    requires Attached(s'.reqs[me]) && s'.reqs[me].dv == e ==> Attached(s.reqs[me]) && s.reqs[me].dv == e
    requires ColdStep(s.k.entries[e], s'.k.entries[e], s.reqs[me], s'.reqs[me], Attached(s.reqs[me]) && s.reqs[me].dv == e)
    ensures !Hot(s', e)
  {
    forall i: nat ensures !HotAt(s', e, i) {
      assert !HotAt(s, e, i);
      if i < |s.reqs| && i != me && s.reqs[i].dv == e && Attached(s.reqs[i]) {
        StaysCold(s.k.entries[e], s'.k.entries[e], s.reqs[i]);
      }
    }
  }

  lemma WakeCold(s: Sys, me: nat, e: nat)
    requires Inv(s) && Wakes(s, me) && e in s.k.entries && !Hot(s, e)
    ensures QueueOk(s, s.reqs[me].dv) && (e in Wake(s, me).k.entries ==> !Hot(Wake(s, me), e))
  {
    WakeIsWakeStep(s, me);
    var s' := Wake(s, me);
    var v, v' := s.k.entries[e], s'.k.entries[e];
    assert WakeEntry(v, v', e == s.reqs[me].dv);
    forall i: nat ensures !HotAt(s', e, i) {
      assert !HotAt(s, e, i) && !HotAt(s, e, me);
      if i < |s.reqs| && i != me && s.reqs[i].dv == e && Attached(s.reqs[i]) && s'.reqs[i] == s.reqs[i] {
        StaysCold(v, v', s.reqs[i]);
      }
    }
  }

  lemma RunCold(k: Cache, r: Req, rc: Rc, v: Entry)
    requires r.pc.Run? && r.dv in k.entries && v == k.entries[r.dv] && EntryOk(v)
    requires r.pc.run == Replay ==> v.complete
    ensures !HotReq(v, r) ==> !HotReq(v, RunNext(k, r, rc)) && RunNext(k, r, rc).dv == r.dv
  {}

  /** What is cold stays cold, but for a new duplicate. */
  lemma ColdStays(cfg: Config, s: Sys, me: nat, rc: Rc, e: nat)
    requires Inv(s) && me < |s.reqs| && OnEntry(s.reqs[me]) && !s.reqs[me].pc.Start?
    requires e in s.k.entries && !Hot(s, e)
    ensures var s' := Move(cfg, s, me, rc); e in s'.k.entries ==> !Hot(s', e)
  {
    Present(s, me);
    var r, s' := s.reqs[me], Move(cfg, s, me, rc);
    assert !HotAt(s, e, me);
    if e in s'.k.entries {
      if Wakes(s, me) {
        WakeCold(s, me, e);
      } else {
        if r.pc.Run? {
          assert ReqOk(s.k, r) && EntryOk(s.k.entries[r.dv]);
          RunCold(s.k, r, rc, s.k.entries[r.dv]);
        } else if r.pc.Finish? {
          FinishCold(cfg, s, me, e);
        } else if r.pc.Delete? {
          DeleteCold(s, me, e);
        }
        MovedCold(s, s', me, e);
      }
    }
  }

  lemma StartCold(cfg: Config, s: Sys, me: nat, rc: Rc, e: nat)
    requires Inv(s) && me < |s.reqs| && s.reqs[me].pc.Start?
    requires e in s.k.entries && !Hot(s, e) && !InTable(s.k, e)
    ensures var s' := Move(cfg, s, me, rc); e in s'.k.entries ==> !Hot(s', e)
  {
    var s' := Move(cfg, s, me, rc);
    assert e < s.k.nextId;
    if e in s'.k.entries {
      MovedCold(s, s', me, e);
    }
  }

  lemma MoveCold(cfg: Config, s: Sys, me: nat, rc: Rc)
    requires Inv(s) && me < |s.reqs| && OnEntry(s.reqs[me]) && OutIsCold(s) && !TakesHotOut(s, me)
    ensures OutIsCold(Move(cfg, s, me, rc))
  {
    var s' := Move(cfg, s, me, rc);
    forall e: nat | e in s'.k.entries && !InTable(s'.k, e) ensures !Hot(s', e) {
      OnlyNewEnter(cfg, s, me, rc, e);
      if InTable(s.k, e) {
        LeavesTableIff(cfg, s, me, rc, e);
        assert TakesOut(s, me, e);
      }
      if s.reqs[me].pc.Start? {
        StartCold(cfg, s, me, rc, e);
      } else {
        ColdStays(cfg, s, me, rc, e);
      }
    }
  }

  /** A new entry is in the table. */
  lemma OnlyNewEnter(cfg: Config, s: Sys, me: nat, rc: Rc, e: nat)
    requires Inv(s) && me < |s.reqs| && OnEntry(s.reqs[me])
    ensures var s' := Move(cfg, s, me, rc); e in s'.k.entries && !InTable(s'.k, e) ==> e in s.k.entries
  {
    Present(s, me);
    match s.reqs[me].pc
    case Rele(_) =>
      if Wakes(s, me) {
        WakeIsWakeStep(s, me);
      }
    case _ =>
  }

  // ----- over runs --------------------------------------------------------------------------------------

  ghost predicate AllCold(w: World) {
    forall d :: 0 <= d < |w.nodes| ==> OutIsCold(w.nodes[d].sys)
  }

  ghost predicate HotAct(w: World, a: Action) {
    && a.AReq? && a.d < |w.nodes| && a.me < |w.nodes[a.d].sys.reqs| && OnEntry(w.nodes[a.d].sys.reqs[a.me])
    && TakesHotOut(w.nodes[a.d].sys, a.me)
  }

  lemma IdlesCold(s: Sys, s': Sys, me: nat)
    requires OutIsCold(s) && Idles(s, s', me)
    ensures OutIsCold(s')
  {
    forall e: nat | e in s'.k.entries && !InTable(s'.k, e) ensures !Hot(s', e) {
      assert !Hot(s, e);
      forall i: nat ensures !HotAt(s', e, i) {
        assert !HotAt(s, e, i);
      }
    }
  }

  lemma ActColdAt(cfg: Config, w: World, a: Action, d: nat)
    requires WorldInv(w) && d < |w.nodes| && OutIsCold(w.nodes[d].sys) && !HotAct(w, a)
    ensures |Act(cfg, w, a).nodes| == |w.nodes| && OutIsCold(Act(cfg, w, a).nodes[d].sys)
  {
    var w' := Act(cfg, w, a);
    ActCases(cfg, w, a, d);
    ActOn(cfg, w, a, d);
    var s, s' := w.nodes[d].sys, w'.nodes[d].sys;
    if s' != s && a.AReq? && a.me < |s.reqs| {
      if OnEntry(s.reqs[a.me]) && s' == Move(cfg, s, a.me, a.c.rc) {
        MoveCold(cfg, s, a.me, a.c.rc);
      } else {
        IdlesCold(s, s', a.me);
      }
    }
  }

  lemma ActCold(cfg: Config, w: World, a: Action)
    requires WorldInv(w) && AllCold(w) && !HotAct(w, a)
    ensures AllCold(Act(cfg, w, a))
  {
    var w' := Act(cfg, w, a);
    forall d | 0 <= d < |w'.nodes| ensures OutIsCold(w'.nodes[d].sys) {
      assert |w'.nodes| == |w.nodes|;
      assert OutIsCold(w.nodes[d].sys);
      ActColdAt(cfg, w, a, d);
    }
  }

  /** No step of the schedule takes a hot entry out of the table. */
  ghost predicate NoHotOut(cfg: Config, w: World, acts: seq<Action>)
    requires WorldInv(w)
    decreases |acts|
  {
    |acts| == 0 || (!HotAct(w, acts[0]) && (ActInv(cfg, w, acts[0]); NoHotOut(cfg, Act(cfg, w, acts[0]), acts[1..])))
  }

  lemma {:induction false} ColdAfter(cfg: Config, w: World, acts: seq<Action>)
    requires WorldInv(w) && AllCold(w) && NoHotOut(cfg, w, acts)
    ensures AllCold(After(cfg, w, acts))
    decreases |acts|
  {
    if |acts| != 0 {
      ActCold(cfg, w, acts[0]);
      ActInv(cfg, w, acts[0]);
      ColdAfter(cfg, Act(cfg, w, acts[0]), acts[1..]);
    }
  }

  ghost predicate NoneHotOut(cfg: Config, w0: World, acts: seq<Action>)
    requires Init(w0)
  {
    InitInv(w0);
    NoHotOut(cfg, w0, acts)
  }

  /** In every run in which no hot entry is taken out of the table, no request is ever executed twice at
      once. */
  lemma OnceAtATime(cfg: Config, w0: World, acts: seq<Action>, d: nat, i: nat, j: nat)
    requires Init(w0) && NoneHotOut(cfg, w0, acts)
    ensures var w := Reached(cfg, w0, acts); d < |w.nodes| ==> !RunTwice(w.nodes[d].sys, i, j)
  {
    InitInv(w0);
    forall d | 0 <= d < |w0.nodes| ensures OutIsCold(w0.nodes[d].sys) {
      assert InitNode(w0.nodes[d]);
    }
    ColdAfter(cfg, w0, acts);
    TwiceOnlyIfGone(cfg, w0, acts, d, i, j);
    var w := Reached(cfg, w0, acts);
    if d < |w.nodes| && RunTwice(w.nodes[d].sys, i, j) {
      var s := w.nodes[d].sys;
      assert OutIsCold(s);
      assert HotAt(s, s.reqs[i].dv, i) && HotAt(s, s.reqs[j].dv, j);
    }
  }

  // ----- and if a hot entry is taken out -----------------------------------------------------------------

  /** Entry `e` is out of the table, no other is in for its key, and request `i` makes it hot. */
  predicate HotOutside(s: Sys, e: nat, i: nat) {
    HotAt(s, e, i) && !InTable(s.k, e) && s.k.entries[e].key !in s.k.table
  }

  lemma HotAfter(cfg: Config, s: Sys, me: nat, rc: Rc, e: nat, i: nat)
    requires Inv(s) && me < |s.reqs| && OnEntry(s.reqs[me]) && InTable(s.k, e) && TakesOut(s, me, e) && HotAt(s, e, i)
    ensures HotOutside(Move(cfg, s, me, rc), e, i)
  {
    Present(s, me);
    assert ReqOk(s.k, s.reqs[me]) && ReqOk(s.k, s.reqs[i]) && EntryOk(s.k.entries[e]);
    if i != me && s.reqs[me].pc.Delete? {
      assert ActiveOk(s, e);
      SumTwo(s.reqs, me, i, ActiveOf(e));
    }
  }

  /** How far the request is from the execution of its entry. */
  function Rank(r: Req): nat {
    match r.pc
    case Run(p) => if p.Executing? then 0 else 1
    case Rele(_) => 2
    case _ => 3
  }

  ghost predicate IdleSame(s: Sys, s': Sys) {
    |s'.reqs| == |s.reqs| && forall j :: 0 <= j < |s.reqs| && s.reqs[j].pc.Idle? ==> s'.reqs[j] == s.reqs[j]
  }

  /** One step nearer. */
  lemma HotMove(cfg: Config, s: Sys, rc: Rc, e: nat, i: nat) returns (i': nat)
    requires Inv(s) && HotOutside(s, e, i) && s.reqs[i].pc != Run(Executing)
    ensures OnEntry(s.reqs[i])
    ensures var s' := Move(cfg, s, i, rc);
      && HotOutside(s', e, i') && Rank(s'.reqs[i']) < Rank(s.reqs[i]) && IdleSame(s, s')
      && s'.k.entries[e].key == s.k.entries[e].key
  {
    Present(s, i);
    assert ReqOk(s.k, s.reqs[i]) && EntryOk(s.k.entries[e]) && BookOk(s, e);
    if Wakes(s, i) {
      WakeIsWakeStep(s, i);
      i' := s.k.entries[e].dup.queue[0];
      assert WakeEntry(s.k.entries[e], Wake(s, i).k.entries[e], true);
    } else {
      i' := i;
      if s.reqs[i].pc.Delete? {
        HotDelete(s, e, i);
      }
    }
  }

  lemma HotDelete(s: Sys, e: nat, i: nat)
    requires Inv(s) && HotOutside(s, e, i) && s.reqs[i].pc.Delete?
    ensures var n := DeleteNext(s.k, s.reqs[i]);
      && n.1 == Goto(s.reqs[i], Rele(WakeNext)) && e in n.0.entries && n.0.table == s.k.table && n.0.q == s.k.q
      && HotReq(n.0.entries[e], n.1) && n.0.entries[e].key == s.k.entries[e].key
  {
    Present(s, i);
    PresentAt(s, i, e);
    assert ReqOk(s.k, s.reqs[i]);
    assert BookOk(s, e);
  }

  /** A node with a hot entry outside its table, with room for one more request. */
  ghost predicate Ready(w: World, d: nat, e: nat, i: nat, j: nat, x: nat) {
    && d < |w.nodes| && HotOutside(w.nodes[d].sys, e, i)
    && j < |w.nodes[d].sys.reqs| && w.nodes[d].sys.reqs[j].pc.Idle?
    && x < |w.nodes[d].xprts| && w.nodes[d].xprts[x] != Closing
  }

  lemma HotAction(cfg: Config, w: World, d: nat, e: nat, i: nat, j: nat, x: nat, c: Choice) returns (i': nat)
    requires WorldInv(w) && Ready(w, d, e, i, j, x) && w.nodes[d].sys.reqs[i].pc != Run(Executing)
    ensures var w' := Act(cfg, w, AReq(d, i, c));
      && Ready(w', d, e, i', j, x) && Rank(w'.nodes[d].sys.reqs[i']) < Rank(w.nodes[d].sys.reqs[i])
  {
    assert NodeInv(w.nodes[d]);
    i' := HotMove(cfg, w.nodes[d].sys, c.rc, e, i);
  }

  lemma {:induction false} AfterBoth(cfg: Config, w: World, acts: seq<Action>, more: seq<Action>)
    requires WorldInv(w)
    ensures After(cfg, w, acts + more) == After(cfg, After(cfg, w, acts), more)
    decreases |acts|
  {
    if |acts| == 0 {
      assert acts + more == more;
    } else {
      ActInv(cfg, w, acts[0]);
      assert (acts + more)[1..] == acts[1..] + more;
      AfterBoth(cfg, Act(cfg, w, acts[0]), acts[1..], more);
    }
  }

  lemma OneAfter(cfg: Config, w: World, a: Action)
    requires WorldInv(w)
    ensures After(cfg, w, [a]) == Act(cfg, w, a)
  {
    ActInv(cfg, w, a);
    assert [a][1..] == [];
  }

  /** The step is the one that takes the head of the queue out, to keep the cache within its limit. */
  predicate Retires(w: World, a: Action) {
    && a.AReq? && a.d < |w.nodes| && a.me < |w.nodes[a.d].sys.reqs|
    && w.nodes[a.d].sys.reqs[a.me].pc.Finish? && w.nodes[a.d].sys.reqs[a.me].pc.fin.RetirePop?
  }

  /** No step of the schedule retires an entry. */
  ghost predicate NoneRetires(cfg: Config, w: World, acts: seq<Action>)
    requires WorldInv(w)
    decreases |acts|
  {
    |acts| == 0
    || (!Retires(w, acts[0]) && (ActInv(cfg, w, acts[0]); NoneRetires(cfg, Act(cfg, w, acts[0]), acts[1..])))
  }

  lemma NoneRetiresFrom(cfg: Config, w: World, acts: seq<Action>)
    requires WorldInv(w) && |acts| > 0 && !Retires(w, acts[0])
    requires WorldInv(Act(cfg, w, acts[0])) && NoneRetires(cfg, Act(cfg, w, acts[0]), acts[1..])
    ensures NoneRetires(cfg, w, acts)
  {}

  lemma RestOfBoth(acts: seq<Action>, more: seq<Action>)
    requires |acts| > 0
    ensures (acts + more)[0] == acts[0] && (acts + more)[1..] == acts[1..] + more
  {}

  lemma NoneRetiresRest(cfg: Config, w: World, acts: seq<Action>)
    requires WorldInv(w) && |acts| > 0 && NoneRetires(cfg, w, acts)
    ensures WorldInv(Act(cfg, w, acts[0])) && After(cfg, w, acts) == After(cfg, Act(cfg, w, acts[0]), acts[1..])
    ensures !Retires(w, acts[0]) && NoneRetires(cfg, Act(cfg, w, acts[0]), acts[1..])
  {
    ActInv(cfg, w, acts[0]);
  }

  lemma {:induction false} NoneRetiresTo(cfg: Config, w: World, acts: seq<Action>, w1: World, more: seq<Action>)
    requires WorldInv(w) && NoneRetires(cfg, w, acts) && w1 == After(cfg, w, acts)
    requires WorldInv(w1) && NoneRetires(cfg, w1, more)
    ensures NoneRetires(cfg, w, acts + more)
    decreases |acts|
  {
    if |acts| == 0 {
      assert acts + more == more;
    } else {
      NoneRetiresRest(cfg, w, acts);
      NoneRetiresTo(cfg, Act(cfg, w, acts[0]), acts[1..], w1, more);
      RestOfBoth(acts, more);
      NoneRetiresFrom(cfg, w, acts + more);
    }
  }

  lemma NotRetiring(cfg: Config, w: World, a: Action)
    requires WorldInv(w) && !Retires(w, a)
    ensures NoneRetires(cfg, w, [a])
  {
    ActInv(cfg, w, a);
    assert [a][1..] == [];
  }

  /** The steps that lead from a hot entry to its execution. */
  lemma {:induction false} HotRuns(cfg: Config, w: World, d: nat, e: nat, i: nat, j: nat, x: nat, c: Choice)
    returns (acts: seq<Action>, i': nat)
    requires WorldInv(w) && Ready(w, d, e, i, j, x)
    ensures var w' := After(cfg, w, acts);
      Ready(w', d, e, i', j, x) && w'.nodes[d].sys.reqs[i'].pc == Run(Executing)
    ensures NoneRetires(cfg, w, acts)
    decreases Rank(w.nodes[d].sys.reqs[i])
  {
    if w.nodes[d].sys.reqs[i].pc == Run(Executing) {
      acts, i' := [], i;
    } else {
      var a := AReq(d, i, c);
      var k := HotAction(cfg, w, d, e, i, j, x, c);
      ActInv(cfg, w, a);
      var rest;
      rest, i' := HotRuns(cfg, Act(cfg, w, a), d, e, k, j, x, c);
      acts := [a] + rest;
      assert acts[1..] == rest;
    }
  }

  /** The entry is executed outside the table, and a duplicate has come to `pc`. */
  ghost predicate Joining(w: World, d: nat, e: nat, i: nat, j: nat, x: nat, pc: Pc) {
    && d < |w.nodes| && HotOutside(w.nodes[d].sys, e, i) && i != j && j < |w.nodes[d].sys.reqs|
    && w.nodes[d].sys.reqs[i].pc == Run(Executing) && w.nodes[d].sys.reqs[j].pc == pc
    && w.nodes[d].sys.reqs[j].key == w.nodes[d].sys.k.entries[e].key && w.nodes[d].sys.reqs[j].xprt == x
    && x < |w.nodes[d].xprts| && w.nodes[d].xprts[x] != Closing
  }

  lemma JoinComes(cfg: Config, w: World, d: nat, e: nat, i: nat, j: nat, x: nat, c: Choice)
    requires WorldInv(w) && Ready(w, d, e, i, j, x) && w.nodes[d].sys.reqs[i].pc == Run(Executing)
    requires c.xprt == x && c.key == w.nodes[d].sys.k.entries[e].key
    ensures Joining(Act(cfg, w, AReq(d, j, c)), d, e, i, j, x, GetDrc)
  {
    assert NodeInv(w.nodes[d]);
  }

  lemma JoinGets(cfg: Config, w: World, d: nat, e: nat, i: nat, j: nat, x: nat, c: Choice)
    requires WorldInv(w) && Joining(w, d, e, i, j, x, GetDrc)
    ensures Joining(Act(cfg, w, AReq(d, j, c)), d, e, i, j, x, Start)
  {
    var n := w.nodes[d];
    assert NodeInv(n);
    Counted(n);
    assert DrcPart(n.sys.reqs[i]) == 1;
  }

  lemma JoinRuns(cfg: Config, w: World, d: nat, e: nat, i: nat, j: nat, x: nat, c: Choice)
    requires WorldInv(w) && Joining(w, d, e, i, j, x, Start)
    ensures RunTwice(Act(cfg, w, AReq(d, j, c)).nodes[d].sys, i, j)
  {
    var n := w.nodes[d];
    assert NodeInv(n);
    assert e < n.sys.k.nextId;
  }

  /** The duplicate comes while the entry is executed outside the table, and is executed too. */
  lemma Joined(cfg: Config, w: World, d: nat, e: nat, i: nat, j: nat, x: nat) returns (a: Action)
    requires WorldInv(w) && Ready(w, d, e, i, j, x) && w.nodes[d].sys.reqs[i].pc == Run(Executing)
    ensures var w' := After(cfg, w, [a] + [a] + [a]); d < |w'.nodes| && RunTwice(w'.nodes[d].sys, i, j)
    ensures NoneRetires(cfg, w, [a] + [a] + [a])
  {
    var c := Choice(x, w.nodes[d].sys.k.entries[e].key, OK);
    a := AReq(d, j, c);
    JoinComes(cfg, w, d, e, i, j, x, c);
    ActInv(cfg, w, a);
    var w2 := Act(cfg, w, a);
    JoinGets(cfg, w2, d, e, i, j, x, c);
    ActInv(cfg, w2, a);
    var w3 := Act(cfg, w2, a);
    JoinRuns(cfg, w3, d, e, i, j, x, c);
    OneAfter(cfg, w, a);
    AfterThen(cfg, w, [a], a);
    AfterThen(cfg, w, [a] + [a], a);
    NotRetiring(cfg, w, a);
    NotRetiring(cfg, w2, a);
    NotRetiring(cfg, w3, a);
    NoneRetiresTo(cfg, w, [a], w2, [a]);
    NoneRetiresTo(cfg, w, [a] + [a], w3, [a]);
  }

  /** From every state in which a hot entry is outside the table and no other has its key, with an idle
      request and a connection to come on, there is a continuation in which its request is executed twice
      at once. */
  lemma HotOutRepeats(cfg: Config, w: World, d: nat, e: nat, i: nat, j: nat, x: nat)
    returns (acts: seq<Action>, i': nat)
    requires WorldInv(w) && Ready(w, d, e, i, j, x)
    ensures var w' := After(cfg, w, acts); d < |w'.nodes| && RunTwice(w'.nodes[d].sys, i', j)
    ensures NoneRetires(cfg, w, acts)
  {
    acts, i' := HotRuns(cfg, w, d, e, i, j, x, CHOICE);
    var a := Joined(cfg, After(cfg, w, acts), d, e, i', j, x);
    AfterBoth(cfg, w, acts, [a] + [a] + [a]);
    NoneRetiresTo(cfg, w, acts, After(cfg, w, acts), [a] + [a] + [a]);
    acts := acts + ([a] + [a] + [a]);
  }

  lemma HotActReady(cfg: Config, w: World, a: Action, j: nat, x: nat) returns (e: nat, i: nat)
    requires WorldInv(w) && HotAct(w, a)
    requires j < |w.nodes[a.d].sys.reqs| && w.nodes[a.d].sys.reqs[j].pc.Idle?
    requires x < |w.nodes[a.d].xprts| && w.nodes[a.d].xprts[x] != Closing
    ensures Ready(Act(cfg, w, a), a.d, e, i, j, x)
  {
    var s := w.nodes[a.d].sys;
    assert NodeInv(w.nodes[a.d]);
    e :| InTable(s.k, e) && TakesOut(s, a.me, e) && Hot(s, e);
    i :| HotAt(s, e, i);
    HotAfter(cfg, s, a.me, a.c.rc, e, i);
    TakingLeavesIdle(cfg, s, a.me, a.c.rc, e, j);
  }

  /** ... so from every state that a step leads to which takes a hot entry out of the table. */
  lemma HotActRepeats(cfg: Config, w: World, a: Action, j: nat, x: nat) returns (acts: seq<Action>, i': nat)
    requires WorldInv(w) && HotAct(w, a)
    requires j < |w.nodes[a.d].sys.reqs| && w.nodes[a.d].sys.reqs[j].pc.Idle?
    requires x < |w.nodes[a.d].xprts| && w.nodes[a.d].xprts[x] != Closing
    ensures var w' := After(cfg, w, [a] + acts); a.d < |w'.nodes| && RunTwice(w'.nodes[a.d].sys, i', j)
    ensures !Retires(w, a) ==> NoneRetires(cfg, w, [a] + acts)
  {
    var e, i := HotActReady(cfg, w, a, j, x);
    ActInv(cfg, w, a);
    acts, i' := HotOutRepeats(cfg, Act(cfg, w, a), a.d, e, i, j, x);
    OneAfter(cfg, w, a);
    AfterBoth(cfg, w, [a], acts);
    if !Retires(w, a) {
      NotRetiring(cfg, w, a);
      NoneRetiresTo(cfg, w, [a], Act(cfg, w, a), acts);
    }
  }

  lemma TakingLeavesIdle(cfg: Config, s: Sys, me: nat, rc: Rc, e: nat, j: nat)
    requires Inv(s) && me < |s.reqs| && OnEntry(s.reqs[me]) && TakesOut(s, me, e)
    requires j < |s.reqs| && s.reqs[j].pc.Idle?
    ensures j < |Move(cfg, s, me, rc).reqs| && Move(cfg, s, me, rc).reqs[j].pc.Idle?
  {
    Present(s, me);
  }
}
