/** What becomes of a request: the four answers of nfs_dupreq_start, and that a request is let go of only
    after it was answered, ran, or waited for another that ran. */
module DrcAnswers {
  import opened DrcRecycle
  import opened DrcRuns
  import opened DupReq
  import opened Tally

  /** What a request finds under its key. */
  datatype Found = Absent | Busy(e: nat) | Full(e: nat) | Answered(e: nat)

  ghost function Find(k: Cache, key: Key): Found
    requires CacheWellFormed(k)
  {
    if key !in k.table then Absent
    else
      var e := k.table[key];
      if k.entries[e].complete then Answered(e) else if k.entries[e].dup.cnt < 3 then Busy(e) else Full(e)
  }

  ghost predicate CacheWellFormed(k: Cache) {
    forall key :: key in k.table ==> k.table[key] in k.entries
  }

  /** A start has four answers, one for each of what it can find: an unknown request is entered and run; the
      duplicate of a request in progress waits behind those before it, if they are fewer than three, and is
      dropped if they are not; and the duplicate of an answered request is answered from the cache. */
  lemma StartAnswers(cfg: Config, s: Sys, me: nat, rc: Rc)
    requires Inv(s) && me < |s.reqs| && s.reqs[me].pc == Start
    ensures CacheWellFormed(s.k)
    ensures var f, s' := Find(s.k, s.reqs[me].key), Move(cfg, s, me, rc); var r' := s'.reqs[me];
      && (r'.pc == Run(Executing) <==> f.Absent?) && (r'.pc == Suspended <==> f.Busy?)
      && (r'.pc == Idle <==> f.Full?) && (r'.pc == Run(Replay) <==> f.Answered?)
      && (f.Absent? ==> r'.dv !in s.k.entries && r'.dv in s'.k.entries && s'.k.entries[r'.dv].key == r'.key
                        && !s'.k.entries[r'.dv].complete && InTable(s'.k, r'.dv) && r'.dv in s'.k.q)
      && (f.Busy? ==> r'.dv == f.e && s'.k.entries[f.e].dup.queue == s.k.entries[f.e].dup.queue + [me])
      && (f.Answered? ==> r'.dv == f.e)
      && (!f.Absent? ==> s'.k.entries[f.e].dup.cnt == s.k.entries[f.e].dup.cnt + 1)
      && s'.k.retwnd == (if f.Absent? || f.Full? then s.k.retwnd
                         else if s.k.retwnd == 0 then 16
                         else if s.k.retwnd < cfg.maxsize then s.k.retwnd + 2 else s.k.retwnd)
      && r'.key == s.reqs[me].key && forall i :: 0 <= i < |s.reqs| && i != me ==> s'.reqs[i] == s.reqs[i]
  {}

  /** What the service function returns is what becomes of the entry. Dropped or refused, it is tried again by
      the next duplicate if one waits, with that status, and deleted if none does; not sent, it is left to the
      duplicates if any waits; and in all other cases it is complete, with what was returned. */
  lemma RunOutcome(cfg: Config, s: Sys, me: nat, rc: Rc, any: Rc)
    requires Inv(s) && me < |s.reqs| && s.reqs[me].pc == Run(Executing) && rc != ASYNC_WAIT
    ensures var s1 := Move(cfg, s, me, rc); var e := s.reqs[me].dv;
      && Inv(s1) && |s1.reqs| == |s.reqs| && OnEntry(s1.reqs[me]) && e in s.k.entries
      && var s2 := Move(cfg, s1, me, any); var waits := s.k.entries[e].dup.queue != [];
         && e in s2.k.entries && s2.reqs[me].dv == e
         && (if rc == DROP || rc == AUTH_ERR
             then && s2.k.entries[e] == (if waits then s.k.entries[e].(rc := rc) else s.k.entries[e])
                  && s2.reqs[me].pc == if waits then Rele(WakeNext) else Delete(LeaveQueue)
             else if rc == XPRT_DIED && waits
             then && s2.k.entries[e].complete == s.k.entries[e].complete && s2.k.entries[e].rc == s.k.entries[e].rc
                  && s2.reqs[me].pc == Rele(WakeNext)
             else && s2.k.entries[e] == s.k.entries[e].(complete := true, rc := rc)
                  && s2.reqs[me].pc == Finish(Retire(0)))
  {
    Present(s, me);
    MoveInv(cfg, s, me, rc);
  }

  // ----- over runs ------------------------------------------------------------------------------------------

  /** Request `me` of node `d` after the first `k` steps. */
  ghost predicate Is(cfg: Config, w0: World, acts: seq<Action>, d: nat, me: nat, k: nat, r: Req)
    requires Init(w0) && k <= |acts|
  {
    var w := Reached(cfg, w0, acts[..k]);
    d < |w.nodes| && me < |w.nodes[d].sys.reqs| && w.nodes[d].sys.reqs[me] == r
  }

  lemma PrefixStep(cfg: Config, w0: World, acts: seq<Action>, k: nat)
    requires Init(w0) && k < |acts|
    ensures Reached(cfg, w0, acts[..k + 1]) == Act(cfg, Reached(cfg, w0, acts[..k]), acts[k])
  {
    InitInv(w0);
    assert acts[..k + 1] == acts[..k] + [acts[k]];
    AfterThen(cfg, w0, acts[..k], acts[k]);
  }

  /** Where a request was that is now let go of: it was being answered from the cache, had waited, or had run
      and was finishing or deleting its entry. */
  predicate MayRelease(pc: Pc) {
    pc == Run(Replay) || pc == Run(Resumed) || pc.Finish? || pc.Delete?
  }

  lemma ReleaseWake(s: Sys, me: nat, i: nat)
    requires Inv(s) && me < |s.reqs| && s.reqs[me].pc == Rele(WakeNext) && i < |s.reqs|
    ensures s.reqs[me].dv in s.k.entries && forall j :: j in s.k.entries[s.reqs[me].dv].dup.queue ==> j < |s.reqs|
    ensures var s' := Wake(s, me);
      && |s'.reqs| == |s.reqs| && s'.reqs[i].dv == s.reqs[i].dv && (s'.reqs[i].pc.Rele? ==> s.reqs[i].pc.Rele?)
  {
    Present(s, me);
    assert QueueOk(s, s.reqs[me].dv);
  }

  lemma ReleaseMove(cfg: Config, s: Sys, me: nat, rc: Rc, i: nat)
    requires Inv(s) && me < |s.reqs| && OnEntry(s.reqs[me]) && i < |s.reqs|
    ensures var s' := Move(cfg, s, me, rc);
      && |s'.reqs| == |s.reqs|
      && (s'.reqs[i].pc.Rele? ==>
            s'.reqs[i].dv == s.reqs[i].dv && (s.reqs[i].pc.Rele? || MayRelease(s.reqs[i].pc)))
  {
    if s.reqs[me].pc == Rele(WakeNext) {
      ReleaseWake(s, me, i);
    }
  }

  /** Steps that are not on an entry let go of nothing. */
  lemma OffRelease(cfg: Config, n: Node, me: nat, c: Choice)
    requires NodeInv(n) && me < |n.sys.reqs| && !OnEntry(n.sys.reqs[me])
    ensures var s' := ReqStep(cfg, n, me, c).0.sys;
      && |s'.reqs| == |n.sys.reqs| && (forall i :: 0 <= i < |s'.reqs| && i != me ==> s'.reqs[i] == n.sys.reqs[i])
      && (s'.reqs[me].pc.Rele? ==> n.sys.reqs[me].pc.Rele? && s'.reqs[me].dv == n.sys.reqs[me].dv)
  {
    var r := n.sys.reqs[me];
    if r.pc.GetDrc? {
      assert XprtOk(n, r);
    }
  }

  lemma ReleaseAct(cfg: Config, w: World, a: Action, d: nat, i: nat)
    requires WorldInv(w) && d < |w.nodes|
    ensures var w' := Act(cfg, w, a); |w'.nodes| == |w.nodes| && |w'.nodes[d].sys.reqs| == |w.nodes[d].sys.reqs|
    ensures var w' := Act(cfg, w, a); i < |w.nodes[d].sys.reqs| && w'.nodes[d].sys.reqs[i].pc.Rele? ==>
      var r, r' := w.nodes[d].sys.reqs[i], w'.nodes[d].sys.reqs[i];
      r'.dv == r.dv && (r.pc.Rele? || MayRelease(r.pc))
  {
    var n := w.nodes[d];
    assert NodeInv(n);
    ActOn(cfg, w, a, d);
    ActCases(cfg, w, a, d);
    if a.AReq? && a.d == d && a.me < |n.sys.reqs| {
      if OnEntry(n.sys.reqs[a.me]) {
        if i < |n.sys.reqs| {
          ReleaseMove(cfg, n.sys, a.me, a.c.rc, i);
        }
      } else {
        OffRelease(cfg, n, a.me, a.c);
      }
    }
  }

  /** The request was let go of after a step of one of these kinds, and all through since. */
  ghost predicate ReleasedFrom(cfg: Config, w0: World, acts: seq<Action>, d: nat, me: nat, q: nat, m: nat, r: Req)
    requires Init(w0) && m <= |acts|
  {
    && q < m && Is(cfg, w0, acts, d, me, q, r) && MayRelease(r.pc)
    && forall p :: q < p <= m ==> Let(cfg, w0, acts, d, me, p)
  }

  ghost predicate Let(cfg: Config, w0: World, acts: seq<Action>, d: nat, me: nat, p: nat)
    requires Init(w0)
  {
    p <= |acts| && exists r :: Is(cfg, w0, acts, d, me, p, r) && r.pc.Rele?
  }

  lemma NobodyAtFirst(cfg: Config, w0: World, acts: seq<Action>, d: nat, me: nat, r: Req)
    requires Init(w0) && Is(cfg, w0, acts, d, me, 0, r)
    ensures r.pc == Idle
  {
    InitInv(w0);
    assert acts[..0] == [];
    assert InitNode(w0.nodes[d]);
  }

  lemma ReleaseAt(cfg: Config, w0: World, acts: seq<Action>, d: nat, me: nat, k: nat, r': Req) returns (r: Req)
    requires Init(w0) && k < |acts| && Is(cfg, w0, acts, d, me, k + 1, r') && r'.pc.Rele?
    ensures Is(cfg, w0, acts, d, me, k, r) && r.dv == r'.dv && (r.pc.Rele? || MayRelease(r.pc))
    ensures Let(cfg, w0, acts, d, me, k + 1)
  {
    var w := Reached(cfg, w0, acts[..k]);
    PrefixStep(cfg, w0, acts, k);
    ReleaseAct(cfg, w, acts[k], d, me);
    r := w.nodes[d].sys.reqs[me];
  }

  /** In every run, a request that is being let go of was, in its last step before that, answered from the
      cache, resumed after it had waited, or finishing or deleting the entry that it ran. */
  lemma {:induction false} ReleasedOnlyAfter(cfg: Config, w0: World, acts: seq<Action>, d: nat, me: nat, m: nat, r': Req)
    returns (q: nat, r: Req)
    requires Init(w0) && m <= |acts| && Is(cfg, w0, acts, d, me, m, r') && r'.pc.Rele?
    ensures ReleasedFrom(cfg, w0, acts, d, me, q, m, r) && r.dv == r'.dv
    decreases m
  {
    if m == 0 {
      NobodyAtFirst(cfg, w0, acts, d, me, r');
    } else {
      r := ReleaseAt(cfg, w0, acts, d, me, m - 1, r');
      if r.pc.Rele? {
        q, r := ReleasedOnlyAfter(cfg, w0, acts, d, me, m - 1, r);
      } else {
        q := m - 1;
      }
    }
  }

  /** In every run, what a start has found decides where its request is after it; an answered one is at once
      answered from the cache, on the entry that was found. */
  lemma StartInRun(cfg: Config, w0: World, acts: seq<Action>, d: nat, me: nat, k: nat, r: Req) returns (r': Req)
    requires Init(w0) && k < |acts| && Is(cfg, w0, acts, d, me, k, r) && r.pc == Start
    requires acts[k].AReq? && acts[k].d == d && acts[k].me == me
    ensures Is(cfg, w0, acts, d, me, k + 1, r')
    ensures var c := Reached(cfg, w0, acts[..k]).nodes[d].sys.k;
      && CacheWellFormed(c)
      && var f := Find(c, r.key);
         && (r'.pc == Run(Replay) <==> f.Answered?) && (f.Answered? ==> r'.dv == f.e)
         && (r'.pc == Suspended <==> f.Busy?) && (f.Busy? ==> r'.dv == f.e)
         && (r'.pc == Idle <==> f.Full?) && (r'.pc == Run(Executing) <==> f.Absent?)
  {
    var w := Reached(cfg, w0, acts[..k]);
    PrefixStep(cfg, w0, acts, k);
    assert NodeInv(w.nodes[d]);
    StartAnswers(cfg, w.nodes[d].sys, me, acts[k].c.rc);
    r' := Act(cfg, w, acts[k]).nodes[d].sys.reqs[me];
  }
}
