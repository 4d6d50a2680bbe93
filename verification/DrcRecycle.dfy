/** The per-connection (TCP) duplicate request caches: who refers to each, and the
    recycle queue a cache waits in when nobody does.

    There is one node for each client address. A node is live while its DRC is in
    tcp_drc_recycle_t; drc_free_expired makes it dead and a later connection from the
    same address makes a new one. Entries, requests and their steps are DupReq's. A step
    here is what a thread does from taking drc_st_mtx or drc_mtx to releasing the last
    of them; nfs_dupreq_put_drc lets go of both in between, and is two steps. */
module DrcRecycle {
  import opened Tally
  import opened DupReq

  /** xp_u2 of a connection: no DRC, a reference on one, or (closing) that reference
      given back as the last, with the DRC still to be queued. */
  datatype Xprt = NoDrc | HasDrc | Closing

  /** The DRC's own fields. `leaked` is history: a dropped duplicate keeps its
      reference, because nfs_dupreq_rele returns before nfs_dupreq_put_drc. */
  datatype Head = Head(live: bool, refcnt: int, recycle: bool, leaked: int)

  datatype Node = Node(h: Head, sys: Sys, xprts: seq<Xprt>)

  datatype QueueOp = Leave | Enqueue | Dequeue

  /** tcp_drc_recycle_q and its stored length, over all the nodes. */
  datatype World = World(nodes: seq<Node>, queue: seq<nat>, qlen: int)

  // ----- steps ------------------------------------------------------------------------

  function SetReq(n: Node, me: nat, r: Req): Node
    requires me < |n.sys.reqs|
  {
    n.(sys := n.sys.(reqs := n.sys.reqs[me := r]))
  }

  /** A request arrives on an open connection. */
  function Begin(n: Node, me: nat, x: nat, key: Key): Node
    requires me < |n.sys.reqs| && n.sys.reqs[me].pc == Idle
  {
    if x < |n.xprts| && n.xprts[x] != Closing then
      SetReq(n, me, Req(GetDrc, x, key, n.sys.reqs[me].dv))
    else n
  }

  /** nfs_dupreq_get_drc. */
  function Get(n: Node, me: nat): (Node, QueueOp)
    requires me < |n.sys.reqs| && n.sys.reqs[me].pc == GetDrc
    requires n.sys.reqs[me].xprt < |n.xprts|
  {
    var r := n.sys.reqs[me];
    var n1 := SetReq(n, me, Goto(r, Start));
    if n.xprts[r.xprt] == HasDrc then
      (n1.(h := n.h.(refcnt := n.h.refcnt + 1)), Leave)
    else
      var n2 := n1.(xprts := n.xprts[r.xprt := HasDrc]);
      if !n.h.live then (n2.(h := Head(true, 2, false, 0)), Leave)
      else if n.h.refcnt == 0 && !n.h.recycle then (n, Leave)
      else if n.h.refcnt == 0 then (n2.(h := n.h.(refcnt := 2, recycle := false)), Dequeue)
      else (n2.(h := n.h.(refcnt := n.h.refcnt + 2)), Leave)
  }

  /** nfs_dupreq_put_drc, up to where it has lowered the count. */
  function Put(h: Head): Head {
    h.(refcnt := h.refcnt - 1)
  }

  /** ... and, after taking both locks again, the rest. */
  function PutLast(h: Head): (Head, QueueOp) {
    if h.refcnt == 0 && !h.recycle then (h.(recycle := true), Enqueue) else (h, Leave)
  }

  function PutReq(n: Node, me: nat): (Node, QueueOp)
    requires me < |n.sys.reqs| && n.sys.reqs[me].pc.Rele?
  {
    var r := n.sys.reqs[me];
    if r.pc.rel.QueueDrc? then
      var p := PutLast(n.h);
      (SetReq(n, me, Goto(r, Idle)).(h := p.0), p.1)
    else
      var h := Put(n.h);
      (SetReq(n, me, Goto(r, if h.refcnt == 0 then Rele(QueueDrc) else Idle)).(h := h), Leave)
  }

  /** One step of request `me` of node `n`. */
  function ReqStep(cfg: Config, n: Node, me: nat, c: Choice): (Node, QueueOp)
    requires NodeInv(n) && me < |n.sys.reqs|
  {
    var r := n.sys.reqs[me];
    if r.pc.Idle? then (Begin(n, me, c.xprt, c.key), Leave)
    else if r.pc.GetDrc? then Get(n, me)
    else if r.pc.Suspended? then (n, Leave)
    else if OnEntry(r) then
      var s := Move(cfg, n.sys, me, c.rc);
      (n.(sys := s, h := if Dropped(n.sys, s, me) then n.h.(leaked := n.h.leaked + 1) else n.h),
       Leave)
    else PutReq(n, me)
  }

  datatype Choice = Choice(xprt: nat, key: Key, rc: Rc)

  /** nfs_dupreq_start returned DUPREQ_DROP. */
  predicate Dropped(s: Sys, s': Sys, me: nat)
    requires me < |s.reqs| && me < |s'.reqs|
  {
    s.reqs[me].pc.Start? && s'.reqs[me].pc.Idle?
  }

  /** The destructor of connection `x`, which runs when its last request is done, or has
      come to nfs_dupreq_rele, which looks at the connection no more. */
  function CloseXprt(n: Node, x: nat): (Node, QueueOp)
    requires x < |n.xprts|
  {
    if n.xprts[x] == Closing then
      var p := PutLast(n.h);
      (n.(h := p.0, xprts := n.xprts[x := NoDrc]), p.1)
    else if n.xprts[x] == HasDrc && Unused(n, x) then
      var h := Put(n.h);
      (n.(h := h, xprts := n.xprts[x := if h.refcnt == 0 then Closing else NoDrc]), Leave)
    else (n, Leave)
  }

  predicate Unused(n: Node, x: nat) {
    forall i :: 0 <= i < |n.sys.reqs| && n.sys.reqs[i].xprt == x ==>
      n.sys.reqs[i].pc.Idle? || n.sys.reqs[i].pc.Rele?
  }

  /** The loop of drc_free_expired over the entries of an expired DRC. */
  function PutAll(k: Cache, es: seq<nat>): Cache
    decreases |es|
  {
    if |es| == 0 then k else PutAll(PutEntry(k, es[0]), es[1..])
  }

  function ExpireNode(n: Node): Node {
    var k := PutAll(n.sys.k, n.sys.k.q);
    n.(h := Head(false, 0, false, 0),
       sys := n.sys.(k := Cache([], 0, map[], k.entries, 0, k.nextId)))
  }

  function Apply(w: World, d: nat, n: (Node, QueueOp)): World
    requires d < |w.nodes|
  {
    var w1 := w.(nodes := w.nodes[d := n.0]);
    match n.1
    case Leave => w1
    case Enqueue => w1.(queue := w.queue + [d], qlen := w.qlen + 1)
    case Dequeue => w1.(queue := Unqueue(w.queue, d), qlen := w.qlen - 1)
  }

  /** One turn of the loop of drc_free_expired: the head of the queue is freed. */
  function Expire(w: World): World {
    if |w.queue| > 0 && w.queue[0] < |w.nodes| then
      World(w.nodes[w.queue[0] := ExpireNode(w.nodes[w.queue[0]])], w.queue[1..], w.qlen - 1)
    else w
  }

  // ----- who refers to a DRC ------------------------------------------------------------

  function DrcPart(r: Req): int {
    B(r.pc.Start? || Attached(r) || r.pc == Rele(DropDrc))
  }

  function QueuePart(r: Req): int {
    B(r.pc == Rele(QueueDrc))
  }

  function XprtPart(x: Xprt): int {
    B(x == HasDrc)
  }

  function XprtQueuePart(x: Xprt): int {
    B(x == Closing)
  }

  /** The threads that have taken the count to zero and are about to queue the DRC. */
  ghost function Pending(n: Node): int {
    Sum(n.xprts, XprtQueuePart) + Sum(n.sys.reqs, QueuePart)
  }

  ghost predicate HeadOk(n: Node) {
    && n.h.refcnt == Sum(n.xprts, XprtPart) + Sum(n.sys.reqs, DrcPart) + n.h.leaked
    && n.h.leaked >= 0
    && Pending(n) + B(n.h.recycle) == B(n.h.live && n.h.refcnt == 0)
    && (!n.h.live ==> n.h.refcnt == 0 && n.sys.k.entries == map[] && n.sys.k.q == [])
  }

  /** A request's connection is open, and refers to the DRC if the request does. */
  ghost predicate XprtsOk(n: Node) {
    forall i :: 0 <= i < |n.sys.reqs| && n.sys.reqs[i].pc != Idle && !n.sys.reqs[i].pc.Rele? ==>
      XprtOk(n, n.sys.reqs[i])
  }

  predicate XprtOk(n: Node, r: Req) {
    && r.xprt < |n.xprts| && n.xprts[r.xprt] != Closing
    && (!r.pc.GetDrc? ==> n.xprts[r.xprt] == HasDrc)
  }

  ghost predicate NodeInv(n: Node) {
    Inv(n.sys) && HeadOk(n) && XprtsOk(n)
  }

  ghost predicate WorldInv(w: World) {
    && (forall d :: 0 <= d < |w.nodes| ==> NodeInv(w.nodes[d]))
    && w.qlen == |w.queue| && Distinct(w.queue)
    && (forall d: nat :: d in w.queue <==> d < |w.nodes| && w.nodes[d].h.recycle)
  }

  // ----- one step of a request on its node --------------------------------------------------

  /** Whether a step may have queued or unqueued the DRC, and what it did to the flag. */
  predicate FlagStep(h: Head, h': Head, op: QueueOp) {
    match op
    case Leave => h'.recycle == h.recycle
    case Enqueue => !h.recycle && h'.recycle
    case Dequeue => h.recycle && !h'.recycle
  }

  lemma ReqSums(n: Node, me: nat, r': Req)
    requires me < |n.sys.reqs|
    ensures var rs := n.sys.reqs[me := r'];
      && Sum(rs, DrcPart) == Sum(n.sys.reqs, DrcPart) - DrcPart(n.sys.reqs[me]) + DrcPart(r')
      && Sum(rs, QueuePart) == Sum(n.sys.reqs, QueuePart) - QueuePart(n.sys.reqs[me]) + QueuePart(r')
  {
    SumUpdate(n.sys.reqs, me, r', DrcPart);
    SumUpdate(n.sys.reqs, me, r', QueuePart);
  }

  lemma XprtSums(n: Node, x: nat, x': Xprt)
    requires x < |n.xprts|
    ensures var xs := n.xprts[x := x'];
      && Sum(xs, XprtPart) == Sum(n.xprts, XprtPart) - XprtPart(n.xprts[x]) + XprtPart(x')
      && Sum(xs, XprtQueuePart)
           == Sum(n.xprts, XprtQueuePart) - XprtQueuePart(n.xprts[x]) + XprtQueuePart(x')
  {
    SumUpdate(n.xprts, x, x', XprtPart);
    SumUpdate(n.xprts, x, x', XprtQueuePart);
  }

  /** A count that someone contributes to is positive. */
  lemma Counted(n: Node)
    requires HeadOk(n)
    ensures 0 <= Sum(n.xprts, XprtPart) <= n.h.refcnt && 0 <= Sum(n.sys.reqs, DrcPart) <= n.h.refcnt
    ensures 0 <= Sum(n.xprts, XprtQueuePart) && 0 <= Sum(n.sys.reqs, QueuePart)
    ensures forall i :: 0 <= i < |n.sys.reqs| && DrcPart(n.sys.reqs[i]) == 1 ==> n.h.refcnt > 0
    ensures forall x :: 0 <= x < |n.xprts| && n.xprts[x] == HasDrc ==> n.h.refcnt > 0
  {
    SumNonNegative(n.xprts, XprtPart);
    SumNonNegative(n.sys.reqs, DrcPart);
    SumNonNegative(n.xprts, XprtQueuePart);
    SumNonNegative(n.sys.reqs, QueuePart);
    forall i | 0 <= i < |n.sys.reqs| ensures DrcPart(n.sys.reqs[i]) <= n.h.refcnt {
      SumAtLeast(n.sys.reqs, i, DrcPart);
    }
    forall x | 0 <= x < |n.xprts| ensures XprtPart(n.xprts[x]) <= n.h.refcnt {
      SumAtLeast(n.xprts, x, XprtPart);
    }
  }

  lemma BeginInv(n: Node, me: nat, x: nat, key: Key)
    requires NodeInv(n) && me < |n.sys.reqs| && n.sys.reqs[me].pc == Idle
    ensures NodeInv(Begin(n, me, x, key))
  {
    var r' := Req(GetDrc, x, key, n.sys.reqs[me].dv);
    ReqSums(n, me, r');
    OutsideInv(n.sys, me, r');
  }

  lemma GetInv(n: Node, me: nat)
    requires NodeInv(n) && me < |n.sys.reqs| && n.sys.reqs[me].pc == GetDrc
    ensures n.sys.reqs[me].xprt < |n.xprts|
    ensures var g := Get(n, me); NodeInv(g.0) && FlagStep(n.h, g.0.h, g.1)
  {
    var r := n.sys.reqs[me];
    assert XprtOk(n, r);
    var r' := Goto(r, Start);
    ReqSums(n, me, r');
    XprtSums(n, r.xprt, HasDrc);
    Counted(n);
    OutsideInv(n.sys, me, r');
  }

  lemma PutReqInv(n: Node, me: nat)
    requires NodeInv(n) && me < |n.sys.reqs|
    requires n.sys.reqs[me].pc == Rele(DropDrc) || n.sys.reqs[me].pc == Rele(QueueDrc)
    ensures var g := PutReq(n, me); NodeInv(g.0) && FlagStep(n.h, g.0.h, g.1)
  {
    var r := n.sys.reqs[me];
    var r' := PutReq(n, me).0.sys.reqs[me];
    ReqSums(n, me, r');
    Counted(n);
    SumAtLeast(n.sys.reqs, me, QueuePart);
    OutsideInv(n.sys, me, r');
  }

  lemma CloseInv(n: Node, x: nat)
    requires NodeInv(n) && x < |n.xprts|
    ensures var g := CloseXprt(n, x); NodeInv(g.0) && FlagStep(n.h, g.0.h, g.1)
  {
    var g := CloseXprt(n, x);
    XprtSums(n, x, g.0.xprts[x]);
    Counted(n);
    SumAtLeast(n.xprts, x, XprtQueuePart);
  }

  /** A step on the cache keeps every request's hold on the DRC, but for a dropped one. */
  predicate KeepsDrc(r: Req, r': Req) {
    && r'.xprt == r.xprt && DrcPart(r') == DrcPart(r) && QueuePart(r') == QueuePart(r)
    && (r.pc.Rele? ==> r'.pc.Rele?) && (r'.pc.GetDrc? ==> r.pc.GetDrc?)
    && (r.pc.Idle? ==> r'.pc.Idle?)
  }

  lemma MoveKeepsDrc(cfg: Config, s: Sys, me: nat, rc: Rc, i: nat)
    requires Inv(s) && me < |s.reqs| && OnEntry(s.reqs[me]) && i < |s.reqs|
    ensures var s' := Move(cfg, s, me, rc);
      && |s'.reqs| == |s.reqs|
      && if i == me && Dropped(s, s', me) then DrcPart(s'.reqs[i]) == 0 && s'.reqs[i].pc.Idle?
         else KeepsDrc(s.reqs[i], s'.reqs[i])
  {
    Present(s, me);
    var r := s.reqs[me];
    match r.pc
    case Start =>
    case Run(_) => RunKeepsDrc(s.k, r, rc);
    case Finish(_) => FinishKeepsDrc(cfg, s.k, r);
    case Delete(_) => DeleteKeepsDrc(s.k, r);
    case Rele(p) =>
      if p.WakeNext? {
        WakeKeepsDrc(s, me, i);
      }
  }

  lemma RunKeepsDrc(k: Cache, r: Req, rc: Rc)
    requires r.pc.Run? && r.dv in k.entries
    ensures KeepsDrc(r, RunNext(k, r, rc))
  {}

  lemma FinishKeepsDrc(cfg: Config, k: Cache, r: Req)
    requires r.pc.Finish? && r.dv in k.entries
    ensures KeepsDrc(r, FinishNext(cfg, k, r).1)
  {}

  lemma DeleteKeepsDrc(k: Cache, r: Req)
    requires r.pc.Delete? && r.dv in k.entries
    ensures KeepsDrc(r, DeleteNext(k, r).1)
  {}

  lemma WakeKeepsDrc(s: Sys, me: nat, i: nat)
    requires Inv(s) && me < |s.reqs| && s.reqs[me].pc == Rele(WakeNext) && i < |s.reqs|
    requires s.reqs[me].dv in s.k.entries
    ensures QueueOk(s, s.reqs[me].dv)
    ensures |Wake(s, me).reqs| == |s.reqs| && KeepsDrc(s.reqs[i], Wake(s, me).reqs[i])
  {
    assert QueueOk(s, s.reqs[me].dv);
    var q := s.k.entries[s.reqs[me].dv].dup.queue;
    if q != [] {
      assert q[0] in q;
    }
  }

  ghost predicate MovedReqs(s: Sys, s': Sys, me: nat) {
    && me < |s.reqs| == |s'.reqs|
    && forall i :: 0 <= i < |s'.reqs| ==>
         if i == me && Dropped(s, s', me) then DrcPart(s'.reqs[i]) == 0 && s'.reqs[i].pc.Idle?
         else KeepsDrc(s.reqs[i], s'.reqs[i])
  }

  lemma MoveNodeInv(cfg: Config, n: Node, me: nat, c: Choice)
    requires NodeInv(n) && me < |n.sys.reqs| && OnEntry(n.sys.reqs[me])
    ensures NodeInv(ReqStep(cfg, n, me, c).0)
  {
    var s' := Move(cfg, n.sys, me, c.rc);
    MoveInv(cfg, n.sys, me, c.rc);
    assert MovedReqs(n.sys, s', me) by {
      MoveKeepsDrc(cfg, n.sys, me, c.rc, me);
      forall i | 0 <= i < |s'.reqs|
        ensures if i == me && Dropped(n.sys, s', me)
                then DrcPart(s'.reqs[i]) == 0 && s'.reqs[i].pc.Idle?
                else KeepsDrc(n.sys.reqs[i], s'.reqs[i])
      {
        MoveKeepsDrc(cfg, n.sys, me, c.rc, i);
      }
    }
    MovedNode(n, s', me);
  }

  /** Any move of the requests that keeps their hold on the DRC keeps the node. */
  lemma MovedNode(n: Node, s': Sys, me: nat)
    requires NodeInv(n) && Inv(s') && MovedReqs(n.sys, s', me) && DrcPart(n.sys.reqs[me]) == 1
    ensures NodeInv(n.(sys := s', h := if Dropped(n.sys, s', me)
                                       then n.h.(leaked := n.h.leaked + 1) else n.h))
  {
    Counted(n);
    MoveSums(n, s', me);
  }

  lemma MoveSums(n: Node, s': Sys, me: nat)
    requires MovedReqs(n.sys, s', me) && DrcPart(n.sys.reqs[me]) == 1
    ensures Sum(s'.reqs, DrcPart) == Sum(n.sys.reqs, DrcPart) - B(Dropped(n.sys, s', me))
    ensures Sum(s'.reqs, QueuePart) == Sum(n.sys.reqs, QueuePart)
  {
    var rs := n.sys.reqs;
    SumAlike(s'.reqs, rs, QueuePart);
    if Dropped(n.sys, s', me) {
      SumAlike(s'.reqs, rs[me := s'.reqs[me]], DrcPart);
      SumUpdate(rs, me, s'.reqs[me], DrcPart);
    } else {
      SumAlike(s'.reqs, rs, DrcPart);
    }
  }

  lemma ReqStepInv(cfg: Config, n: Node, me: nat, c: Choice)
    requires NodeInv(n) && me < |n.sys.reqs|
    ensures var g := ReqStep(cfg, n, me, c); NodeInv(g.0) && FlagStep(n.h, g.0.h, g.1)
  {
    var r := n.sys.reqs[me];
    if r.pc.Idle? {
      BeginInv(n, me, c.xprt, c.key);
    } else if r.pc.GetDrc? {
      GetInv(n, me);
    } else if r.pc.Suspended? {
    } else if OnEntry(r) {
      MoveNodeInv(cfg, n, me, c);
    } else {
      PutReqInv(n, me);
    }
  }

  // ----- drc_free_expired -----------------------------------------------------------------------

  /** Nobody refers to a queued DRC, so nobody refers to its entries either: each has
      exactly the table's reference, and the queue holds them all. */
  lemma QueuedNodeFacts(n: Node)
    requires NodeInv(n) && n.h.recycle
    ensures n.h.live && n.h.refcnt == 0
    ensures forall e :: e in n.sys.k.entries <==> e in n.sys.k.q
    ensures forall e :: e in n.sys.k.entries ==> n.sys.k.entries[e].refcnt == 1
    ensures forall i :: 0 <= i < |n.sys.reqs| ==> DrcPart(n.sys.reqs[i]) == 0 && QueuePart(n.sys.reqs[i]) == 0
  {
    Counted(n);
    var s := n.sys;
    SumZeroAll(s.reqs, DrcPart);
    SumZeroAll(s.reqs, QueuePart);
    forall e: nat ensures Ref(s.k, e) == B(e in s.k.q) {
      assert BookOk(s, e);
      SumZero(s.reqs, HoldOf(e));
      SumZero(s.reqs, LeaveOf(e));
      SumZero(s.reqs, OweOf(e));
    }
    forall e | e in s.k.entries ensures e in s.k.q && s.k.entries[e].refcnt == 1 {
      assert Ref(s.k, e) == B(e in s.k.q);
    }
    forall e | e in s.k.q ensures e in s.k.entries {
      assert Ref(s.k, e) == B(e in s.k.q);
      assert InTable(s.k, e);
    }
  }

  /** Dropping the last reference of each entry in turn frees them all. */
  lemma {:induction false} PutAllFrees(k: Cache, es: seq<nat>)
    requires Distinct(es) && forall e :: e in k.entries <==> e in es
    requires forall e :: e in k.entries ==> k.entries[e].refcnt == 1
    ensures PutAll(k, es).entries == map[]
    decreases |es|
  {
    if |es| != 0 {
      TailOk(es);
      assert es[0] in es;
      var k' := PutEntry(k, es[0]);
      assert forall e :: e in k'.entries <==> e in k.entries && e != es[0];
      PutAllFrees(k', es[1..]);
    } else {
      assert k.entries == map[];
    }
  }

  /** An empty cache that nobody is attached to is well formed. */
  lemma EmptyInv(s: Sys)
    requires s.k == Cache([], 0, map[], map[], 0, s.k.nextId)
    requires forall i :: 0 <= i < |s.reqs| ==> !Attached(s.reqs[i])
    ensures Inv(s)
  {
    forall e: nat ensures BookOk(s, e) && ActiveOk(s, e) {
      SumZero(s.reqs, HoldOf(e));
      SumZero(s.reqs, LeaveOf(e));
      SumZero(s.reqs, OweOf(e));
    }
  }

  lemma ExpireNodeInv(n: Node)
    requires NodeInv(n) && n.h.recycle
    ensures NodeInv(ExpireNode(n))
    ensures ExpireNode(n).sys.k.entries == map[]
  {
    QueuedNodeFacts(n);
    Counted(n);
    PutAllFrees(n.sys.k, n.sys.k.q);
    EmptyInv(ExpireNode(n).sys);
  }

  // ----- the world: any number of addresses, connections, requests ------------------------------

  datatype Action =
    | AReq(d: nat, me: nat, c: Choice)
    | AClose(d: nat, x: nat)
    | AExpire

  function Act(cfg: Config, w: World, a: Action): World
    requires WorldInv(w)
  {
    match a
    case AReq(d, me, c) =>
      if d < |w.nodes| && me < |w.nodes[d].sys.reqs|
      then Apply(w, d, ReqStep(cfg, w.nodes[d], me, c)) else w
    case AClose(d, x) =>
      if d < |w.nodes| && x < |w.nodes[d].xprts|
      then Apply(w, d, CloseXprt(w.nodes[d], x)) else w
    case AExpire => Expire(w)
  }

  lemma ApplyInv(w: World, d: nat, n: (Node, QueueOp))
    requires WorldInv(w) && d < |w.nodes| && NodeInv(n.0) && FlagStep(w.nodes[d].h, n.0.h, n.1)
    ensures WorldInv(Apply(w, d, n))
  {
    if n.1.Dequeue? {
      UnqueueOk(w.queue, d);
    }
  }

  lemma ActInv(cfg: Config, w: World, a: Action)
    requires WorldInv(w)
    ensures WorldInv(Act(cfg, w, a))
  {
    match a
    case AReq(d, me, c) =>
      if d < |w.nodes| && me < |w.nodes[d].sys.reqs| {
        ReqStepInv(cfg, w.nodes[d], me, c);
        ApplyInv(w, d, ReqStep(cfg, w.nodes[d], me, c));
      }
    case AClose(d, x) =>
      if d < |w.nodes| && x < |w.nodes[d].xprts| {
        CloseInv(w.nodes[d], x);
        ApplyInv(w, d, CloseXprt(w.nodes[d], x));
      }
    case AExpire => ExpireInv(w);
  }

  lemma ExpireInv(w: World)
    requires WorldInv(w)
    ensures WorldInv(Expire(w))
  {
    if |w.queue| > 0 {
      assert w.queue[0] in w.queue;
      TailOk(w.queue);
      ExpireNodeInv(w.nodes[w.queue[0]]);
    }
  }

  /** No DRC, no connection that refers to one, no request. */
  ghost predicate Init(w: World) {
    && w.queue == [] && w.qlen == 0
    && forall d :: 0 <= d < |w.nodes| ==> InitNode(w.nodes[d])
  }

  ghost predicate InitNode(n: Node) {
    && n.h == Head(false, 0, false, 0) && n.sys.k == Cache([], 0, map[], map[], 0, 0)
    && (forall i :: 0 <= i < |n.sys.reqs| ==> n.sys.reqs[i].pc == Idle)
    && (forall x :: 0 <= x < |n.xprts| ==> n.xprts[x] == NoDrc)
  }

  lemma InitInv(w: World)
    requires Init(w)
    ensures WorldInv(w)
  {
    forall d | 0 <= d < |w.nodes| ensures NodeInv(w.nodes[d]) {
      var n := w.nodes[d];
      assert InitNode(n);
      EmptyInv(n.sys);
      SumZero(n.xprts, XprtPart);
      SumZero(n.xprts, XprtQueuePart);
      SumZero(n.sys.reqs, DrcPart);
      SumZero(n.sys.reqs, QueuePart);
    }
  }

  /** The world after a schedule of actions, and that it is always well formed. */
  ghost function After(cfg: Config, w: World, acts: seq<Action>): (w': World)
    requires WorldInv(w)
    ensures WorldInv(w')
    decreases |acts|
  {
    if |acts| == 0 then w
    else
      ActInv(cfg, w, acts[0]);
      After(cfg, Act(cfg, w, acts[0]), acts[1..])
  }
}
