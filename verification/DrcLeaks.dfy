/** A duplicate that is dropped keeps its reference on the DRC. */
module DrcLeaks {
  import opened DrcRecycle
  import opened DrcRuns
  import opened DrcSchedules
  import opened DupReq
  import opened Tally

  /** The one step that leaks: nfs_dupreq_start of a request that is in the table, not complete, and
      has had as many duplicates as may wait. */
  predicate Leaks(n: Node, me: nat)
    requires me < |n.sys.reqs|
  {
    var r, k := n.sys.reqs[me], n.sys.k;
    r.pc.Start? && r.key in k.table && k.table[r.key] in k.entries
    && !k.entries[k.table[r.key]].complete && k.entries[k.table[r.key]].dup.cnt >= MAX_DUPES
  }

  lemma LeakStep(cfg: Config, n: Node, me: nat, c: Choice)
    requires NodeInv(n) && me < |n.sys.reqs|
    ensures n.h.live ==> ReqStep(cfg, n, me, c).0.h.leaked == n.h.leaked + B(Leaks(n, me))
  {
    if OnEntry(n.sys.reqs[me]) {
      Present(n.sys, me);
    }
  }

  /** A leak stays. */
  lemma LeakKept(cfg: Config, w: World, a: Action, d: nat)
    requires WorldInv(w) && d < |w.nodes| && w.nodes[d].h.leaked > 0
    ensures var w' := Act(cfg, w, a); |w'.nodes| == |w.nodes| && w'.nodes[d].h.leaked >= w.nodes[d].h.leaked
  {
    ActOn(cfg, w, a, d);
    var n := w.nodes[d];
    assert NodeInv(n);
    Counted(n);
    match a
    case AReq(d', me, c) =>
      if d' == d && me < |n.sys.reqs| {
        LeakStep(cfg, n, me, c);
      }
    case AClose(_, _) =>
    case AExpire =>
      assert d !in w.queue;
      assert |w.queue| > 0 ==> w.queue[0] in w.queue;
  }

  /** Once a duplicate has been dropped its DRC is never queued for recycling again and never freed,
      whatever happens: its count of references never comes down to zero. */
  lemma {:induction false} LeakedForEver(cfg: Config, w: World, acts: seq<Action>, d: nat)
    requires WorldInv(w) && d < |w.nodes| && w.nodes[d].h.leaked > 0
    ensures var w' := After(cfg, w, acts);
      && |w'.nodes| == |w.nodes| && d !in w'.queue
      && w'.nodes[d].h.live && w'.nodes[d].h.refcnt >= w'.nodes[d].h.leaked >= w.nodes[d].h.leaked
    decreases |acts|
  {
    if |acts| == 0 {
      assert NodeInv(w.nodes[d]);
      Counted(w.nodes[d]);
      SumNonNegative(w.nodes[d].xprts, XprtPart);
      SumNonNegative(w.nodes[d].sys.reqs, DrcPart);
    } else {
      LeakKept(cfg, w, acts[0], d);
      ActInv(cfg, w, acts[0]);
      LeakedForEver(cfg, Act(cfg, w, acts[0]), acts[1..], d);
    }
  }

  // ----- a schedule that leaks -----------------------------------------------------------------

  /** One client address, one connection, five requests to come, all with the same key. */
  const CALM: World :=
    World([Node(Head(false, 0, false, 0),
                Sys(Cache([], 0, map[], map[], 0, 0),
                    [ReqAt(Idle), ReqAt(Idle), ReqAt(Idle), ReqAt(Idle), ReqAt(Idle)]),
                [NoDrc])], [], 0)

  ghost predicate Reqs(n: Node, from: nat, pc: Pc) {
    |n.sys.reqs| == 5 && |n.xprts| == 1 && forall i :: from <= i < 5 ==> n.sys.reqs[i] == ReqAt(pc)
  }

  /** The first `i` requests have arrived and have their references on the DRC. */
  ghost predicate Came(n: Node, i: nat) {
    && Reqs(n, i, Idle) && (forall j :: 0 <= j < i && j < 5 ==> n.sys.reqs[j] == ReqAt(Start))
    && n.sys.k.table == map[] && n.h.leaked == 0 && (n.h.live <==> i > 0)
    && (n.xprts[0] == if i == 0 then NoDrc else HasDrc)
  }

  /** Request `i` has just come in. */
  ghost predicate Comes(n: Node, i: nat) {
    i < 5 && |n.sys.reqs| == 5 && n.sys.reqs[i] == ReqAt(GetDrc)
    && Came(n.(sys := n.sys.(reqs := n.sys.reqs[i := ReqAt(Idle)])), i)
  }

  /** `j` of the requests have started: one runs, and the others wait for it. */
  ghost predicate Piled(n: Node, j: nat) {
    && Reqs(n, j, Start) && XID in n.sys.k.table && n.sys.k.table[XID] in n.sys.k.entries
    && !n.sys.k.entries[n.sys.k.table[XID]].complete && n.sys.k.entries[n.sys.k.table[XID]].dup.cnt == j - 1
    && n.h.leaked == 0
  }

  lemma ComesStep(cfg: Config, n: Node, i: nat)
    requires NodeInv(n) && i < 5 && Came(n, i)
    ensures Comes(ReqStep(cfg, n, i, CHOICE).0, i)
  {
    var n' := ReqStep(cfg, n, i, CHOICE).0;
    assert n'.sys.reqs[i := ReqAt(Idle)] == n.sys.reqs;
  }

  lemma CameStep(cfg: Config, n: Node, i: nat)
    requires NodeInv(n) && Comes(n, i)
    ensures Came(ReqStep(cfg, n, i, CHOICE).0, i + 1)
  {
    var before := n.(sys := n.sys.(reqs := n.sys.reqs[i := ReqAt(Idle)]));
    assert forall j :: 0 <= j < 5 && j != i ==> n.sys.reqs[j] == before.sys.reqs[j];
    Counted(n);
  }

  lemma FirstStarts(cfg: Config, n: Node)
    requires NodeInv(n) && Came(n, 5)
    ensures Piled(ReqStep(cfg, n, 0, CHOICE).0, 1)
  {
    assert n.sys.reqs[0] == ReqAt(Start);
    assert forall i :: 0 <= i < 5 ==> n.sys.reqs[i] == ReqAt(Start);
  }

  lemma NextStarts(cfg: Config, n: Node, j: nat)
    requires NodeInv(n) && Piled(n, j) && 1 <= j < 4
    ensures Piled(ReqStep(cfg, n, j, CHOICE).0, j + 1)
  {
    assert n.sys.reqs[j] == ReqAt(Start);
  }

  lemma {:induction false} AllCome(cfg: Config, i: nat) returns (acts: seq<Action>, n: Node)
    requires i <= 5
    ensures NodeAfter(cfg, CALM, acts, n) && Came(n, i)
  {
    if i == 0 {
      assert InitNode(CALM.nodes[0]);
      acts, n := Nothing(cfg, CALM);
    } else {
      acts, n := AllCome(cfg, i - 1);
      ComesStep(cfg, n, i - 1);
      acts, n := More(cfg, CALM, acts, n, i - 1, CHOICE);
      CameStep(cfg, n, i - 1);
      acts, n := More(cfg, CALM, acts, n, i - 1, CHOICE);
    }
  }

  lemma {:induction false} AllPile(cfg: Config, j: nat) returns (acts: seq<Action>, n: Node)
    requires 1 <= j <= 4
    ensures NodeAfter(cfg, CALM, acts, n) && Piled(n, j)
  {
    if j == 1 {
      acts, n := AllCome(cfg, 5);
      FirstStarts(cfg, n);
      acts, n := More(cfg, CALM, acts, n, 0, CHOICE);
    } else {
      acts, n := AllPile(cfg, j - 1);
      NextStarts(cfg, n, j - 1);
      acts, n := More(cfg, CALM, acts, n, j - 1, CHOICE);
    }
  }

  /** A run, under any configuration, that leaks: a request and four duplicates of it while it runs. */
  lemma LeakReachable(cfg: Config) returns (acts: seq<Action>)
    ensures Init(CALM)
    ensures var w := Reached(cfg, CALM, acts); |w.nodes| == 1 && w.nodes[0].h.leaked == 1
  {
    var n;
    acts, n := AllPile(cfg, 4);
    assert n.sys.reqs[4] == ReqAt(Start);
    LeakStep(cfg, n, 4, CHOICE);
    Counted(n);
    var n';
    acts, n' := More(cfg, CALM, acts, n, 4, CHOICE);
  }

  // ----- a connection goes ------------------------------------------------------------------------------

  /** Closing a connection: after the two steps of its destructor the DRC is queued to be recycled iff no
      request was under way on the connection and its reference was the last there was, which no leaked one
      lets it be. */
  lemma CloseQueuesIff(cfg: Config, w: World, d: nat, x: nat)
    requires WorldInv(w) && d < |w.nodes| && x < |w.nodes[d].xprts| && w.nodes[d].xprts[x] == HasDrc
    ensures var w1 := Act(cfg, w, AClose(d, x));
      && WorldInv(w1)
      && var n, w2 := w.nodes[d], Act(cfg, w1, AClose(d, x));
         (d in w2.queue <==>
            && n.h.refcnt == 1
            && forall i :: 0 <= i < |n.sys.reqs| && n.sys.reqs[i].xprt == x ==>
                 n.sys.reqs[i].pc.Idle? || n.sys.reqs[i].pc.Rele?)
  {
    var n := w.nodes[d];
    assert NodeInv(n);
    Counted(n);
    assert d !in w.queue;
    ActInv(cfg, w, AClose(d, x));
    var w1 := Act(cfg, w, AClose(d, x));
    assert d < |w1.nodes| && NodeInv(w1.nodes[d]);
    ActInv(cfg, w1, AClose(d, x));
  }
}
