/** Schedules of the requests of one client address, built step by step. */
module DrcSchedules {
  import opened DrcRecycle
  import opened DrcRuns
  import opened DupReq

  lemma OneAct(cfg: Config, w: World, me: nat, c: Choice)
    requires WorldInv(w) && |w.nodes| == 1 && NodeInv(w.nodes[0]) && me < |w.nodes[0].sys.reqs|
    ensures var w' := Act(cfg, w, AReq(0, me, c));
      |w'.nodes| == 1 && w'.nodes[0] == ReqStep(cfg, w.nodes[0], me, c).0
  {}

  /** From `w0` the schedule leads to the one node `n`. */
  ghost predicate NodeAfter(cfg: Config, w0: World, acts: seq<Action>, n: Node) {
    Init(w0) && var w := Reached(cfg, w0, acts); w.nodes == [n] && NodeInv(n)
  }

  lemma Nothing(cfg: Config, w0: World) returns (acts: seq<Action>, n: Node)
    requires |w0.nodes| == 1 && InitNode(w0.nodes[0]) && w0.queue == [] && w0.qlen == 0
    ensures NodeAfter(cfg, w0, acts, n) && n == w0.nodes[0]
  {
    assert Init(w0);
    InitInv(w0);
    acts, n := [], w0.nodes[0];
    assert NodeInv(n) && w0.nodes == [n];
  }

  lemma More(cfg: Config, w0: World, acts: seq<Action>, n: Node, me: nat, c: Choice)
    returns (acts': seq<Action>, n': Node)
    requires NodeAfter(cfg, w0, acts, n) && me < |n.sys.reqs|
    ensures NodeAfter(cfg, w0, acts', n') && n' == ReqStep(cfg, n, me, c).0
  {
    InitInv(w0);
    var w := Reached(cfg, w0, acts);
    OneAct(cfg, w, me, c);
    ActInv(cfg, w, AReq(0, me, c));
    AfterThen(cfg, w0, acts, AReq(0, me, c));
    acts' := acts + [AReq(0, me, c)];
    n' := ReqStep(cfg, n, me, c).0;
    var w' := Reached(cfg, w0, acts');
    assert w'.nodes == [w'.nodes[0]] && NodeInv(w'.nodes[0]);
  }
}
