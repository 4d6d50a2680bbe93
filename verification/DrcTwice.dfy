/** Two runs in which a request is executed twice at once, for every configuration of the cache. */
module DrcTwice {
  import opened DrcRecycle
  import opened DrcRepeats
  import opened DrcRuns
  import opened DrcSchedules
  import opened DupReq
  import opened Tally

  /** One client address, one connection, `total` requests to come. */
  function Quiet(total: nat): World {
    World([Node(Head(false, 0, false, 0), Sys(Cache([], 0, map[], map[], 0, 0), Idlers(total)), [NoDrc])], [], 0)
  }

  function Idlers(total: nat): (rs: seq<Req>)
    ensures |rs| == total && forall i :: 0 <= i < total ==> rs[i] == ReqAt(Idle)
  {
    if total == 0 then [] else Idlers(total - 1) + [ReqAt(Idle)]
  }

  lemma QuietNode(cfg: Config, total: nat) returns (acts: seq<Action>, n: Node)
    ensures Unretired(cfg, Quiet(total), acts, n) && n == Quiet(total).nodes[0]
  {
    assert InitNode(Quiet(total).nodes[0]);
    assert Init(Quiet(total));
    InitInv(Quiet(total));
    acts, n := [], Quiet(total).nodes[0];
  }

  /** From `w0` the schedule leads to the one node `n`, and retires nothing. */
  ghost predicate Unretired(cfg: Config, w0: World, acts: seq<Action>, n: Node) {
    NodeAfter(cfg, w0, acts, n) && (InitInv(w0); NoneRetires(cfg, w0, acts))
  }

  lemma MoreUnretired(cfg: Config, w0: World, acts: seq<Action>, n: Node, me: nat, c: Choice)
    returns (acts': seq<Action>, n': Node)
    requires Unretired(cfg, w0, acts, n) && me < |n.sys.reqs|
    requires !(n.sys.reqs[me].pc.Finish? && n.sys.reqs[me].pc.fin.RetirePop?)
    ensures Unretired(cfg, w0, acts', n') && n' == ReqStep(cfg, n, me, c).0
  {
    InitInv(w0);
    var w := Reached(cfg, w0, acts);
    var a := AReq(0, me, c);
    OneAct(cfg, w, me, c);
    ActInv(cfg, w, a);
    AfterThen(cfg, w0, acts, a);
    NotRetiring(cfg, w, a);
    NoneRetiresTo(cfg, w0, acts, w, [a]);
    acts' := acts + [a];
    n' := ReqStep(cfg, n, me, c).0;
    var w' := Reached(cfg, w0, acts');
    assert w'.nodes == [w'.nodes[0]] && NodeInv(w'.nodes[0]);
  }

  function KeyOf(i: nat): Key {
    Key(i, i)
  }

  function Coming(i: nat): Choice {
    Choice(0, KeyOf(i), OK)
  }

  /** A connection that is open, and refers to the DRC once there has been a request. */
  ghost predicate Open(n: Node) {
    (n.xprts == [NoDrc] && !n.h.live) || n.xprts == [HasDrc]
  }

  // ----- an incomplete entry is retired -----------------------------------------------------------------

  /** The first `m` requests are in the cache, each with its own entry. */
  ghost predicate Cached(k: Cache, m: nat) {
    && |k.q| == m == k.size == k.nextId && k.retwnd == 0 && (forall i :: 0 <= i < m ==> k.q[i] == i)
    && (forall i :: 0 <= i < m ==> i in k.entries && k.entries[i].key == KeyOf(i) && k.entries[i].dup.queue == [])
    && forall e :: e in k.entries ==> e < m
  }

  /** They run; the next has come to `pc`, and the others are still to come. */
  ghost predicate Stack(n: Node, m: nat, total: nat, pc: Pc) {
    && m <= total == |n.sys.reqs| && Open(n) && Cached(n.sys.k, m)
    && (forall i :: 0 <= i < m ==> n.sys.reqs[i].pc == Run(Executing) && n.sys.reqs[i].dv == i)
    && (forall i :: 0 <= i < m ==>
          n.sys.k.entries[i] == Entry(KeyOf(i), 2, false, OK, Dupes(0, [], [], []), false))
    && (forall i :: m < i < total ==> n.sys.reqs[i].pc == Idle)
    && (m < total ==> n.sys.reqs[m].pc == pc && (pc != Idle ==> n.sys.reqs[m].key == KeyOf(m) && n.sys.reqs[m].xprt == 0))
  }

  lemma StackComes(cfg: Config, n: Node, m: nat, total: nat)
    requires NodeInv(n) && Stack(n, m, total, Idle) && m < total
    ensures Stack(ReqStep(cfg, n, m, Coming(m)).0, m, total, GetDrc)
  {}

  lemma StackGets(cfg: Config, n: Node, m: nat, total: nat)
    requires NodeInv(n) && Stack(n, m, total, GetDrc) && m < total
    ensures Stack(ReqStep(cfg, n, m, Coming(m)).0, m, total, Start)
  {
    Counted(n);
    assert m > 0 ==> DrcPart(n.sys.reqs[0]) == 1;
  }

  lemma StackRuns(cfg: Config, n: Node, m: nat, total: nat)
    requires NodeInv(n) && Stack(n, m, total, Start) && m < total
    ensures Stack(ReqStep(cfg, n, m, Coming(m)).0, m + 1, total, Idle)
  {
    assert KeyOf(m) !in n.sys.k.table;
  }

  lemma NextRuns(cfg: Config, m: nat, total: nat, acts: seq<Action>, n: Node) returns (more: seq<Action>, n': Node)
    requires m < total && Unretired(cfg, Quiet(total), acts, n) && Stack(n, m, total, Idle)
    ensures Unretired(cfg, Quiet(total), more, n') && Stack(n', m + 1, total, Idle)
  {
    StackComes(cfg, n, m, total);
    more, n' := MoreUnretired(cfg, Quiet(total), acts, n, m, Coming(m));
    StackGets(cfg, n', m, total);
    more, n' := MoreUnretired(cfg, Quiet(total), more, n', m, Coming(m));
    StackRuns(cfg, n', m, total);
    more, n' := MoreUnretired(cfg, Quiet(total), more, n', m, Coming(m));
  }

  lemma {:induction false} AllRun(cfg: Config, m: nat, total: nat) returns (acts: seq<Action>, n: Node)
    requires m <= total
    ensures Unretired(cfg, Quiet(total), acts, n) && Stack(n, m, total, Idle)
  {
    if m == 0 {
      acts, n := QuietNode(cfg, total);
    } else {
      acts, n := AllRun(cfg, m - 1, total);
      acts, n := NextRuns(cfg, m - 1, total, acts, n);
    }
  }

  /** The last of them has come to `pc`, and the next is still to come. */
  ghost predicate Late(n: Node, m: nat, pc: Pc) {
    && 2 <= m && |n.sys.reqs| == m + 1 && n.xprts == [HasDrc] && Cached(n.sys.k, m)
    && n.sys.reqs[0].pc == Run(Executing) && n.sys.reqs[0].dv == 0
    && n.sys.reqs[m - 1].pc == pc && n.sys.reqs[m - 1].dv == m - 1 && n.sys.reqs[m].pc == Idle
  }

  lemma LateDone(cfg: Config, n: Node, m: nat)
    requires NodeInv(n) && Late(n, m, Run(Executing))
    ensures Late(ReqStep(cfg, n, m - 1, Coming(m)).0, m, Finish(Mark(OK)))
  {}

  lemma LateMarked(cfg: Config, n: Node, m: nat)
    requires NodeInv(n) && Late(n, m, Finish(Mark(OK)))
    ensures Late(ReqStep(cfg, n, m - 1, Coming(m)).0, m, Finish(Retire(0)))
  {}

  lemma LateRetires(cfg: Config, n: Node, m: nat)
    requires NodeInv(n) && Late(n, m, Finish(Retire(0))) && m > cfg.maxsize
    ensures Late(ReqStep(cfg, n, m - 1, Coming(m)).0, m, Finish(RetirePop(0, 0)))
  {}

  /** More requests run than there is room for. The last of them is done, and about to retire the first
      one's entry. */
  lemma AboutToRetire(cfg: Config) returns (acts: seq<Action>, n: Node, m: nat)
    ensures NodeAfter(cfg, Quiet(m + 1), acts, n) && Late(n, m, Finish(RetirePop(0, 0)))
  {
    m := if cfg.maxsize < 1 then 2 else cfg.maxsize + 1;
    acts, n := AllRun(cfg, m, m + 1);
    StackIsLate(n, m);
    LateDone(cfg, n, m);
    acts, n := More(cfg, Quiet(m + 1), acts, n, m - 1, Coming(m));
    LateMarked(cfg, n, m);
    acts, n := More(cfg, Quiet(m + 1), acts, n, m - 1, Coming(m));
    LateRetires(cfg, n, m);
    acts, n := More(cfg, Quiet(m + 1), acts, n, m - 1, Coming(m));
  }

  lemma StackIsLate(n: Node, m: nat)
    requires NodeInv(n) && Stack(n, m, m + 1, Idle) && 2 <= m
    ensures Late(n, m, Run(Executing))
  {
    Counted(n);
    assert DrcPart(n.sys.reqs[0]) == 1;
  }

  lemma RetiringIsHot(w: World, n: Node, m: nat)
    requires w.nodes == [n] && NodeInv(n) && Late(n, m, Finish(RetirePop(0, 0)))
    ensures HotAct(w, AReq(0, m - 1, CHOICE))
  {
    var s := n.sys;
    assert s.k.q[0] in s.k.q;
    assert InTable(s.k, 0) && TakesOut(s, m - 1, 0) && HotAt(s, 0, 0);
  }

  /** For every configuration, a run in which an entry is retired while its request runs, and the request
      is then executed twice at once. */
  lemma TwiceByRetiring(cfg: Config) returns (total: nat, acts: seq<Action>, i: nat, j: nat)
    ensures Init(Quiet(total))
    ensures var w := Reached(cfg, Quiet(total), acts); |w.nodes| > 0 && RunTwice(w.nodes[0].sys, i, j)
  {
    var n, m;
    acts, n, m := AboutToRetire(cfg);
    total := m + 1;
    InitInv(Quiet(total));
    var w := Reached(cfg, Quiet(total), acts);
    RetiringIsHot(w, n, m);
    var a, rest := AReq(0, m - 1, CHOICE), [];
    rest, i := HotActRepeats(cfg, w, a, m, 0);
    j := m;
    AfterBoth(cfg, Quiet(total), acts, [a] + rest);
    acts := acts + ([a] + rest);
  }

  // ----- a deleted entry is joined -----------------------------------------------------------------------

  const DROPPED := Choice(0, KeyOf(0), DROP)

  /** Where three requests with one key have come to, and a fourth that is still to come; who waits, and
      the status of their entry. */
  datatype Stage = Stage(pcs: seq<Pc>, queue: seq<nat>, rc: Rc)

  ghost predicate Race(n: Node, g: Stage) {
    n.xprts == [HasDrc] && RaceOn(n.sys, g)
  }

  ghost predicate RaceOn(s: Sys, g: Stage) {
    && |s.reqs| == |g.pcs| == 4 && g.pcs[3] == Idle
    && (forall i :: 0 <= i < 4 ==> Came(s.reqs[i], g.pcs[i]))
    && InTable(s.k, 0) && Raced(s.k.entries[0], g) && s.k.entries[0].dup.cnt == Joins(g.pcs)
  }

  predicate Came(r: Req, pc: Pc) {
    r.pc == pc && (Attached(r) ==> r.dv == 0) && (pc == GetDrc || pc == Start ==> r.key == KeyOf(0) && r.xprt == 0)
  }

  predicate Raced(v: Entry, g: Stage) {
    v.key == KeyOf(0) && !v.complete && v.dup.queue == g.queue && v.rc == g.rc
  }

  /** How many of the second and third have found the entry. */
  function Joins(pcs: seq<Pc>): int
    requires |pcs| == 4
  {
    B(Joined(pcs[1])) + B(Joined(pcs[2]))
  }

  predicate Joined(pc: Pc) {
    !pc.Idle? && !pc.GetDrc? && !pc.Start?
  }

  /** The turns that the run below takes. */
  ghost predicate MayTurn(g: Stage, i: nat) {
    && |g.pcs| == 4 && i < 3
    && match g.pcs[i]
       case Idle => true
       case GetDrc => true
       case Start => i > 0
       case Run(p) => p.Executing? || (p.Resumed? && g.rc == DROP)
       case Delete(d) => d == Check(DROP) || (d == LeaveQueue && Delete(LeaveTable) !in g.pcs)
       case Rele(l) => l.WakeNext? && |g.queue| == 1 && g.queue[0] < 3 && g.pcs[g.queue[0]] == Suspended
       case _ => false
  }

  /** Every request that runs is dropped. */
  function Turn(g: Stage, i: nat): Stage
    requires MayTurn(g, i)
  {
    match g.pcs[i]
    case Idle => g.(pcs := g.pcs[i := GetDrc])
    case GetDrc => g.(pcs := g.pcs[i := Start])
    case Start => Stage(g.pcs[i := Suspended], g.queue + [i], g.rc)
    case Run(p) => g.(pcs := g.pcs[i := if p.Executing? then Delete(Check(DROP)) else Run(Executing)])
    case Delete(d) =>
      if d.LeaveQueue? then g.(pcs := g.pcs[i := Delete(LeaveTable)])
      else if g.queue == [] then g.(pcs := g.pcs[i := Delete(LeaveQueue)])
      else Stage(g.pcs[i := Rele(WakeNext)], g.queue, DROP)
    case Rele(_) => Stage(g.pcs[i := Rele(DropEntry)][g.queue[0] := Run(Resumed)], [], g.rc)
    case _ => g
  }

  lemma TurnComes(cfg: Config, n: Node, g: Stage, i: nat)
    requires NodeInv(n) && Race(n, g) && MayTurn(g, i) && g.pcs[i] == Idle
    ensures Race(ReqStep(cfg, n, i, DROPPED).0, Turn(g, i))
  {}

  lemma TurnGets(cfg: Config, n: Node, g: Stage, i: nat)
    requires NodeInv(n) && Race(n, g) && MayTurn(g, i) && g.pcs[i] == GetDrc
    ensures Race(ReqStep(cfg, n, i, DROPPED).0, Turn(g, i))
  {
    Counted(n);
  }

  lemma TurnStarts(cfg: Config, s: Sys, g: Stage, i: nat)
    requires Inv(s) && RaceOn(s, g) && MayTurn(g, i) && g.pcs[i] == Start
    ensures OnEntry(s.reqs[i]) && RaceOn(Move(cfg, s, i, DROP), Turn(g, i))
  {}

  lemma TurnRuns(cfg: Config, s: Sys, g: Stage, i: nat)
    requires Inv(s) && RaceOn(s, g) && MayTurn(g, i) && g.pcs[i].Run?
    ensures OnEntry(s.reqs[i]) && RaceOn(Move(cfg, s, i, DROP), Turn(g, i))
  {}

  lemma TurnChecks(cfg: Config, s: Sys, g: Stage, i: nat)
    requires Inv(s) && RaceOn(s, g) && MayTurn(g, i) && g.pcs[i] == Delete(Check(DROP))
    ensures OnEntry(s.reqs[i]) && RaceOn(Move(cfg, s, i, DROP), Turn(g, i))
  {}

  lemma TurnLeaves(cfg: Config, s: Sys, g: Stage, i: nat)
    requires Inv(s) && RaceOn(s, g) && MayTurn(g, i) && g.pcs[i] == Delete(LeaveQueue)
    ensures OnEntry(s.reqs[i]) && RaceOn(Move(cfg, s, i, DROP), Turn(g, i))
  {
    assert BookOk(s, 0);
    SumZero(s.reqs, LeaveOf(0));
  }

  lemma TurnWakes(cfg: Config, s: Sys, g: Stage, i: nat)
    requires Inv(s) && RaceOn(s, g) && MayTurn(g, i) && g.pcs[i].Rele?
    ensures OnEntry(s.reqs[i]) && RaceOn(Move(cfg, s, i, DROP), Turn(g, i))
  {
    assert g.queue[0] in s.k.entries[0].dup.queue;
  }

  lemma TurnIs(cfg: Config, n: Node, g: Stage, i: nat)
    requires NodeInv(n) && Race(n, g) && MayTurn(g, i)
    ensures Race(ReqStep(cfg, n, i, DROPPED).0, Turn(g, i))
  {
    match g.pcs[i]
    case Start => TurnStarts(cfg, n.sys, g, i);
    case Run(_) => TurnRuns(cfg, n.sys, g, i);
    case Delete(d) => if d.Check? { TurnChecks(cfg, n.sys, g, i); } else { TurnLeaves(cfg, n.sys, g, i); }
    case Rele(_) => TurnWakes(cfg, n.sys, g, i);
    case Idle => TurnComes(cfg, n, g, i);
    case GetDrc => TurnGets(cfg, n, g, i);
    case _ =>
  }

  ghost predicate MayPlay(g: Stage, turns: seq<nat>)
    decreases |turns|
  {
    turns == [] || (MayTurn(g, turns[0]) && MayPlay(Turn(g, turns[0]), turns[1..]))
  }

  function Play(g: Stage, turns: seq<nat>): Stage
    requires MayPlay(g, turns)
    decreases |turns|
  {
    if turns == [] then g else Play(Turn(g, turns[0]), turns[1..])
  }

  lemma {:induction false} Played(cfg: Config, acts: seq<Action>, n: Node, g: Stage, turns: seq<nat>)
    returns (more: seq<Action>, n': Node)
    requires Unretired(cfg, Quiet(4), acts, n) && Race(n, g) && MayPlay(g, turns)
    ensures Unretired(cfg, Quiet(4), more, n') && Race(n', Play(g, turns))
    decreases |turns|
  {
    more, n' := acts, n;
    if turns != [] {
      TurnIs(cfg, n, g, turns[0]);
      more, n' := MoreUnretired(cfg, Quiet(4), acts, n, turns[0], DROPPED);
      more, n' := Played(cfg, more, n', Turn(g, turns[0]), turns[1..]);
    }
  }

  lemma RaceStarts(cfg: Config, n: Node)
    requires NodeInv(n) && Stack(n, 1, 4, Idle)
    ensures Race(n, Stage([Run(Executing), Idle, Idle, Idle], [], OK))
  {
    Counted(n);
    assert DrcPart(n.sys.reqs[0]) == 1;
    assert n.sys.k.q[0] in n.sys.k.q;
  }

  /** The schedule to `g'` begins with `i`, which leads from `g` to where the rest begins. */
  lemma TurnThen(g: Stage, i: nat, g1: Stage, rest: seq<nat>) returns (turns: seq<nat>)
    requires MayTurn(g, i) && Turn(g, i) == g1 && MayPlay(g1, rest)
    ensures MayPlay(g, turns) && Play(g, turns) == Play(g1, rest)
  {
    turns := [i] + rest;
    assert turns[1..] == rest;
  }

  /** The second waits when the first is dropped: it is resumed, and told to try again. */
  lemma SecondTries(rest: seq<nat>) returns (turns: seq<nat>)
    requires MayPlay(Stage([Rele(DropEntry), Run(Executing), Idle, Idle], [], DROP), rest)
    ensures var g := Stage([Run(Executing), Suspended, Idle, Idle], [1], OK);
      MayPlay(g, turns) && Play(g, turns) == Play(Stage([Rele(DropEntry), Run(Executing), Idle, Idle], [], DROP), rest)
  {
    var g1 := Stage([Delete(Check(DROP)), Suspended, Idle, Idle], [1], OK);
    var g2 := Stage([Rele(WakeNext), Suspended, Idle, Idle], [1], DROP);
    var g3 := Stage([Rele(DropEntry), Run(Resumed), Idle, Idle], [], DROP);
    turns := TurnThen(g3, 1, Stage([Rele(DropEntry), Run(Executing), Idle, Idle], [], DROP), rest);
    turns := TurnThen(g2, 0, g3, turns);
    turns := TurnThen(g1, 0, g2, turns);
    turns := TurnThen(Stage([Run(Executing), Suspended, Idle, Idle], [1], OK), 0, g1, turns);
  }

  /** It is dropped too, and nobody waits; the third finds the entry before it is out of the table. */
  lemma ThirdWaits() returns (turns: seq<nat>)
    ensures var g := Stage([Rele(DropEntry), Run(Executing), Idle, Idle], [], DROP);
      MayPlay(g, turns) && Play(g, turns) == Stage([Rele(DropEntry), Delete(LeaveTable), Suspended, Idle], [2], DROP)
  {
    var g1 := Stage([Rele(DropEntry), Delete(Check(DROP)), Idle, Idle], [], DROP);
    var g2 := Stage([Rele(DropEntry), Delete(LeaveQueue), Idle, Idle], [], DROP);
    var g3 := Stage([Rele(DropEntry), Delete(LeaveQueue), Suspended, Idle], [2], DROP);
    turns := TurnThen(g3, 1, Stage([Rele(DropEntry), Delete(LeaveTable), Suspended, Idle], [2], DROP), []);
    turns := Waits(g2, 2, turns);
    turns := TurnThen(g1, 1, g2, turns);
    turns := TurnThen(Stage([Rele(DropEntry), Run(Executing), Idle, Idle], [], DROP), 1, g1, turns);
  }

  lemma Waits(g: Stage, i: nat, rest: seq<nat>) returns (turns: seq<nat>)
    requires |g.pcs| == 4 && 0 < i < 3 && g.pcs[i] == Idle
    requires MayPlay(Stage(g.pcs[i := Suspended], g.queue + [i], g.rc), rest)
    ensures MayPlay(g, turns) && Play(g, turns) == Play(Stage(g.pcs[i := Suspended], g.queue + [i], g.rc), rest)
  {
    var g1 := g.(pcs := g.pcs[i := GetDrc]);
    var g2 := g.(pcs := g.pcs[i := Start]);
    assert g1.pcs[i := Start] == g2.pcs && g2.pcs[i := Suspended] == g.pcs[i := Suspended];
    turns := TurnThen(g2, i, Stage(g.pcs[i := Suspended], g.queue + [i], g.rc), rest);
    turns := TurnThen(g1, i, g2, turns);
    turns := TurnThen(g, i, g1, turns);
  }

  lemma Schedule() returns (turns: seq<nat>)
    ensures var g := Stage([Run(Executing), Idle, Idle, Idle], [], OK);
      MayPlay(g, turns) && Play(g, turns) == Stage([Rele(DropEntry), Delete(LeaveTable), Suspended, Idle], [2], DROP)
  {
    turns := ThirdWaits();
    turns := SecondTries(turns);
    var g := Stage([Run(Executing), Idle, Idle, Idle], [], OK);
    assert g.pcs[1 := Suspended] == [Run(Executing), Suspended, Idle, Idle] && g.queue + [1] == [1];
    turns := Waits(g, 1, turns);
  }

  lemma LeavingIsHot(w: World, n: Node)
    requires w.nodes == [n] && NodeInv(n)
    requires Race(n, Stage([Rele(DropEntry), Delete(LeaveTable), Suspended, Idle], [2], DROP))
    ensures HotAct(w, AReq(0, 1, CHOICE))
  {
    assert TakesOut(n.sys, 1, 0) && HotAt(n.sys, 0, 1);
  }

  lemma AboutToLeave(cfg: Config) returns (acts: seq<Action>, n: Node)
    ensures Unretired(cfg, Quiet(4), acts, n)
    ensures Race(n, Stage([Rele(DropEntry), Delete(LeaveTable), Suspended, Idle], [2], DROP))
  {
    acts, n := AllRun(cfg, 1, 4);
    RaceStarts(cfg, n);
    var turns := Schedule();
    acts, n := Played(cfg, acts, n, Stage([Run(Executing), Idle, Idle, Idle], [], OK), turns);
  }

  /** For every configuration, a run in which nothing is retired, an entry is deleted after a duplicate has
      found it, and the duplicate's request is then executed twice at once. */
  lemma TwiceByDeleting(cfg: Config) returns (acts: seq<Action>, i: nat)
    ensures Init(Quiet(4))
    ensures var w := Reached(cfg, Quiet(4), acts); |w.nodes| > 0 && RunTwice(w.nodes[0].sys, i, 3)
    ensures WorldInv(Quiet(4)) && NoneRetires(cfg, Quiet(4), acts)
  {
    var n;
    acts, n := AboutToLeave(cfg);
    InitInv(Quiet(4));
    var w := Reached(cfg, Quiet(4), acts);
    LeavingIsHot(w, n);
    var a, rest := AReq(0, 1, CHOICE), [];
    rest, i := HotActRepeats(cfg, w, a, 3, 0);
    AfterBoth(cfg, Quiet(4), acts, [a] + rest);
    NoneRetiresTo(cfg, Quiet(4), acts, w, [a] + rest);
    acts := acts + ([a] + rest);
  }
}
