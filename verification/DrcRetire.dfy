/** How many entries a finish retires when nobody comes between its steps. */
module DrcRetire {
  import opened DupReq

  /** One step of request `me`. */
  ghost predicate Stepped(cfg: Config, s: Sys, s': Sys, me: nat) {
    Inv(s) && me < |s.reqs| && OnEntry(s.reqs[me]) && s' == Move(cfg, s, me, OK)
  }

  ghost predicate SteppedAt(cfg: Config, ss: seq<Sys>, me: nat, k: nat)
    requires k + 1 < |ss|
  {
    Stepped(cfg, ss[k], ss[k + 1], me)
  }

  /** From `s` to `s'` request `me` takes steps, and nobody else any. */
  ghost predicate Solo(cfg: Config, ss: seq<Sys>, me: nat, s: Sys, s': Sys) {
    && |ss| > 0 && ss[0] == s && ss[|ss| - 1] == s'
    && forall k :: 0 <= k < |ss| - 1 ==> SteppedAt(cfg, ss, me, k)
  }

  lemma SoloMore(cfg: Config, ss: seq<Sys>, me: nat, s: Sys, s1: Sys, s': Sys) returns (ss': seq<Sys>)
    requires Solo(cfg, ss, me, s, s1) && Stepped(cfg, s1, s', me)
    ensures Solo(cfg, ss', me, s, s')
  {
    ss' := ss + [s'];
    forall k | 0 <= k < |ss'| - 1 ensures SteppedAt(cfg, ss', me, k) {
      assert k < |ss| - 1 ==> SteppedAt(cfg, ss, me, k);
    }
  }

  /** What the cache may hold: while duplicates came lately up to its maximum, and otherwise up to the high
      water mark, if that is lower. */
  function Room(cfg: Config, window: int): int {
    if window <= 0 && cfg.hiwat < cfg.maxsize then cfg.hiwat else cfg.maxsize
  }

  /** How many are too many, and no more than `most`. */
  function Surplus(size: nat, room: int, most: nat): nat {
    if size <= room then 0
    else
      var over := if room < 0 then size else size - room;
      if over < most then over else most
  }

  /** Each finish brings the window one nearer to its end. */
  function WindowAfter(n: nat, window: int): int {
    if n == 0 && window > 0 then window - 1 else window
  }

  lemma Looks(cfg: Config, s: Sys, me: nat, n: nat)
    requires Inv(s) && me < |s.reqs| && s.reqs[me].pc == Finish(Retire(n))
    ensures var s', w := Move(cfg, s, me, OK), WindowAfter(n, s.k.retwnd);
      && Inv(s') && |s'.reqs| == |s.reqs| && s'.k == s.k.(retwnd := w)
      && (s.k.q != [] ==> s.k.q[0] in s.k.entries)
      && s'.reqs[me].pc == if |s.k.q| > Room(cfg, w) && s.k.q != []
                           then Finish(RetirePop(n, s.k.entries[s.k.q[0]].key.hk)) else Rele(WakeNext)
  {
    assert s.k.q != [] ==> s.k.q[0] in s.k.q;
    MoveInv(cfg, s, me, OK);
  }

  lemma Pops(cfg: Config, s: Sys, me: nat, n: nat)
    requires Inv(s) && me < |s.reqs| && s.k.q != [] && s.k.q[0] in s.k.entries
    requires s.reqs[me].pc == Finish(RetirePop(n, s.k.entries[s.k.q[0]].key.hk))
    ensures var s' := Move(cfg, s, me, OK);
      && Inv(s') && |s'.reqs| == |s.reqs| && s'.k.q == s.k.q[1..] && s'.k.retwnd == s.k.retwnd
      && s'.reqs[me].pc == Finish(RetirePut(n, s.k.q[0]))
  {
    MoveInv(cfg, s, me, OK);
  }

  lemma Puts(cfg: Config, s: Sys, me: nat, n: nat, ov: nat)
    requires Inv(s) && me < |s.reqs| && s.reqs[me].pc == Finish(RetirePut(n, ov))
    ensures var s' := Move(cfg, s, me, OK);
      && Inv(s') && |s'.reqs| == |s.reqs| && s'.k.q == s.k.q && s'.k.retwnd == s.k.retwnd
      && s'.reqs[me].pc == if n < 5 then Finish(Retire(n + 1)) else Rele(WakeNext)
  {
    MoveInv(cfg, s, me, OK);
  }

  lemma Turn(cfg: Config, ss: seq<Sys>, s0: Sys, s: Sys, me: nat, n: nat) returns (ss': seq<Sys>, s': Sys)
    requires Solo(cfg, ss, me, s0, s) && Inv(s) && me < |s.reqs| && s.reqs[me].pc == Finish(Retire(n))
    requires |s.k.q| > Room(cfg, WindowAfter(n, s.k.retwnd)) && s.k.q != []
    ensures Solo(cfg, ss', me, s0, s') && Inv(s') && |s'.reqs| == |s.reqs|
    ensures s'.reqs[me].pc == if n < 5 then Finish(Retire(n + 1)) else Rele(WakeNext)
    ensures s'.k.q == s.k.q[1..] && s'.k.retwnd == WindowAfter(n, s.k.retwnd)
  {
    Looks(cfg, s, me, n);
    var s1 := Move(cfg, s, me, OK);
    ss' := SoloMore(cfg, ss, me, s0, s, s1);
    Pops(cfg, s1, me, n);
    var s2 := Move(cfg, s1, me, OK);
    ss' := SoloMore(cfg, ss', me, s0, s1, s2);
    Puts(cfg, s2, me, n, s.k.q[0]);
    s' := Move(cfg, s2, me, OK);
    ss' := SoloMore(cfg, ss', me, s0, s2, s');
  }

  lemma LastLook(cfg: Config, ss: seq<Sys>, s0: Sys, s: Sys, me: nat, n: nat) returns (ss': seq<Sys>, s': Sys)
    requires Solo(cfg, ss, me, s0, s) && Inv(s) && me < |s.reqs| && s.reqs[me].pc == Finish(Retire(n))
    requires |s.k.q| <= Room(cfg, WindowAfter(n, s.k.retwnd)) || s.k.q == []
    ensures Solo(cfg, ss', me, s0, s') && Inv(s') && me < |s'.reqs| && s'.reqs[me].pc == Rele(WakeNext)
    ensures s'.k.q == s.k.q && s'.k.retwnd == WindowAfter(n, s.k.retwnd)
  {
    Looks(cfg, s, me, n);
    s' := Move(cfg, s, me, OK);
    ss' := SoloMore(cfg, ss, me, s0, s, s');
  }

  lemma {:induction false} RetireLoop(cfg: Config, ss: seq<Sys>, s0: Sys, s: Sys, me: nat, n: nat)
    returns (ss': seq<Sys>, s': Sys)
    requires Solo(cfg, ss, me, s0, s) && Inv(s) && me < |s.reqs| && s.reqs[me].pc == Finish(Retire(n)) && n <= 5
    ensures Solo(cfg, ss', me, s0, s') && Inv(s') && me < |s'.reqs| && s'.reqs[me].pc == Rele(WakeNext)
    ensures var w := WindowAfter(n, s.k.retwnd); var r := Surplus(|s.k.q|, Room(cfg, w), 6 - n);
      r <= |s.k.q| && s'.k.q == s.k.q[r..] && s'.k.retwnd == w
    decreases 6 - n
  {
    if |s.k.q| > Room(cfg, WindowAfter(n, s.k.retwnd)) && s.k.q != [] {
      ss', s' := Turn(cfg, ss, s0, s, me, n);
      if n < 5 {
        ss', s' := RetireLoop(cfg, ss', s0, s', me, n + 1);
      }
    } else {
      ss', s' := LastLook(cfg, ss, s0, s, me, n);
    }
  }

  /** A finish that nobody comes between retires from the head of the queue exactly what is too much, but
      never more than six entries. */
  lemma RetiresSurplus(cfg: Config, s: Sys, me: nat) returns (ss: seq<Sys>, s': Sys)
    requires Inv(s) && me < |s.reqs| && s.reqs[me].pc == Finish(Retire(0))
    ensures Solo(cfg, ss, me, s, s') && me < |s'.reqs| && s'.reqs[me].pc == Rele(WakeNext)
    ensures var window := if s.k.retwnd > 0 then s.k.retwnd - 1 else s.k.retwnd;
      var r := Surplus(s.k.size, Room(cfg, window), 6);
      s'.k.q == s.k.q[r..] && s'.k.size == s.k.size - r && s'.k.retwnd == window
  {
    ss, s' := RetireLoop(cfg, [s], s, s, me, 0);
  }
}
