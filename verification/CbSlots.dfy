/** Slots of an NFSv4.1 back channel (sections 2.10.6.1 and 20.9 of RFC 5661): each call to the
    client takes one, numbers itself in it, and gives it back. */
module CbSlots {
  import opened Tally

  const WRAP: int := 0x1_0000_0000
  type Seqid = n: int | 0 <= n < WRAP

  datatype Slot = Slot(inUse: bool, sequence: Seqid)

  function Next(n: Seqid): Seqid {
    if n + 1 == WRAP then 0 else n + 1
  }

  function Prev(n: Seqid): Seqid {
    if n == 0 then WRAP - 1 else n - 1
  }

  predicate FreeAt(slots: seq<Slot>, limit: nat, k: nat) {
    k < limit && k < |slots| && !slots[k].inUse
  }

  ghost predicate HasFree(slots: seq<Slot>, limit: nat) {
    exists k :: FreeAt(slots, limit, k)
  }

  /** The first free slot, and the highest of it and those in use. */
  ghost predicate Picked(slots: seq<Slot>, limit: nat, slot: nat, highest: nat) {
    && FreeAt(slots, limit, slot) && (forall k: nat :: k < slot ==> !FreeAt(slots, limit, k))
    && slot <= highest < limit && highest < |slots| && (highest == slot || slots[highest].inUse)
    && (forall k :: highest < k < limit && k < |slots| ==> !slots[k].inUse)
  }

  function Taken(slots: seq<Slot>, k: nat): seq<Slot>
    requires k < |slots|
  {
    slots[k := Slot(true, Next(slots[k].sequence))]
  }

  function Released(slots: seq<Slot>, k: nat, sent: bool): seq<Slot>
    requires k < |slots|
  {
    slots[k := Slot(false, if sent then slots[k].sequence else Prev(slots[k].sequence))]
  }

  class Session {
    var slots: seq<Slot>
    var maxRequests: nat
    var up: bool

    function Limit(): nat
      reads this
    {
      if maxRequests < |slots| then maxRequests else |slots|
    }

    /** The scan of find_cb_slot. */
    method Scan() returns (found: bool, slot: nat, highest: nat)
      ensures found <==> HasFree(slots, Limit())
      ensures found ==> Picked(slots, Limit(), slot, highest)
    {
      found, slot, highest := false, 0, 0;
      for cur := 0 to Limit()
        invariant !found ==> forall k: nat :: k < cur ==> slots[k].inUse
        invariant found ==> slot < cur && FreeAt(slots, Limit(), slot) && forall k: nat :: k < slot ==> slots[k].inUse
        invariant found ==> slot <= highest < cur && (highest == slot || slots[highest].inUse)
        invariant found ==> forall k :: highest < k < cur ==> !slots[k].inUse
      {
        if !slots[cur].inUse && !found {
          found, slot, highest := true, cur, cur;
        }
        if slots[cur].inUse {
          highest := cur;
        }
      }
    }

    /** find_cb_slot. When it waits, the other threads leave the slots as `after`, and it was woken
        or not. */
    method FindSlot(wait: bool, woke: bool, after: seq<Slot>) returns (found: bool, slot: nat, highest: nat)
      requires |after| == |slots|
      modifies `slots
      ensures var base := if HasFree(old(slots), Limit()) || !wait then old(slots) else after;
        && |slots| == old(|slots|)
        && (found <==> HasFree(base, Limit()) && (HasFree(old(slots), Limit()) || woke))
        && (found ==> Picked(base, Limit(), slot, highest) && slots == Taken(base, slot))
        && (!found ==> slots == base)
      ensures found ==> slot < maxRequests && slot < |slots|
      ensures !found && !wait ==> forall k :: 0 <= k < |slots| && k < maxRequests ==> slots[k].inUse
    {
      found, slot, highest := Scan();
      if !found && wait {
        slots := after;
        if woke {
          found, slot, highest := Scan();
        }
      }
      if !found && !wait {
        forall k | 0 <= k < |slots| && k < maxRequests ensures slots[k].inUse {
          assert !FreeAt(slots, Limit(), k);
        }
      }
      if found {
        slots := slots[slot := Slot(true, Next(slots[slot].sequence))];
      }
    }

    /** release_cb_slot. */
    method ReleaseSlot(slot: nat, sent: bool)
      requires slot < |slots|
      modifies `slots
      ensures slots == Released(old(slots), slot, sent)
    {
      slots := slots[slot := slots[slot].(inUse := false)];
      if !sent {
        slots := slots[slot := slots[slot].(sequence := Prev(slots[slot].sequence))];
      }
    }
  }

  /** A slot that was taken and given back unsent is as it was. */
  lemma UnsentUndoes(slots: seq<Slot>, k: nat)
    requires k < |slots| && !slots[k].inUse
    ensures Released(Taken(slots, k), k, false) == slots
  {
    assert Prev(Next(slots[k].sequence)) == slots[k].sequence;
  }

  // ----- nfs_rpc_v41_single -------------------------------------------------------------------------

  const ENOTCONN: int := 107

  /** What the rest of the system does at the n-th walk over the sessions: whether a reference on
      session `i` can be had, what sending on it returns, whether a wait for a slot of it is woken,
      and the slots that the other threads leave when the wait is over. */
  datatype World = World(
    alive: (nat, nat) -> bool, send: (nat, nat) -> int,
    woke: (nat, nat) -> bool, after: (nat, nat) -> seq<Slot>)

  ghost predicate Apart(ss: seq<Session>) {
    forall i, j :: 0 <= i < j < |ss| ==> ss[i] != ss[j]
  }

  /** A session as a value. */
  datatype View = View(slots: seq<Slot>, limit: nat, up: bool)

  ghost function ViewOf(s: Session): View
    reads s
  {
    View(s.slots, s.Limit(), s.up)
  }

  ghost function ViewAll(ss: seq<Session>): seq<View>
    reads ss
  {
    seq(|ss|, i requires 0 <= i < |ss| reads ss => ViewOf(ss[i]))
  }

  /** No session's number of slots changes. */
  ghost predicate Fits(w: World, v: seq<View>) {
    forall n: nat, i: nat :: i < |v| ==> |w.after(n, i)| == |v[i].slots|
  }

  /** The sessions whose back channel is up. */
  ghost function Ups(v: seq<View>): set<nat> {
    set i | 0 <= i < |v| && v[i].up
  }

  /** A session's slots as the others left them, once it has been looked at in walk `n`. */
  ghost function LeftAt(w: World, n: nat, i: nat, waited: bool, slots: seq<Slot>): seq<Slot> {
    if waited then w.after(n, i) else slots
  }

  /** Whether a call can be sent on the session: its back channel is up, a slot is free, at once or
      after a wait that was woken, and a reference can be had. */
  ghost predicate Usable(w: World, n: nat, i: nat, waited: bool, v: View) {
    v.up && w.alive(n, i) && HasFree(v.slots, v.limit) && (waited ==> w.woke(n, i))
  }

  datatype Tried = Skipped | Used(slot: nat) | Broken(code: int)

  /** What one session in a walk can come to; it waits just when it may and no slot is free. */
  ghost predicate Outcome(w: World, n: nat, i: nat, wait: bool, v: View, v': View, r: Tried, waited: bool) {
    var left := LeftAt(w, n, i, waited, v.slots);
    && v'.limit == v.limit && |v'.slots| == |v.slots|
    && (waited <==> wait && v.up && !HasFree(v.slots, v.limit))
    && match r
       case Skipped => v'.slots == left && v'.up == v.up && !Usable(w, n, i, waited, v')
       case Used(k) =>
         && v.up && v'.up && FreeAt(left, v.limit, k) && v'.slots == Taken(left, k)
         && w.alive(n, i) && w.send(n, i) == 0
       case Broken(code) => v.up && !v'.up && v'.slots == left && code == w.send(n, i) != 0
  }

  /** One session in a walk. */
  method Attempt(s: Session, n: nat, i: nat, wait: bool, w: World) returns (r: Tried, ghost waited: bool)
    requires |w.after(n, i)| == |s.slots|
    modifies s
    ensures Outcome(w, n, i, wait, old(ViewOf(s)), ViewOf(s), r, waited)
  {
    waited := wait && s.up && !HasFree(s.slots, s.Limit());
    r := Skipped;
    if !s.up {
      return;
    }
    ghost var left := LeftAt(w, n, i, waited, s.slots);
    var found, slot, highest := s.FindSlot(wait, w.woke(n, i), w.after(n, i));
    if !found {
      return;
    }
    UnsentUndoes(left, slot);
    if !w.alive(n, i) {
      s.ReleaseSlot(slot, false);
      return;
    }
    var code := w.send(n, i);
    if code == 0 {
      r := Used(slot);
      return;
    }
    s.up := false;
    s.ReleaseSlot(slot, false);
    r := Broken(code);
  }

  method AttemptAt(ss: seq<Session>, n: nat, i: nat, wait: bool, w: World)
    returns (r: Tried, ghost waited: bool, ghost v': View)
    requires Apart(ss) && i < |ss| && |w.after(n, i)| == |ss[i].slots|
    modifies ss
    ensures ViewAll(ss) == old(ViewAll(ss))[i := v']
    ensures Outcome(w, n, i, wait, old(ViewAll(ss))[i], v', r, waited)
  {
    r, waited := Attempt(ss[i], n, i, wait, w);
    v' := ViewOf(ss[i]);
    assert ViewAll(ss)[i] == v';
  }

  datatype Walked = Sent(at: nat, slot: nat) | Failed(at: nat, code: int) | NothingLeft

  /** The first `i` sessions were skipped, after the waits `waits`. */
  ghost predicate SkippedTo(w: World, n: nat, wait: bool, v: seq<View>, v': seq<View>, i: nat, waits: set<nat>) {
    && |v'| == |v| && i <= |v| && (forall k :: k in waits ==> 0 <= k < i)
    && (forall k {:trigger Outcome(w, n, k, wait, v[k], v'[k], Skipped, k in waits)} :: 0 <= k < i ==>
          Outcome(w, n, k, wait, v[k], v'[k], Skipped, k in waits))
    && forall k :: i <= k < |v| ==> v'[k] == v[k]
  }

  /** A walk: sessions are skipped, up to one where something came of it. */
  ghost predicate WalkedOver(w: World, n: nat, wait: bool, v: seq<View>, v': seq<View>, r: Walked, waits: set<nat>) {
    match r
    case NothingLeft => SkippedTo(w, n, wait, v, v', |v|, waits)
    case Sent(at, k) => EndedAt(w, n, wait, v, v', at, Used(k), waits)
    case Failed(at, code) => EndedAt(w, n, wait, v, v', at, Broken(code), waits)
  }

  ghost predicate EndedAt(w: World, n: nat, wait: bool, v: seq<View>, v': seq<View>, at: nat, r: Tried,
                          waits: set<nat>) {
    && at < |v| == |v'| && (forall k :: k in waits ==> 0 <= k <= at)
    && SkippedTo(w, n, wait, v, v'[at := v[at]], at, waits - {at})
    && Outcome(w, n, at, wait, v[at], v'[at], r, at in waits)
  }

  /** One walk of nfs_rpc_v41_single over the client's sessions. */
  method Walk(ss: seq<Session>, n: nat, wait: bool, w: World) returns (r: Walked, ghost waits: set<nat>)
    requires Apart(ss) && Fits(w, ViewAll(ss))
    modifies ss
    ensures WalkedOver(w, n, wait, old(ViewAll(ss)), ViewAll(ss), r, waits)
  {
    waits := {};
    ghost var v := ViewAll(ss);
    for i := 0 to |ss|
      invariant SkippedTo(w, n, wait, v, ViewAll(ss), i, waits)
    {
      assert ViewAll(ss)[i] == v[i];
      ghost var before := ViewAll(ss);
      var tried;
      ghost var waited, v';
      tried, waited, v' := AttemptAt(ss, n, i, wait, w);
      ghost var more := if waited then waits + {i} else waits;
      WalkStep(w, n, wait, v, before, i, v', tried, waits, more);
      waits := more;
      match tried {
        case Skipped =>
        case Used(k) =>
          r := Sent(i, k);
          return;
        case Broken(code) =>
          r := Failed(i, code);
          return;
      }
    }
    r := NothingLeft;
  }

  lemma WalkStep(w: World, n: nat, wait: bool, v: seq<View>, before: seq<View>, i: nat, v': View, tried: Tried,
                 waits: set<nat>, more: set<nat>)
    requires SkippedTo(w, n, wait, v, before, i, waits) && i < |v|
    requires more == (if i in more then waits + {i} else waits)
    requires Outcome(w, n, i, wait, v[i], v', tried, i in more)
    ensures tried.Skipped? ==> SkippedTo(w, n, wait, v, before[i := v'], i + 1, more)
    ensures !tried.Skipped? ==> EndedAt(w, n, wait, v, before[i := v'], i, tried, more)
  {
    var now := before[i := v'];
    assert more - {i} == waits && now[i := v[i]] == before;
    forall k | 0 <= k < i ensures Outcome(w, n, k, wait, v[k], now[k], Skipped, k in more) {
      assert Outcome(w, n, k, wait, v[k], before[k], Skipped, k in waits);
    }
  }

  ghost function SlotsOf(v: seq<View>): seq<seq<Slot>> {
    seq(|v|, i requires 0 <= i < |v| => v[i].slots)
  }

  ghost function LeftAll(w: World, n: nat, slots: seq<seq<Slot>>, waits: set<nat>): seq<seq<Slot>> {
    seq(|slots|, i requires 0 <= i < |slots| => LeftAt(w, n, i, i in waits, slots[i]))
  }

  /** Only the others, while a session without a free slot was waited for, have changed anything. */
  lemma SkippedEffect(w: World, n: nat, wait: bool, v: seq<View>, v': seq<View>, i: nat, waits: set<nat>)
    requires SkippedTo(w, n, wait, v, v', i, waits)
    ensures SlotsOf(v') == LeftAll(w, n, SlotsOf(v), waits) && Ups(v') == Ups(v) && SameShape(v, v')
    ensures forall k :: k in waits ==> wait && k < |v| && !HasFree(v[k].slots, v[k].limit)
    ensures forall k :: 0 <= k < i ==> !Usable(w, n, k, k in waits, v'[k])
  {
    forall k | 0 <= k < |v|
      ensures v'[k].slots == LeftAt(w, n, k, k in waits, v[k].slots) && v'[k].up == v[k].up
      ensures v'[k].limit == v[k].limit && |v'[k].slots| == |v[k].slots|
      ensures k in waits ==> wait && !HasFree(v[k].slots, v[k].limit)
      ensures k < i ==> !Usable(w, n, k, k in waits, v'[k])
    {
      assert k < i ==> Outcome(w, n, k, wait, v[k], v'[k], Skipped, k in waits);
    }
  }

  ghost predicate SameShape(v: seq<View>, v': seq<View>) {
    && |v'| == |v|
    && forall k :: 0 <= k < |v| ==> v'[k].limit == v[k].limit && |v'[k].slots| == |v[k].slots|
  }

  lemma EndedEffect(w: World, n: nat, wait: bool, v: seq<View>, v': seq<View>, at: nat, r: Tried, waits: set<nat>)
    requires EndedAt(w, n, wait, v, v', at, r, waits) && !r.Skipped?
    ensures var left := LeftAll(w, n, SlotsOf(v), waits);
      SlotsOf(v') == if r.Used? then left[at := Taken(left[at], r.slot)] else left
    ensures SameShape(v, v') && Ups(v') == (if r.Broken? then Ups(v) - {at} else Ups(v)) && at in Ups(v)
    ensures forall k :: k in waits ==> wait && k < |v| && !HasFree(v[k].slots, v[k].limit)
    ensures r.Used? ==> FreeAt(LeftAll(w, n, SlotsOf(v), waits)[at], v[at].limit, r.slot)
  {
    var mid := v'[at := v[at]];
    SkippedEffect(w, n, wait, v, mid, at, waits - {at});
    var left := LeftAll(w, n, SlotsOf(v), waits);
    forall k | 0 <= k < |v| && k != at
      ensures v'[k].slots == left[k] && v'[k].up == v[k].up
      ensures v'[k].limit == v[k].limit && |v'[k].slots| == |v[k].slots|
    {
      assert mid[k] == v'[k] && SlotsOf(mid)[k] == v'[k].slots && (k in Ups(mid) <==> v'[k].up);
      assert k in Ups(v) <==> v[k].up;
    }
    assert SlotsOf(v') == if r.Used? then left[at := Taken(left[at], r.slot)] else left;
    assert Ups(v') == if r.Broken? then Ups(v) - {at} else Ups(v);
  }

  /** The slots of every session as the others left them before each walk: `seen[0]` at the start, and
      after that changed only by the waits `waits[q]` of walk `q`, each for a session that had no free
      slot. */
  ghost predicate Witnessed(w: World, v: seq<View>, seen: seq<seq<seq<Slot>>>, waits: seq<set<nat>>) {
    && |seen| == |waits| + 1 && seen[0] == SlotsOf(v)
    && forall q :: 0 <= q < |waits| ==> OneWalk(w, q, v, seen[q], waits[q], seen[q + 1])
  }

  ghost predicate OneWalk(w: World, q: nat, v: seq<View>, slots: seq<seq<Slot>>, waits: set<nat>,
                          left: seq<seq<Slot>>) {
    && |slots| == |v| && left == LeftAll(w, q, slots, waits)
    && forall i :: i in waits ==> 0 <= i < |v| && !HasFree(slots[i], v[i].limit)
  }

  lemma WitnessMore(w: World, v: seq<View>, now: seq<View>, seen: seq<seq<seq<Slot>>>, waits: seq<set<nat>>,
                    more: set<nat>)
    requires Witnessed(w, v, seen, waits) && SameShape(v, now) && SlotsOf(now) == seen[|waits|]
    requires forall i :: i in more ==> 0 <= i < |v| && !HasFree(now[i].slots, now[i].limit)
    ensures Witnessed(w, v, seen + [LeftAll(w, |waits|, seen[|waits|], more)], waits + [more])
  {
    var seen', waits' := seen + [LeftAll(w, |waits|, seen[|waits|], more)], waits + [more];
    forall i | i in more ensures 0 <= i < |v| && !HasFree(seen[|waits|][i], v[i].limit) {
      assert SlotsOf(now)[i] == now[i].slots;
    }
    forall q | 0 <= q < |waits'| ensures OneWalk(w, q, v, seen'[q], waits'[q], seen'[q + 1]) {
      if q < |waits| {
        assert OneWalk(w, q, v, seen[q], waits[q], seen[q + 1]);
      }
    }
  }

  /** What the whole call has done: nothing, but for the others, if it failed; and otherwise one free
      slot of a session whose back channel was up is taken. */
  ghost predicate Served(v: seq<View>, v': seq<View>, left: seq<seq<Slot>>, ret: int, at: nat, slot: nat) {
    if ret != 0 then SlotsOf(v') == left
    else at < |v| == |left| && v[at].up && FreeAt(left[at], v[at].limit, slot)
         && SlotsOf(v') == left[at := Taken(left[at], slot)]
  }

  /** One more walk, seen from the start. */
  lemma AfterWalk(w: World, v: seq<View>, now: seq<View>, v': seq<View>, seen: seq<seq<seq<Slot>>>,
                  waits: seq<set<nat>>, wait: bool, r: Walked, more: set<nat>)
    requires Witnessed(w, v, seen, waits) && SameShape(v, now) && SlotsOf(now) == seen[|waits|]
    requires Fits(w, now) && Ups(now) <= Ups(v)
    requires WalkedOver(w, |waits|, wait, now, v', r, more)
    ensures var left := LeftAll(w, |waits|, seen[|waits|], more);
      && Witnessed(w, v, seen + [left], waits + [more])
      && (r.Sent? ==> Served(v, v', left, 0, r.at, r.slot))
      && (!r.Sent? ==> SlotsOf(v') == left)
    ensures SameShape(v, v') && Fits(w, v') && Ups(v') <= Ups(now)
    ensures r.Failed? ==> Ups(v') < Ups(now) && r.code != 0
    ensures r.NothingLeft? ==> forall i :: 0 <= i < |v'| ==> !Usable(w, |waits|, i, i in more, v'[i])
  {
    var n := |waits|;
    match r {
      case NothingLeft => SkippedEffect(w, n, wait, now, v', |now|, more);
      case Sent(at, k) =>
        EndedEffect(w, n, wait, now, v', at, Used(k), more);
        assert at in Ups(v);
      case Failed(at, code) =>
        EndedEffect(w, n, wait, now, v', at, Broken(code), more);
        assert at in Ups(now) && at !in Ups(v');
    }
    WitnessMore(w, v, now, seen, waits, more);
  }

  /** One walk: whether it might wait, the sessions before it, and what came of it. */
  datatype Round = Round(wait: bool, before: seq<View>, r: Walked)

  /** After it there is another. */
  predicate GoesOn(r: Round) {
    r.r.Failed? || (r.r.NothingLeft? && !r.wait)
  }

  /** The last error, or that there is nobody to send to. */
  function LastCode(log: seq<Round>): int {
    if |log| == 0 then ENOTCONN
    else if log[|log| - 1].r.Failed? then log[|log| - 1].r.code else LastCode(log[..|log| - 1])
  }

  ghost predicate RoundAt(w: World, log: seq<Round>, waits: seq<set<nat>>, end: seq<View>, q: nat)
    requires q < |log| == |waits|
  {
    WalkedOver(w, q, log[q].wait, log[q].before, if q + 1 < |log| then log[q + 1].before else end, log[q].r, waits[q])
  }

  ghost predicate NextRound(log: seq<Round>, q: nat)
    requires q + 1 < |log|
  {
    GoesOn(log[q]) && (log[q + 1].wait <==> log[q].wait || log[q].r.NothingLeft?)
  }

  /** The walks so far: the first does not wait, none does until one has found nothing, and from then on all
      may; each starts where the one before has ended. */
  ghost predicate Told(w: World, v: seq<View>, end: seq<View>, log: seq<Round>, waits: seq<set<nat>>) {
    && |log| == |waits| && (if |log| == 0 then end == v else log[0].before == v && !log[0].wait)
    && (forall q :: 0 <= q < |log| ==> RoundAt(w, log, waits, end, q))
    && forall q :: 0 <= q < |log| - 1 ==> NextRound(log, q)
  }

  ghost predicate MayGoOn(log: seq<Round>, wait: bool) {
    if |log| == 0 then !wait
    else GoesOn(log[|log| - 1]) && (wait <==> log[|log| - 1].wait || log[|log| - 1].r.NothingLeft?)
  }

  lemma RoundStays(w: World, log: seq<Round>, waits: seq<set<nat>>, now: seq<View>, end: seq<View>, last: Round,
                   more: set<nat>, q: nat)
    requires q < |log| == |waits| && last.before == now && RoundAt(w, log, waits, now, q)
    ensures RoundAt(w, log + [last], waits + [more], end, q)
  {}

  lemma RoundAdded(w: World, log: seq<Round>, waits: seq<set<nat>>, end: seq<View>, last: Round, more: set<nat>)
    requires |log| == |waits| && WalkedOver(w, |log|, last.wait, last.before, end, last.r, more)
    ensures RoundAt(w, log + [last], waits + [more], end, |log|)
  {}

  lemma RoundsLinked(log: seq<Round>, last: Round, q: nat)
    requires q < |log| && MayGoOn(log, last.wait) && (q + 1 < |log| ==> NextRound(log, q))
    ensures NextRound(log + [last], q)
  {}

  lemma ToldMore(w: World, v: seq<View>, now: seq<View>, end: seq<View>, log: seq<Round>, waits: seq<set<nat>>,
                 wait: bool, r: Walked, more: set<nat>)
    requires Told(w, v, now, log, waits) && MayGoOn(log, wait) && WalkedOver(w, |log|, wait, now, end, r, more)
    ensures Told(w, v, end, log + [Round(wait, now, r)], waits + [more])
    ensures LastCode(log + [Round(wait, now, r)]) == if r.Failed? then r.code else LastCode(log)
  {
    var last := Round(wait, now, r);
    var log', waits' := log + [last], waits + [more];
    assert log'[..|log|] == log;
    forall q | 0 <= q < |log'| ensures RoundAt(w, log', waits', end, q) {
      if q < |log| {
        RoundStays(w, log, waits, now, end, last, more, q);
      } else {
        RoundAdded(w, log, waits, end, last, more);
      }
    }
    forall q | 0 <= q < |log'| - 1 ensures NextRound(log', q) {
      RoundsLinked(log, last, q);
    }
  }

  /** How the call has ended: with a call sent on a session that was there, or with a walk that might wait and
      found nothing, and the last error there was. */
  ghost predicate Ended(w: World, log: seq<Round>, ret: int, at: nat, slot: nat) {
    && |log| > 0
    && var last := log[|log| - 1];
       if ret == 0 then last.r == Sent(at, slot) && w.alive(|log| - 1, at) && w.send(|log| - 1, at) == 0
       else last.r.NothingLeft? && last.wait && ret == LastCode(log)
  }

  /** Between two walks. */
  ghost predicate Going(w: World, v: seq<View>, now: seq<View>, seen: seq<seq<seq<Slot>>>, waits: seq<set<nat>>,
                        log: seq<Round>, wait: bool, ret: int) {
    && ret == LastCode(log) && ret != 0 && Told(w, v, now, log, waits) && MayGoOn(log, wait)
    && Witnessed(w, v, seen, waits) && SlotsOf(now) == seen[|waits|]
    && SameShape(v, now) && Fits(w, now) && Ups(now) <= Ups(v)
  }

  lemma GoingFirst(w: World, v: seq<View>)
    requires Fits(w, v)
    ensures Going(w, v, v, [SlotsOf(v)], [], [], false, ENOTCONN)
  {}

  lemma GoingOn(w: World, v: seq<View>, now: seq<View>, v': seq<View>, seen: seq<seq<seq<Slot>>>, waits: seq<set<nat>>,
                log: seq<Round>, wait: bool, ret: int, r: Walked, more: set<nat>)
    requires Going(w, v, now, seen, waits, log, wait, ret) && WalkedOver(w, |waits|, wait, now, v', r, more)
    ensures var left, log' := LeftAll(w, |waits|, seen[|waits|], more), log + [Round(wait, now, r)];
      && Told(w, v, v', log', waits + [more]) && Witnessed(w, v, seen + [left], waits + [more]) && Ups(v') <= Ups(v)
      && (r.Sent? ==> Served(v, v', left, 0, r.at, r.slot) && Ended(w, log', 0, r.at, r.slot))
      && (r.Failed? ==> Ups(v') < Ups(now) && Going(w, v, v', seen + [left], waits + [more], log', wait, r.code))
      && (r.NothingLeft? && !wait ==> Ups(v') <= Ups(now)
                                      && Going(w, v, v', seen + [left], waits + [more], log', true, ret))
      && (r.NothingLeft? && wait ==> Served(v, v', left, ret, 0, 0) && Ended(w, log', ret, 0, 0)
                                     && forall i :: 0 <= i < |v'| ==> !Usable(w, |waits|, i, i in more, v'[i]))
  {
    AfterWalk(w, v, now, v', seen, waits, wait, r, more);
    ToldMore(w, v, now, v', log, waits, wait, r, more);
  }

  /** nfs_rpc_v41_single. It ends: every restart has taken one more back channel down, or is the one
      that lets it wait. If it fails every slot is as the others left it; if it does not, one free slot
      of one session whose back channel was up is taken, and every other is as the others left it. It
      does not fail while a session could be used. */
  method Single(ss: seq<Session>, w: World)
    returns (ret: int, ghost at: nat, ghost slot: nat, ghost seen: seq<seq<seq<Slot>>>, ghost waits: seq<set<nat>>,
             ghost log: seq<Round>)
    requires Apart(ss) && Fits(w, ViewAll(ss))
    modifies ss
    ensures Witnessed(w, old(ViewAll(ss)), seen, waits) && |waits| > 0
    ensures Served(old(ViewAll(ss)), ViewAll(ss), seen[|waits|], ret, at, slot)
    ensures Ups(ViewAll(ss)) <= Ups(old(ViewAll(ss)))
    ensures ret != 0 ==> forall i :: 0 <= i < |ss| ==>
      !Usable(w, |waits| - 1, i, i in waits[|waits| - 1], ViewAll(ss)[i])
    ensures Told(w, old(ViewAll(ss)), ViewAll(ss), log, waits) && Ended(w, log, ret, at, slot)
  {
    ghost var v := ViewAll(ss);
    ret, at, slot, seen, waits, log := ENOTCONN, 0, 0, [SlotsOf(v)], [], [];
    GoingFirst(w, v);
    var wait, walks := false, 0;
    while true
      invariant |waits| == walks && at == slot == 0 && Going(w, v, ViewAll(ss), seen, waits, log, wait, ret)
      decreases !wait, Ups(ViewAll(ss))
    {
      ghost var now := ViewAll(ss);
      var r;
      ghost var more;
      r, more := Walk(ss, walks, wait, w);
      GoingOn(w, v, now, ViewAll(ss), seen, waits, log, wait, ret, r, more);
      seen, waits := seen + [LeftAll(w, walks, seen[walks], more)], waits + [more];
      log := log + [Round(wait, now, r)];
      match r {
        case Sent(i, k) =>
          ret, at, slot := 0, i, k;
          return;
        case Failed(_, code) =>
          ret := code;
        case NothingLeft =>
          if wait {
            return;
          }
          wait := true;
      }
      walks := walks + 1;
    }
  }

  // ----- all the calls on a session ---------------------------------------------------------------

  /** A call that has taken no slot, has taken one and not been sent, or is on its way. */
  datatype Call = NoCall | Holding(slot: nat) | InFlight(slot: nat)

  /** The session's slots; the calls, any number of them; and, as history, the sequence id each slot
      started with and those of all the calls sent on it. */
  datatype Channel = Channel(slots: seq<Slot>, calls: seq<Call>, start: seq<Seqid>, sent: seq<seq<Seqid>>)

  datatype Event =
    | Find(c: nat, k: nat)
    | Send(c: nat)
    | GiveBack(c: nat)
    | Complete(c: nat)

  predicate Enabled(s: Channel, e: Event) {
    e.c < |s.calls| &&
    match e
    case Find(c, k) => s.calls[c].NoCall? && FreeAt(s.slots, |s.slots|, k)
    case Send(c) => s.calls[c].Holding? && s.calls[c].slot < |s.slots|
    case GiveBack(c) => s.calls[c].Holding? && s.calls[c].slot < |s.slots|
    case Complete(c) => s.calls[c].InFlight? && s.calls[c].slot < |s.slots|
  }

  function Do(s: Channel, e: Event): Channel
    requires Enabled(s, e) && |s.sent| == |s.slots|
  {
    match e
    case Find(c, k) => s.(slots := Taken(s.slots, k), calls := s.calls[c := Holding(k)])
    case Send(c) =>
      var k := s.calls[c].slot;
      s.(calls := s.calls[c := InFlight(k)], sent := s.sent[k := s.sent[k] + [s.slots[k].sequence]])
    case GiveBack(c) =>
      s.(slots := Released(s.slots, s.calls[c].slot, false), calls := s.calls[c := NoCall])
    case Complete(c) =>
      s.(slots := Released(s.slots, s.calls[c].slot, true), calls := s.calls[c := NoCall])
  }

  function Holds(k: nat): Call -> int {
    (c: Call) => if !c.NoCall? && c.slot == k then 1 else 0
  }

  function Unsent(k: nat): Call -> int {
    (c: Call) => if c.Holding? && c.slot == k then 1 else 0
  }

  function Last(start: Seqid, sent: seq<Seqid>): Seqid {
    if sent == [] then start else sent[|sent| - 1]
  }

  /** Each sequence id is the one after the one before it. */
  predicate Consecutive(start: Seqid, sent: seq<Seqid>) {
    forall j :: 0 <= j < |sent| ==> sent[j] == Next(Last(start, sent[..j]))
  }

  lemma ConsecutiveNext(start: Seqid, sent: seq<Seqid>)
    requires Consecutive(start, sent)
    ensures Consecutive(start, sent + [Next(Last(start, sent))])
  {
    var all := sent + [Next(Last(start, sent))];
    forall j | 0 <= j < |all| ensures all[j] == Next(Last(start, all[..j])) {
      assert all[..j] == sent[..j];
      assert sent[..|sent|] == sent;
    }
  }

  /** Slot `k` is in use exactly when one call holds it, and its sequence id is that of the last call
      sent on it, or the next while a call is about to be. */
  ghost predicate SlotOk(s: Channel, k: nat)
    requires k < |s.slots| && |s.start| == |s.sent| == |s.slots|
  {
    var last := Last(s.start[k], s.sent[k]);
    var unsent := Sum(s.calls, Unsent(k));
    && Sum(s.calls, Holds(k)) == (if s.slots[k].inUse then 1 else 0)
    && 0 <= unsent <= Sum(s.calls, Holds(k))
    && s.slots[k].sequence == (if unsent == 1 then Next(last) else last)
    && Consecutive(s.start[k], s.sent[k])
  }

  ghost predicate Inv(s: Channel) {
    && |s.start| == |s.sent| == |s.slots|
    && (forall c :: 0 <= c < |s.calls| && !s.calls[c].NoCall? ==> s.calls[c].slot < |s.slots|)
    && forall k {:trigger SlotOk(s, k)} :: 0 <= k < |s.slots| ==> SlotOk(s, k)
  }

  lemma DoSlot(s: Channel, e: Event, k: nat)
    requires Enabled(s, e) && |s.start| == |s.sent| == |s.slots| && k < |s.slots| && SlotOk(s, k)
    ensures SlotOk(Do(s, e), k)
  {
    var s' := Do(s, e);
    ConsecutiveNext(s.start[k], s.sent[k]);
    SumUpdate(s.calls, e.c, s'.calls[e.c], Holds(k));
    SumUpdate(s.calls, e.c, s'.calls[e.c], Unsent(k));
    SumAtLeast(s.calls, e.c, Unsent(k));
    SumNonNegative(s'.calls, Unsent(k));
    SumLe(s'.calls, Unsent(k), Holds(k));
  }

  function Run(s: Channel, es: seq<Event>): (s': Channel)
    requires |s.sent| == |s.slots|
    ensures |s'.sent| == |s'.slots|
    decreases |es|
  {
    if |es| == 0 then s else Run(if Enabled(s, es[0]) then Do(s, es[0]) else s, es[1..])
  }

  lemma {:induction false} RunInv(s: Channel, es: seq<Event>)
    requires Inv(s)
    ensures Inv(Run(s, es))
    decreases |es|
  {
    if |es| != 0 {
      var s1 := if Enabled(s, es[0]) then Do(s, es[0]) else s;
      forall k | 0 <= k < |s1.slots| ensures SlotOk(s1, k) {
        assert SlotOk(s, k);
        if Enabled(s, es[0]) {
          DoSlot(s, es[0], k);
        }
      }
      RunInv(s1, es[1..]);
    }
  }

  /** A new session: no slot in use, nothing sent, no call under way. */
  ghost predicate Fresh(s: Channel) {
    && |s.start| == |s.sent| == |s.slots|
    && (forall k :: 0 <= k < |s.slots| ==> s.slots[k] == Slot(false, s.start[k]) && s.sent[k] == [])
    && (forall c :: 0 <= c < |s.calls| ==> s.calls[c] == NoCall)
  }

  predicate SameSlot(s: Channel, i: nat, j: nat) {
    && i < |s.calls| && j < |s.calls| && !s.calls[i].NoCall? && !s.calls[j].NoCall?
    && s.calls[i].slot == s.calls[j].slot
  }

  /** In every run no two calls hold the same slot, a slot is in use exactly when a call holds it, and
      the sequence ids of the calls sent on each slot are consecutive from the slot's own. */
  lemma SlotsNeverShared(s: Channel, es: seq<Event>, i: nat, j: nat, k: nat)
    requires Fresh(s)
    ensures var s' := Run(s, es);
      && (SameSlot(s', i, j) ==> i == j)
      && |s'.sent| == |s'.slots| == |s'.start|
      && (k < |s'.slots| ==>
            && (s'.slots[k].inUse <==> exists c :: 0 <= c < |s'.calls| && Holds(k)(s'.calls[c]) == 1)
            && Consecutive(s'.start[k], s'.sent[k]))
  {
    FreshInv(s);
    RunInv(s, es);
    var s' := Run(s, es);
    if SameSlot(s', i, j) && i != j {
      assert SlotOk(s', s'.calls[i].slot);
      SumTwo(s'.calls, i, j, Holds(s'.calls[i].slot));
    }
    if k < |s'.slots| {
      assert SlotOk(s', k);
      if s'.slots[k].inUse {
        var c := SumPositive(s'.calls, Holds(k));
      }
      forall c | 0 <= c < |s'.calls| && Holds(k)(s'.calls[c]) == 1 ensures s'.slots[k].inUse {
        SumAtLeast(s'.calls, c, Holds(k));
      }
    }
  }

  lemma FreshInv(s: Channel)
    requires Fresh(s)
    ensures Inv(s)
  {
    forall k | 0 <= k < |s.slots| ensures SlotOk(s, k) {
      SumZero(s.calls, Holds(k));
      SumZero(s.calls, Unsent(k));
    }
  }
}
