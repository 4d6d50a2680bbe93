/** The entries of one duplicate request cache (DRC) and the requests that use them.

    A request runs nfs_dupreq_start, the service function, nfs_dupreq_finish or
    nfs_dupreq_delete, and nfs_dupreq_rele. A step is what one request does while
    it holds its locks, up to where it lets go of them. Removing a retired entry from
    the queue and from the table is one step, because the partition lock is held from
    before the first to after the second; nfs_dupreq_delete has no such lock, and its
    two removals are two steps. */
module DupReq {
  import opened Tally

  const MAX_DUPES: int := 3
  const MAX_RETRIES: int := 5
  const RETWND_START_BIAS: int := 16

  /** enum nfs_req_result; a new entry's `rc` is the first, because it is zeroed. */
  datatype Rc = OK | DROP | ERROR | REPLAY | ASYNC_WAIT | XPRT_DIED | AUTH_ERR

  datatype Config = Config(maxsize: int, hiwat: int)

  /** What identifies a request: its xid and the checksum that is also the hash key. */
  datatype Key = Key(xid: nat, hk: nat)

  /** The duplicates of an entry: how many came, those now waiting in order, and, as
      history, everyone that ever waited and everyone that was resumed. */
  datatype Dupes = Dupes(cnt: int, queue: seq<nat>, arrived: seq<nat>, resumed: seq<nat>)

  /** dupreq_entry_t. `lost` is history: nfs_dupreq_finish has left the entry
      incomplete, for the waiting duplicates to answer, with `rc` still NFS_REQ_OK. */
  datatype Entry = Entry(key: Key, refcnt: int, complete: bool, rc: Rc, dup: Dupes, lost: bool)

  /** drc_t, without its own reference count. Entry numbers are never reused. */
  datatype Cache = Cache(
    q: seq<nat>, size: int, table: map<Key, nat>, entries: map<nat, Entry>,
    retwnd: int, nextId: nat)

  datatype RunPc = Executing | Resumed | Replay
  datatype FinishPc =
    | Mark(rc: Rc)
    | Retire(n: nat)
    | RetirePop(n: nat, hk: nat)
    | RetirePut(n: nat, ov: nat)
  datatype DeletePc = Check(rc: Rc) | LeaveQueue | LeaveTable | DropTableRef
  datatype RelePc = WakeNext | DropEntry | DropDrc | QueueDrc

  datatype Pc =
    | Idle
    | GetDrc
    | Start
    | Suspended
    | Run(run: RunPc)
    | Finish(fin: FinishPc)
    | Delete(del: DeletePc)
    | Rele(rel: RelePc)

  /** A request on connection `xprt`; `dv` is the entry it is attached to. */
  datatype Req = Req(pc: Pc, xprt: nat, key: Key, dv: nat)

  // ----- steps --------------------------------------------------------------------

  predicate ShouldRetire(cfg: Config, k: Cache) {
    k.size > cfg.maxsize || (k.retwnd <= 0 && k.size > cfg.hiwat)
  }

  function BumpWindow(cfg: Config, w: int): int {
    if w == 0 then RETWND_START_BIAS else if w < cfg.maxsize then w + 2 else w
  }

  function Goto(r: Req, pc: Pc): Req {
    r.(pc := pc)
  }

  function SetEntry(k: Cache, e: nat, v: Entry): Cache {
    k.(entries := k.entries[e := v])
  }

  /** dupreq_entry_put: the entry goes when its last reference does. */
  function PutEntry(k: Cache, e: nat): Cache {
    if e !in k.entries then k
    else if k.entries[e].refcnt == 1 then k.(entries := k.entries - {e})
    else SetEntry(k, e, k.entries[e].(refcnt := k.entries[e].refcnt - 1))
  }

  /** The entry leaves dupreq_q. */
  function Unqueue(q: seq<nat>, e: nat): seq<nat> {
    if |q| == 0 then [] else if q[0] == e then q[1..] else [q[0]] + Unqueue(q[1..], e)
  }

  /** nfs_dupreq_start on a key that is in the table. */
  function StartHit(cfg: Config, k: Cache, r: Req, me: nat): (Cache, Req)
    requires r.key in k.table && k.table[r.key] in k.entries
  {
    var e := k.table[r.key];
    var v := k.entries[e];
    var d := v.dup;
    var k1 := k.(retwnd := BumpWindow(cfg, k.retwnd));
    if v.complete then
      (SetEntry(k1, e, v.(dup := d.(cnt := d.cnt + 1), refcnt := v.refcnt + 1)),
       r.(pc := Run(Replay), dv := e))
    else if d.cnt + 1 <= MAX_DUPES then
      (SetEntry(k1, e, v.(dup := Dupes(d.cnt + 1, d.queue + [me], d.arrived + [me], d.resumed),
                          refcnt := v.refcnt + 1)),
       r.(pc := Suspended, dv := e))
    else
      (SetEntry(k, e, v.(dup := d.(cnt := d.cnt + 1))), Goto(r, Idle))
  }

  /** nfs_dupreq_start on a new key: one reference for the table, one for the caller. */
  function StartNew(k: Cache, r: Req): (Cache, Req) {
    var e := k.nextId;
    var v := Entry(r.key, 2, false, OK, Dupes(0, [], [], []), false);
    (Cache(k.q + [e], k.size + 1, k.table[r.key := e], k.entries[e := v], k.retwnd, e + 1),
     r.(pc := Run(Executing), dv := e))
  }

  /** nfs_dupreq_finish. */
  function FinishNext(cfg: Config, k: Cache, r: Req): (Cache, Req)
    requires r.pc.Finish? && (r.pc.fin.Mark? ==> r.dv in k.entries)
  {
    match r.pc.fin
    case Mark(rc) =>
      var v := k.entries[r.dv];
      if v.dup.queue != [] && rc == XPRT_DIED then
        (SetEntry(k, r.dv, v.(lost := v.lost || v.rc == OK)), Goto(r, Rele(WakeNext)))
      else
        (SetEntry(k, r.dv, v.(complete := true, rc := rc)), Goto(r, Finish(Retire(0))))
    case Retire(n) =>
      var k1 := if n == 0 && k.retwnd > 0 then k.(retwnd := k.retwnd - 1) else k;
      if ShouldRetire(cfg, k1) && k1.q != [] && k1.q[0] in k1.entries then
        (k1, Goto(r, Finish(RetirePop(n, k1.entries[k1.q[0]].key.hk))))
      else
        (k1, Goto(r, Rele(WakeNext)))
    case RetirePop(n, hk) =>
      if k.q != [] && k.q[0] in k.entries && k.entries[k.q[0]].key.hk == hk then
        var ov := k.q[0];
        (k.(q := k.q[1..], size := k.size - 1, table := k.table - {k.entries[ov].key}),
         Goto(r, Finish(RetirePut(n, ov))))
      else
        (k, Goto(r, Rele(WakeNext)))
    case RetirePut(n, ov) =>
      (PutEntry(k, ov), Goto(r, if n < MAX_RETRIES then Finish(Retire(n + 1)) else Rele(WakeNext)))
  }

  /** nfs_dupreq_delete. */
  function DeleteNext(k: Cache, r: Req): (Cache, Req)
    requires r.pc.Delete? && r.dv in k.entries
  {
    var v := k.entries[r.dv];
    match r.pc.del
    case Check(rc) =>
      if v.dup.queue != [] then (SetEntry(k, r.dv, v.(rc := rc)), Goto(r, Rele(WakeNext)))
      else (k, Goto(r, Delete(LeaveQueue)))
    case LeaveQueue =>
      if r.dv !in k.q then (k, Goto(r, Rele(WakeNext)))
      else (k.(q := Unqueue(k.q, r.dv), size := k.size - 1), Goto(r, Delete(LeaveTable)))
    case LeaveTable => (k.(table := k.table - {v.key}), Goto(r, Delete(DropTableRef)))
    case DropTableRef => (PutEntry(k, r.dv), Goto(r, Rele(WakeNext)))
  }

  /** The service function and its outcome, a resumed duplicate looking at the result,
      and the reply to a duplicate of a completed request. */
  function RunNext(k: Cache, r: Req, rc: Rc): Req
    requires r.pc.Run? && r.dv in k.entries
  {
    match r.pc.run
    case Executing =>
      if rc == ASYNC_WAIT then r
      else if rc == DROP || rc == AUTH_ERR then Goto(r, Delete(Check(rc)))
      else Goto(r, Finish(Mark(rc)))
    case Resumed =>
      match k.entries[r.dv].rc {
        case DROP => Goto(r, Run(Executing))
        case AUTH_ERR => Goto(r, Run(Executing))
        case XPRT_DIED => Goto(r, Finish(Mark(if rc == XPRT_DIED then XPRT_DIED else OK)))
        case _ => Goto(r, Rele(WakeNext))
      }
    case Replay => Goto(r, Rele(WakeNext))
  }

  /** nfs_dupreq_rele, up to the point where it has resumed the first duplicate. */
  function Wake(s: Sys, me: nat): Sys
    requires me < |s.reqs| && s.reqs[me].dv in s.k.entries
    requires forall i :: i in s.k.entries[s.reqs[me].dv].dup.queue ==> i < |s.reqs|
  {
    var r := s.reqs[me];
    var v := s.k.entries[r.dv];
    var d := v.dup;
    if d.queue == [] then
      Sys(s.k, s.reqs[me := Goto(r, Rele(DropEntry))])
    else
      var next := d.queue[0];
      assert next in d.queue;
      var d' := d.(queue := d.queue[1..], resumed := d.resumed + [next]);
      Sys(SetEntry(s.k, r.dv, v.(dup := d')),
          s.reqs[me := Goto(r, Rele(DropEntry))][next := Goto(s.reqs[next], Run(Resumed))])
  }

  /** The cache and the requests on it, any number of them. */
  datatype Sys = Sys(k: Cache, reqs: seq<Req>)

  // ----- what each request contributes ----------------------------------------------

  /** Has taken its own reference on `dv` and not given it back. */
  predicate Attached(r: Req) {
    r.pc.Suspended? || r.pc.Run? || r.pc.Finish? || r.pc.Delete?
    || (r.pc.Rele? && (r.pc.rel.WakeNext? || r.pc.rel.DropEntry?))
  }

  /** Attached, neither waiting nor past the point where it wakes the next. */
  predicate Active(r: Req) {
    r.pc.Run? || r.pc.Finish? || r.pc.Delete? || (r.pc.Rele? && r.pc.rel.WakeNext?)
  }

  function B(b: bool): int {
    if b then 1 else 0
  }

  function HoldPart(r: Req, e: nat): int {
    B(Attached(r) && r.dv == e)
  }

  function ActivePart(r: Req, e: nat): int {
    B(Active(r) && r.dv == e)
  }

  /** Took `e` out of the queue in nfs_dupreq_delete, and not yet out of the table. */
  function LeavePart(r: Req, e: nat): int {
    B(r.pc == Delete(LeaveTable) && r.dv == e)
  }

  /** Took `e` out of both, and has yet to drop the table's reference. */
  function OwePart(r: Req, e: nat): int {
    match r.pc
    case Finish(f) => B(f.RetirePut? && f.ov == e)
    case Delete(d) => B(d.DropTableRef? && r.dv == e)
    case _ => 0
  }

  function HoldOf(e: nat): Req -> int {
    (r: Req) => HoldPart(r, e)
  }

  function ActiveOf(e: nat): Req -> int {
    (r: Req) => ActivePart(r, e)
  }

  function LeaveOf(e: nat): Req -> int {
    (r: Req) => LeavePart(r, e)
  }

  function OweOf(e: nat): Req -> int {
    (r: Req) => OwePart(r, e)
  }

  function Ref(k: Cache, e: nat): int {
    if e in k.entries then k.entries[e].refcnt else 0
  }

  predicate InTable(k: Cache, e: nat) {
    e in k.entries && k.entries[e].key in k.table && k.table[k.entries[e].key] == e
  }

  // ----- invariants -------------------------------------------------------------------

  ghost predicate Distinct(s: seq<nat>) {
    forall i, j :: 0 <= i < j < |s| ==> s[i] != s[j]
  }

  /** The queue, its length and the table agree. */
  ghost predicate CacheOk(k: Cache) {
    && k.size == |k.q| && Distinct(k.q)
    && (forall e :: e in k.q ==> InTable(k, e))
    && (forall key :: key in k.table ==> k.table[key] in k.entries
                                         && k.entries[k.table[key]].key == key)
    && (forall e :: e in k.entries ==> e < k.nextId && k.entries[e].refcnt >= 1)
  }

  /** One entry's references are one for the table, until the thread that took the
      entry out of the queue drops it, and one for each attached request; and the entry
      is in the table exactly while it is queued or a delete is mid-removal. */
  ghost predicate BookOk(s: Sys, e: nat) {
    var inq := B(e in s.k.q);
    var leave, owe := Sum(s.reqs, LeaveOf(e)), Sum(s.reqs, OweOf(e));
    && Ref(s.k, e) == inq + leave + owe + Sum(s.reqs, HoldOf(e))
    && inq + leave + owe <= 1
    && B(InTable(s.k, e)) == inq + leave
  }

  ghost predicate Books(s: Sys) {
    forall e: nat :: BookOk(s, e)
  }

  predicate Retry(rc: Rc) {
    rc == DROP || rc == AUTH_ERR
  }

  predicate EntryOk(v: Entry) {
    && v.dup.arrived == v.dup.resumed + v.dup.queue
    && |v.dup.arrived| <= MAX_DUPES && |v.dup.arrived| <= v.dup.cnt
    && (!v.complete ==> v.rc == OK || Retry(v.rc))
    && (v.complete ==> !Retry(v.rc) && v.rc != ASYNC_WAIT && !v.lost)
    && (v.complete && v.rc == XPRT_DIED ==> v.dup.queue == [])
    && (v.lost ==> v.rc == OK)
  }

  ghost predicate EntriesOk(k: Cache) {
    forall e :: e in k.entries ==> EntryOk(k.entries[e])
  }

  /** While an entry is incomplete at most one request works on it; and exactly one
      does if the entry can still be found and has not been lost. */
  ghost predicate ActiveOk(s: Sys, e: nat) {
    e in s.k.entries && !s.k.entries[e].complete ==>
      var n := Sum(s.reqs, ActiveOf(e));
      n <= 1 && (InTable(s.k, e) && !s.k.entries[e].lost ==> n == 1)
  }

  ghost predicate ActivesOk(s: Sys) {
    forall e: nat :: ActiveOk(s, e)
  }

  /** What an active request's place says about its entry. */
  predicate ReqOk(k: Cache, r: Req) {
    Active(r) ==> r.dv in k.entries && PlaceOk(k, r, k.entries[r.dv])
  }

  predicate PlaceOk(k: Cache, r: Req, v: Entry) {
    match r.pc
    case Run(p) =>
      if p.Executing? then !v.complete && !v.lost
      else if p.Replay? then v.complete
      else v.rc != XPRT_DIED && (!v.complete && !v.lost && InTable(k, r.dv) ==> Retry(v.rc))
    case Finish(f) =>
      if f.Mark? then !v.complete && !v.lost && !Retry(f.rc) && f.rc != ASYNC_WAIT
      else v.complete && f.n <= MAX_RETRIES
    case Delete(d) => !v.complete && !v.lost && (d.Check? ==> Retry(d.rc))
    case Rele(_) =>
      !v.complete && !v.lost && InTable(k, r.dv) ==> v.dup.queue != [] && Retry(v.rc)
    case _ => true
  }

  ghost predicate ReqsOk(s: Sys) {
    forall i :: 0 <= i < |s.reqs| ==> ReqOk(s.k, s.reqs[i])
  }

  /** The requests waiting on an entry are exactly its queue. */
  ghost predicate WaitersOk(s: Sys) {
    && (forall i :: 0 <= i < |s.reqs| && s.reqs[i].pc.Suspended? ==> Waits(s, i))
    && (forall e :: e in s.k.entries ==> QueueOk(s, e))
  }

  predicate Waits(s: Sys, i: nat)
    requires i < |s.reqs|
  {
    s.reqs[i].dv in s.k.entries && i in s.k.entries[s.reqs[i].dv].dup.queue
  }

  ghost predicate QueueOk(s: Sys, e: nat)
    requires e in s.k.entries
  {
    var q := s.k.entries[e].dup.queue;
    && Distinct(q)
    && forall i :: i in q ==> i < |s.reqs| && s.reqs[i].pc.Suspended? && s.reqs[i].dv == e
  }

  ghost predicate Inv(s: Sys) {
    && CacheOk(s.k) && Books(s) && EntriesOk(s.k) && ActivesOk(s) && ReqsOk(s) && WaitersOk(s)
  }

  // ----- one request's step: the books balance ----------------------------------------

  predicate Balanced(k: Cache, r: Req, k': Cache, r': Req, e: nat) {
    var inq := B(e in k'.q) - B(e in k.q);
    var leave := LeavePart(r', e) - LeavePart(r, e);
    var owe := OwePart(r', e) - OwePart(r, e);
    && Ref(k', e) - Ref(k, e) == inq + leave + owe + HoldPart(r', e) - HoldPart(r, e)
    && inq + leave + owe <= B(e == k.nextId)
    && B(InTable(k', e)) - B(InTable(k, e)) == inq + leave
  }

  /** Entry `e` is out of the queue and the table: only references keep it. */
  predicate Detached(k: Cache, e: nat) {
    e in k.entries && e !in k.q && !InTable(k, e)
  }

  lemma {:induction false} UnqueueOk(q: seq<nat>, e: nat)
    requires Distinct(q) && e in q
    ensures |Unqueue(q, e)| == |q| - 1 && Distinct(Unqueue(q, e))
    ensures forall x :: x in Unqueue(q, e) <==> x in q && x != e
  {
    var t := q[1..];
    assert q == [q[0]] + t;
    assert Distinct(t) && q[0] !in t;
    if q[0] != e {
      UnqueueOk(t, e);
      assert q[0] !in Unqueue(t, e);
    }
  }

  lemma TailOk(q: seq<nat>)
    requires Distinct(q) && |q| > 0
    ensures Distinct(q[1..])
    ensures forall x :: x in q[1..] <==> x in q && x != q[0]
  {
    assert q == [q[0]] + q[1..];
  }

  lemma StartNewBalanced(k: Cache, r: Req, e: nat)
    requires CacheOk(k) && r.pc.Start? && r.key !in k.table
    ensures var n := StartNew(k, r); Balanced(k, r, n.0, n.1, e)
  {}

  lemma StartHitBalanced(cfg: Config, k: Cache, r: Req, me: nat, e: nat)
    requires CacheOk(k) && r.pc.Start? && r.key in k.table
    ensures var n := StartHit(cfg, k, r, me); Balanced(k, r, n.0, n.1, e)
  {}

  lemma MarkBalanced(cfg: Config, k: Cache, r: Req, e: nat)
    requires CacheOk(k) && r.pc.Finish? && (r.pc.fin.Mark? || r.pc.fin.Retire?)
    requires r.pc.fin.Mark? ==> r.dv in k.entries
    ensures var n := FinishNext(cfg, k, r); Balanced(k, r, n.0, n.1, e)
  {}

  lemma RetirePopBalanced(cfg: Config, k: Cache, r: Req, e: nat)
    requires CacheOk(k) && r.pc.Finish? && r.pc.fin.RetirePop?
    ensures var n := FinishNext(cfg, k, r); Balanced(k, r, n.0, n.1, e)
  {
    if |k.q| > 0 {
      TailOk(k.q);
      assert InTable(k, k.q[0]);
    }
  }

  lemma RetirePutBalanced(cfg: Config, k: Cache, r: Req, e: nat)
    requires CacheOk(k) && r.pc.Finish? && r.pc.fin.RetirePut? && Detached(k, r.pc.fin.ov)
    ensures var n := FinishNext(cfg, k, r); Balanced(k, r, n.0, n.1, e)
  {}

  lemma DeleteBalanced(k: Cache, r: Req, e: nat)
    requires CacheOk(k) && r.pc.Delete? && r.dv in k.entries
    requires r.pc.del.LeaveTable? ==> InTable(k, r.dv) && r.dv !in k.q
    requires r.pc.del.DropTableRef? ==> Detached(k, r.dv)
    ensures var n := DeleteNext(k, r); Balanced(k, r, n.0, n.1, e)
  {
    if r.pc.del.LeaveQueue? && r.dv in k.q {
      UnqueueOk(k.q, r.dv);
    }
  }

  lemma DropEntryBalanced(k: Cache, r: Req, e: nat)
    requires CacheOk(k) && r.pc == Rele(DropEntry) && r.dv in k.entries
    requires k.entries[r.dv].refcnt == 1 ==> Detached(k, r.dv)
    ensures Balanced(k, r, PutEntry(k, r.dv), Goto(r, Rele(DropDrc)), e)
  {}

  // ----- ... and the cache stays well formed -------------------------------------------

  lemma StartNewCache(k: Cache, r: Req)
    requires CacheOk(k) && r.pc.Start? && r.key !in k.table
    ensures CacheOk(StartNew(k, r).0)
  {
    var k' := StartNew(k, r).0;
    assert k.nextId !in k.q;
    forall e | e in k'.q ensures InTable(k', e) {
      assert e == k.nextId || e in k.q;
    }
  }

  lemma SetEntryCache(k: Cache, e: nat, v: Entry)
    requires CacheOk(k) && e in k.entries && v.key == k.entries[e].key && v.refcnt >= 1
    ensures CacheOk(SetEntry(k, e, v))
  {}

  lemma PutEntryCache(k: Cache, e: nat)
    requires CacheOk(k) && e in k.entries
    requires k.entries[e].refcnt == 1 ==> Detached(k, e)
    ensures CacheOk(PutEntry(k, e))
  {}

  lemma RetirePopCache(k: Cache)
    requires CacheOk(k) && |k.q| > 0
    ensures InTable(k, k.q[0])
    ensures CacheOk(k.(q := k.q[1..], size := k.size - 1,
                       table := k.table - {k.entries[k.q[0]].key}))
  {
    TailOk(k.q);
    assert InTable(k, k.q[0]);
  }

  lemma LeaveQueueCache(k: Cache, e: nat)
    requires CacheOk(k) && e in k.q
    ensures CacheOk(k.(q := Unqueue(k.q, e), size := k.size - 1))
  {
    UnqueueOk(k.q, e);
  }

  lemma LeaveTableCache(k: Cache, e: nat)
    requires CacheOk(k) && InTable(k, e) && e !in k.q
    ensures CacheOk(k.(table := k.table - {k.entries[e].key}))
  {}

  // ----- what the books say about one request ---------------------------------------------

  lemma PartsNonNegative(s: Sys, e: nat)
    ensures Sum(s.reqs, HoldOf(e)) >= 0 && Sum(s.reqs, LeaveOf(e)) >= 0
    ensures Sum(s.reqs, OweOf(e)) >= 0 && Sum(s.reqs, ActiveOf(e)) >= 0
    ensures Sum(s.reqs, ActiveOf(e)) <= Sum(s.reqs, HoldOf(e))
  {
    SumNonNegative(s.reqs, HoldOf(e));
    SumNonNegative(s.reqs, LeaveOf(e));
    SumNonNegative(s.reqs, OweOf(e));
    SumNonNegative(s.reqs, ActiveOf(e));
    SumLe(s.reqs, ActiveOf(e), HoldOf(e));
  }

  /** An entry a request refers to exists, and is where the request left it. */
  lemma Present(s: Sys, me: nat)
    requires Books(s) && me < |s.reqs|
    ensures var r := s.reqs[me];
      && (Attached(r) ==> r.dv in s.k.entries)
      && (r.pc.Finish? && r.pc.fin.RetirePut? ==> Detached(s.k, r.pc.fin.ov))
      && (r.pc == Delete(LeaveTable) ==> InTable(s.k, r.dv) && r.dv !in s.k.q)
      && (r.pc == Delete(DropTableRef) ==> Detached(s.k, r.dv))
      && (r.pc == Rele(DropEntry) && Ref(s.k, r.dv) == 1 ==> Detached(s.k, r.dv))
  {
    var r := s.reqs[me];
    PresentAt(s, me, r.dv);
    if r.pc.Finish? && r.pc.fin.RetirePut? {
      PresentAt(s, me, r.pc.fin.ov);
    }
  }

  lemma PresentAt(s: Sys, me: nat, e: nat)
    requires Books(s) && me < |s.reqs|
    ensures var r := s.reqs[me]; var inq := B(e in s.k.q);
      && HoldPart(r, e) + LeavePart(r, e) + OwePart(r, e) + inq <= Ref(s.k, e)
      && LeavePart(r, e) <= B(InTable(s.k, e)) - inq
      && OwePart(r, e) <= 1 - B(InTable(s.k, e))
      && HoldPart(r, e) + B(InTable(s.k, e)) <= Ref(s.k, e)
  {
    assert BookOk(s, e);
    PartsNonNegative(s, e);
    SumAtLeast(s.reqs, me, HoldOf(e));
    SumAtLeast(s.reqs, me, LeaveOf(e));
    SumAtLeast(s.reqs, me, OweOf(e));
  }

  // ----- one request's step keeps the books ------------------------------------------------

  lemma BooksKept(s: Sys, k': Cache, me: nat, r': Req)
    requires CacheOk(s.k) && Books(s) && me < |s.reqs|
    requires forall e: nat :: Balanced(s.k, s.reqs[me], k', r', e)
    ensures Books(Sys(k', s.reqs[me := r']))
  {
    var s' := Sys(k', s.reqs[me := r']);
    forall e: nat ensures BookOk(s', e) {
      assert BookOk(s, e) && Balanced(s.k, s.reqs[me], k', r', e);
      PartsNonNegative(s, e);
      SumUpdate(s.reqs, me, r', HoldOf(e));
      SumUpdate(s.reqs, me, r', LeaveOf(e));
      SumUpdate(s.reqs, me, r', OweOf(e));
    }
  }

  /** How a step may change the number of active requests on an entry that is incomplete
      afterwards: not at all while the entry can be found and is not lost, and never up,
      but for the request that creates it. */
  predicate ActiveStep(k: Cache, r: Req, k': Cache, r': Req, e: nat) {
    e in k'.entries && !k'.entries[e].complete ==>
      || (&& e == k.nextId && ActivePart(r, e) == 0 && ActivePart(r', e) == 1)
      || (&& e in k.entries && !k.entries[e].complete
          && ActivePart(r', e) <= ActivePart(r, e)
          && (InTable(k', e) && !k'.entries[e].lost ==>
                InTable(k, e) && !k.entries[e].lost && ActivePart(r', e) == ActivePart(r, e)))
  }

  lemma ActivesKept(s: Sys, k': Cache, me: nat, r': Req)
    requires CacheOk(s.k) && Books(s) && ActivesOk(s) && me < |s.reqs|
    requires forall e: nat :: ActiveStep(s.k, s.reqs[me], k', r', e)
    ensures ActivesOk(Sys(k', s.reqs[me := r']))
  {
    var s' := Sys(k', s.reqs[me := r']);
    forall e: nat ensures ActiveOk(s', e) {
      assert BookOk(s, e) && ActiveOk(s, e);
      assert ActiveStep(s.k, s.reqs[me], k', r', e);
      PartsNonNegative(s, e);
      SumUpdate(s.reqs, me, r', ActiveOf(e));
    }
  }

  /** Nothing another active request relies on changes for the worse. */
  predicate Gentle(k: Cache, k': Cache, e: nat) {
    e in k.entries && e in k'.entries ==>
      var v, v' := k.entries[e], k'.entries[e];
      && v'.complete == v.complete && v'.rc == v.rc && v'.lost == v.lost
      && (!v.complete && v.dup.queue != [] ==> v'.dup.queue != [])
      && (InTable(k', e) ==> InTable(k, e))
  }

  /** ... or the stepping request is the only active one. */
  predicate Sole(k: Cache, r: Req, e: nat) {
    Active(r) && r.dv == e && e in k.entries && !k.entries[e].complete
  }

  lemma OtherReqKept(s: Sys, k': Cache, me: nat, i: nat)
    requires ActivesOk(s) && ReqsOk(s) && me < |s.reqs| && i < |s.reqs| && i != me
    requires forall e: nat :: Gentle(s.k, k', e) || Sole(s.k, s.reqs[me], e)
    requires Active(s.reqs[i]) ==> s.reqs[i].dv in k'.entries
    ensures ReqOk(k', s.reqs[i])
  {
    var r := s.reqs[i];
    if Active(r) {
      assert ReqOk(s.k, r);
      assert Gentle(s.k, k', r.dv) || Sole(s.k, s.reqs[me], r.dv);
      if Sole(s.k, s.reqs[me], r.dv) {
        assert ActiveOk(s, r.dv);
        SumTwo(s.reqs, me, i, ActiveOf(r.dv));
      }
    }
  }

  lemma ReqsKept(s: Sys, k': Cache, me: nat, r': Req)
    requires ActivesOk(s) && ReqsOk(s) && me < |s.reqs|
    requires Books(Sys(k', s.reqs[me := r']))
    requires ReqOk(k', r')
    requires forall e: nat :: Gentle(s.k, k', e) || Sole(s.k, s.reqs[me], e)
    ensures ReqsOk(Sys(k', s.reqs[me := r']))
  {
    var s' := Sys(k', s.reqs[me := r']);
    forall i | 0 <= i < |s'.reqs| ensures ReqOk(k', s'.reqs[i]) {
      Present(s', i);
      if i != me {
        OtherReqKept(s, k', me, i);
      }
    }
  }

  /** The waiting queues are untouched, and the stepping request neither waits nor
      waited. */
  lemma WaitersKept(s: Sys, k': Cache, me: nat, r': Req)
    requires WaitersOk(s) && me < |s.reqs|
    requires !s.reqs[me].pc.Suspended? && !r'.pc.Suspended?
    requires Books(Sys(k', s.reqs[me := r']))
    requires forall e :: e in k'.entries ==>
      if e in s.k.entries then k'.entries[e].dup.queue == s.k.entries[e].dup.queue
      else k'.entries[e].dup.queue == []
    ensures WaitersOk(Sys(k', s.reqs[me := r']))
  {
    var s' := Sys(k', s.reqs[me := r']);
    forall i | 0 <= i < |s'.reqs| && s'.reqs[i].pc.Suspended? ensures Waits(s', i) {
      Present(s', i);
      assert Waits(s, i);
    }
    forall e | e in s'.k.entries ensures QueueOk(s', e) {
      if e in s.k.entries {
        assert QueueOk(s, e);
      }
    }
  }

  // ----- each step ----------------------------------------------------------------------------

  ghost predicate GoodStep(k: Cache, r: Req, k': Cache, r': Req) {
    && CacheOk(k') && EntriesOk(k') && ReqOk(k', r')
    && (forall e: nat :: Balanced(k, r, k', r', e))
    && (forall e: nat :: ActiveStep(k, r, k', r', e))
    && (forall e: nat :: Gentle(k, k', e) || Sole(k, r, e))
  }

  ghost predicate QueuesKept(k: Cache, k': Cache) {
    forall e :: e in k'.entries ==>
      if e in k.entries then k'.entries[e].dup.queue == k.entries[e].dup.queue
      else k'.entries[e].dup.queue == []
  }

  lemma InvFromStep(s: Sys, k': Cache, me: nat, r': Req)
    requires Inv(s) && me < |s.reqs| && GoodStep(s.k, s.reqs[me], k', r')
    requires QueuesKept(s.k, k') && !s.reqs[me].pc.Suspended? && !r'.pc.Suspended?
    ensures Inv(Sys(k', s.reqs[me := r']))
  {
    BooksKept(s, k', me, r');
    ActivesKept(s, k', me, r');
    ReqsKept(s, k', me, r');
    WaitersKept(s, k', me, r');
  }

  lemma GoodNew(k: Cache, r: Req)
    requires CacheOk(k) && EntriesOk(k) && r.pc.Start? && r.key !in k.table
    ensures var n := StartNew(k, r); GoodStep(k, r, n.0, n.1) && QueuesKept(k, n.0)
  {
    StartNewCache(k, r);
    forall e: nat ensures Balanced(k, r, StartNew(k, r).0, StartNew(k, r).1, e) {
      StartNewBalanced(k, r, e);
    }
  }

  lemma GoodHit(cfg: Config, k: Cache, r: Req, me: nat)
    requires CacheOk(k) && EntriesOk(k) && r.pc.Start? && r.key in k.table
    ensures var n := StartHit(cfg, k, r, me); GoodStep(k, r, n.0, n.1)
  {
    HitCache(cfg, k, r, me);
    var n := StartHit(cfg, k, r, me);
    forall e: nat
      ensures Balanced(k, r, n.0, n.1, e) && ActiveStep(k, r, n.0, n.1, e) && Gentle(k, n.0, e)
    {
      StartHitBalanced(cfg, k, r, me, e);
      HitGentle(cfg, k, r, me, e);
    }
  }

  lemma HitCache(cfg: Config, k: Cache, r: Req, me: nat)
    requires CacheOk(k) && EntriesOk(k) && r.pc.Start? && r.key in k.table
    ensures var n := StartHit(cfg, k, r, me);
      CacheOk(n.0) && EntriesOk(n.0) && ReqOk(n.0, n.1)
  {
    var e := k.table[r.key];
    var n := StartHit(cfg, k, r, me);
    SetEntryCache(k, e, n.0.entries[e]);
    SetEntryCache(k.(retwnd := BumpWindow(cfg, k.retwnd)), e, n.0.entries[e]);
  }

  lemma HitGentle(cfg: Config, k: Cache, r: Req, me: nat, e: nat)
    requires CacheOk(k) && r.pc.Start? && r.key in k.table
    ensures var n := StartHit(cfg, k, r, me); ActiveStep(k, r, n.0, n.1, e) && Gentle(k, n.0, e)
  {}

  lemma GoodRun(k: Cache, r: Req, rc: Rc)
    requires CacheOk(k) && EntriesOk(k) && r.pc.Run? && ReqOk(k, r) && r.dv in k.entries
    ensures GoodStep(k, r, k, RunNext(k, r, rc))
  {}

  lemma GoodMark(cfg: Config, k: Cache, r: Req)
    requires CacheOk(k) && EntriesOk(k) && r.pc.Finish? && ReqOk(k, r) && r.pc.fin.Mark?
    ensures var n := FinishNext(cfg, k, r); GoodStep(k, r, n.0, n.1) && QueuesKept(k, n.0)
  {
    var n := FinishNext(cfg, k, r);
    SetEntryCache(k, r.dv, n.0.entries[r.dv]);
    forall e: nat
      ensures Balanced(k, r, n.0, n.1, e) && ActiveStep(k, r, n.0, n.1, e)
              && (Gentle(k, n.0, e) || Sole(k, r, e))
    {
      MarkBalanced(cfg, k, r, e);
    }
  }

  lemma GoodRetire(cfg: Config, k: Cache, r: Req)
    requires CacheOk(k) && EntriesOk(k) && r.pc.Finish? && ReqOk(k, r) && r.pc.fin.Retire?
    ensures var n := FinishNext(cfg, k, r); GoodStep(k, r, n.0, n.1) && QueuesKept(k, n.0)
  {
    var n := FinishNext(cfg, k, r);
    forall e: nat ensures Balanced(k, r, n.0, n.1, e) {
      MarkBalanced(cfg, k, r, e);
    }
  }

  lemma GoodRetirePop(cfg: Config, k: Cache, r: Req)
    requires CacheOk(k) && EntriesOk(k) && r.pc.Finish? && ReqOk(k, r) && r.pc.fin.RetirePop?
    ensures var n := FinishNext(cfg, k, r); GoodStep(k, r, n.0, n.1) && QueuesKept(k, n.0)
  {
    var n := FinishNext(cfg, k, r);
    forall e: nat ensures Balanced(k, r, n.0, n.1, e) {
      RetirePopBalanced(cfg, k, r, e);
    }
    if |k.q| > 0 {
      RetirePopCache(k);
    }
  }

  lemma GoodRetirePut(cfg: Config, k: Cache, r: Req)
    requires CacheOk(k) && EntriesOk(k) && r.pc.Finish? && ReqOk(k, r) && r.pc.fin.RetirePut?
    requires Detached(k, r.pc.fin.ov) && (r.dv == r.pc.fin.ov ==> k.entries[r.dv].refcnt >= 2)
    ensures var n := FinishNext(cfg, k, r); GoodStep(k, r, n.0, n.1) && QueuesKept(k, n.0)
  {
    var n := FinishNext(cfg, k, r);
    PutEntryCache(k, r.pc.fin.ov);
    forall e: nat
      ensures Balanced(k, r, n.0, n.1, e) && ActiveStep(k, r, n.0, n.1, e) && Gentle(k, n.0, e)
    {
      RetirePutBalanced(cfg, k, r, e);
    }
  }

  ghost predicate DeletePlace(k: Cache, r: Req) {
    && r.pc.Delete? && ReqOk(k, r)
    && (r.pc.del.LeaveQueue? && r.dv !in k.q ==> !InTable(k, r.dv))
    && (r.pc.del.LeaveTable? ==> InTable(k, r.dv) && r.dv !in k.q)
    && (r.pc.del.DropTableRef? ==> Detached(k, r.dv) && k.entries[r.dv].refcnt >= 2)
  }

  lemma GoodDelete(k: Cache, r: Req)
    requires CacheOk(k) && EntriesOk(k) && DeletePlace(k, r)
    ensures var n := DeleteNext(k, r); GoodStep(k, r, n.0, n.1) && QueuesKept(k, n.0)
  {
    var n := DeleteNext(k, r);
    DeleteCache(k, r);
    forall e: nat
      ensures Balanced(k, r, n.0, n.1, e) && ActiveStep(k, r, n.0, n.1, e)
              && (Gentle(k, n.0, e) || Sole(k, r, e))
    {
      DeleteBalanced(k, r, e);
      DeleteGentle(k, r, e);
    }
  }

  lemma DeleteCache(k: Cache, r: Req)
    requires CacheOk(k) && EntriesOk(k) && DeletePlace(k, r)
    ensures var n := DeleteNext(k, r);
      CacheOk(n.0) && EntriesOk(n.0) && ReqOk(n.0, n.1) && QueuesKept(k, n.0)
  {
    match r.pc.del
    case Check(rc) => SetEntryCache(k, r.dv, k.entries[r.dv].(rc := rc));
    case LeaveQueue => if r.dv in k.q { LeaveQueueCache(k, r.dv); }
    case LeaveTable => LeaveTableCache(k, r.dv);
    case DropTableRef => PutEntryCache(k, r.dv);
  }

  lemma DeleteGentle(k: Cache, r: Req, e: nat)
    requires CacheOk(k) && DeletePlace(k, r)
    ensures var n := DeleteNext(k, r);
      ActiveStep(k, r, n.0, n.1, e) && (Gentle(k, n.0, e) || Sole(k, r, e))
  {}

  lemma GoodDropEntry(k: Cache, r: Req)
    requires CacheOk(k) && EntriesOk(k) && r.pc == Rele(DropEntry) && r.dv in k.entries
    requires k.entries[r.dv].refcnt == 1 ==> Detached(k, r.dv)
    ensures GoodStep(k, r, PutEntry(k, r.dv), Goto(r, Rele(DropDrc)))
    ensures QueuesKept(k, PutEntry(k, r.dv))
  {
    PutEntryCache(k, r.dv);
    forall e: nat ensures Balanced(k, r, PutEntry(k, r.dv), Goto(r, Rele(DropDrc)), e) {
      DropEntryBalanced(k, r, e);
    }
  }

  /** A duplicate joins the end of the waiting queue. */
  lemma HitInv(cfg: Config, s: Sys, me: nat)
    requires Inv(s) && me < |s.reqs| && s.reqs[me].pc.Start? && s.reqs[me].key in s.k.table
    ensures var n := StartHit(cfg, s.k, s.reqs[me], me); Inv(Sys(n.0, s.reqs[me := n.1]))
  {
    var n := StartHit(cfg, s.k, s.reqs[me], me);
    GoodHit(cfg, s.k, s.reqs[me], me);
    if n.1.pc.Suspended? {
      BooksKept(s, n.0, me, n.1);
      ActivesKept(s, n.0, me, n.1);
      ReqsKept(s, n.0, me, n.1);
      JoinWaiters(s, n.0, me, n.1);
    } else {
      InvFromStep(s, n.0, me, n.1);
    }
  }

  lemma JoinWaiters(s: Sys, k': Cache, me: nat, r': Req)
    requires WaitersOk(s) && me < |s.reqs| && !s.reqs[me].pc.Suspended? && r'.pc.Suspended?
    requires k'.entries.Keys == s.k.entries.Keys && r'.dv in k'.entries
    requires forall e :: e in k'.entries ==>
      k'.entries[e].dup.queue ==
        if e == r'.dv then s.k.entries[e].dup.queue + [me] else s.k.entries[e].dup.queue
    ensures WaitersOk(Sys(k', s.reqs[me := r']))
  {
    var s' := Sys(k', s.reqs[me := r']);
    forall i | 0 <= i < |s'.reqs| && s'.reqs[i].pc.Suspended? ensures Waits(s', i) {
      if i != me {
        assert Waits(s, i);
      }
    }
    forall e | e in s'.k.entries ensures QueueOk(s', e) {
      assert QueueOk(s, e);
      assert me !in s.k.entries[e].dup.queue;
    }
  }

  /** nfs_dupreq_rele with nobody waiting. */
  lemma WakeNobodyInv(s: Sys, me: nat)
    requires Inv(s) && me < |s.reqs| && s.reqs[me].pc == Rele(WakeNext)
    requires s.reqs[me].dv in s.k.entries && s.k.entries[s.reqs[me].dv].dup.queue == []
    ensures Inv(Sys(s.k, s.reqs[me := Goto(s.reqs[me], Rele(DropEntry))]))
  {
    var r := s.reqs[me];
    assert ReqOk(s.k, r);
    InvFromStep(s, s.k, me, Goto(r, Rele(DropEntry)));
  }

  ghost predicate Wakes(s: Sys, me: nat) {
    && me < |s.reqs| && s.reqs[me].pc == Rele(WakeNext)
    && s.reqs[me].dv in s.k.entries && s.k.entries[s.reqs[me].dv].dup.queue != []
  }

  /** What waking changes: the entry's waiting queue, and two requests. */
  ghost predicate WakeStep(s: Sys, me: nat, s': Sys, next: nat) {
    && Wakes(s, me) && next < |s.reqs| && next != me
    && next == s.k.entries[s.reqs[me].dv].dup.queue[0]
    && s.reqs[next].pc.Suspended? && s.reqs[next].dv == s.reqs[me].dv
    && s'.k.entries.Keys == s.k.entries.Keys
    && s'.k == s.k.(entries := s'.k.entries)
    && s'.reqs == s.reqs[me := Goto(s.reqs[me], Rele(DropEntry))]
                        [next := Goto(s.reqs[next], Run(Resumed))]
    && forall e :: e in s.k.entries ==> WakeEntry(s.k.entries[e], s'.k.entries[e],
                                                  e == s.reqs[me].dv)
  }

  predicate WakeEntry(v: Entry, v': Entry, mine: bool) {
    && v' == v.(dup := v'.dup)
    && (!mine ==> v' == v)
    && (mine ==> v.dup.queue != []
                 && v'.dup == v.dup.(queue := v.dup.queue[1..],
                                     resumed := v.dup.resumed + [v.dup.queue[0]]))
  }

  lemma WakeIsWakeStep(s: Sys, me: nat)
    requires Inv(s) && Wakes(s, me)
    ensures var next := s.k.entries[s.reqs[me].dv].dup.queue[0];
      QueueOk(s, s.reqs[me].dv) && WakeStep(s, me, Wake(s, me), next)
  {
    var e := s.reqs[me].dv;
    var q := s.k.entries[e].dup.queue;
    assert QueueOk(s, e);
    assert q[0] in q;
  }

  lemma WakeBooks(s: Sys, me: nat, s': Sys, next: nat)
    requires CacheOk(s.k) && Books(s) && ActivesOk(s) && WakeStep(s, me, s', next)
    ensures CacheOk(s'.k) && Books(s') && ActivesOk(s')
  {
    forall e: nat ensures BookOk(s', e) && ActiveOk(s', e) {
      assert BookOk(s, e) && ActiveOk(s, e);
      WakeSums(s, me, s', next, e);
    }
  }

  lemma WakeSums(s: Sys, me: nat, s': Sys, next: nat, e: nat)
    requires WakeStep(s, me, s', next)
    ensures Sum(s'.reqs, HoldOf(e)) == Sum(s.reqs, HoldOf(e))
    ensures Sum(s'.reqs, LeaveOf(e)) == Sum(s.reqs, LeaveOf(e))
    ensures Sum(s'.reqs, OweOf(e)) == Sum(s.reqs, OweOf(e))
    ensures Sum(s'.reqs, ActiveOf(e)) == Sum(s.reqs, ActiveOf(e))
  {
    var x, y := s'.reqs[me], s'.reqs[next];
    SumTwice(s.reqs, me, x, next, y, HoldOf(e));
    SumTwice(s.reqs, me, x, next, y, LeaveOf(e));
    SumTwice(s.reqs, me, x, next, y, OweOf(e));
    SumTwice(s.reqs, me, x, next, y, ActiveOf(e));
  }

  lemma SumTwice(s: seq<Req>, i: nat, x: Req, j: nat, y: Req, f: Req -> int)
    requires i < |s| && j < |s| && i != j
    ensures Sum(s[i := x][j := y], f) == Sum(s, f) - f(s[i]) + f(x) - f(s[j]) + f(y)
  {
    SumUpdate(s, i, x, f);
    SumUpdate(s[i := x], j, y, f);
  }

  lemma WakeEntries(s: Sys, me: nat, s': Sys, next: nat)
    requires EntriesOk(s.k) && WakeStep(s, me, s', next)
    ensures EntriesOk(s'.k)
  {
    forall e | e in s'.k.entries ensures EntryOk(s'.k.entries[e]) {
      var v, v' := s.k.entries[e], s'.k.entries[e];
      assert EntryOk(v) && WakeEntry(v, v', e == s.reqs[me].dv);
      if e == s.reqs[me].dv {
        assert v.dup.queue == [v.dup.queue[0]] + v.dup.queue[1..];
      }
    }
  }

  lemma WakeReqs(s: Sys, me: nat, s': Sys, next: nat)
    requires EntriesOk(s.k) && ActivesOk(s) && ReqsOk(s) && WakeStep(s, me, s', next)
    ensures ReqsOk(s')
  {
    forall i | 0 <= i < |s'.reqs| ensures ReqOk(s'.k, s'.reqs[i]) {
      assert ReqOk(s.k, s.reqs[i]) && ReqOk(s.k, s.reqs[me]);
      if i == next {
        var v := s.k.entries[s.reqs[me].dv];
        assert EntryOk(v) && WakeEntry(v, s'.k.entries[s.reqs[me].dv], true);
      } else if i != me {
        forall e: nat ensures Gentle(s.k, s'.k, e) || Sole(s.k, s.reqs[me], e) {
          if e in s.k.entries {
            assert WakeEntry(s.k.entries[e], s'.k.entries[e], e == s.reqs[me].dv);
          }
        }
        OtherReqKept(s, s'.k, me, i);
      }
    }
  }

  lemma WakeWaiters(s: Sys, me: nat, s': Sys, next: nat)
    requires WaitersOk(s) && WakeStep(s, me, s', next)
    ensures WaitersOk(s')
  {
    var mine := s.reqs[me].dv;
    assert QueueOk(s, mine);
    TailOk(s.k.entries[mine].dup.queue);
    forall i | 0 <= i < |s'.reqs| && s'.reqs[i].pc.Suspended? ensures Waits(s', i) {
      assert Waits(s, i);
      assert WakeEntry(s.k.entries[s.reqs[i].dv], s'.k.entries[s.reqs[i].dv], s.reqs[i].dv == mine);
    }
    forall e | e in s'.k.entries ensures QueueOk(s', e) {
      assert QueueOk(s, e) && WakeEntry(s.k.entries[e], s'.k.entries[e], e == mine);
    }
  }

  lemma WakeInv(s: Sys, me: nat)
    requires Inv(s) && Wakes(s, me)
    ensures QueueOk(s, s.reqs[me].dv) && Inv(Wake(s, me))
  {
    WakeIsWakeStep(s, me);
    var s', next := Wake(s, me), s.k.entries[s.reqs[me].dv].dup.queue[0];
    WakeBooks(s, me, s', next);
    WakeEntries(s, me, s', next);
    WakeReqs(s, me, s', next);
    WakeWaiters(s, me, s', next);
  }

  // ----- any step of any request --------------------------------------------------------------

  /** In a cache that is well formed so far, where the request that steps belongs. */
  predicate OnEntry(r: Req) {
    r.pc.Start? || (Attached(r) && !r.pc.Suspended?)
  }

  /** The step of request `me` on the cache; `rc` is the outcome of the service function
      or of sending the reply. */
  function Move(cfg: Config, s: Sys, me: nat, rc: Rc): Sys
    requires Inv(s) && me < |s.reqs| && OnEntry(s.reqs[me])
  {
    Present(s, me);
    var r := s.reqs[me];
    if r.pc.Start? then
      var n := if r.key in s.k.table then StartHit(cfg, s.k, r, me) else StartNew(s.k, r);
      Sys(n.0, s.reqs[me := n.1])
    else if r.pc.Run? then
      Sys(s.k, s.reqs[me := RunNext(s.k, r, rc)])
    else if r.pc.Finish? then
      var n := FinishNext(cfg, s.k, r);
      Sys(n.0, s.reqs[me := n.1])
    else if r.pc.Delete? then
      var n := DeleteNext(s.k, r);
      Sys(n.0, s.reqs[me := n.1])
    else if r.pc.rel.DropEntry? then
      Sys(PutEntry(s.k, r.dv), s.reqs[me := Goto(r, Rele(DropDrc))])
    else
      assert QueueOk(s, r.dv);
      Wake(s, me)
  }

  /** A request that finds its entry gone from the queue finds it gone from the table. */
  lemma NotLeaving(s: Sys, me: nat)
    requires Inv(s) && me < |s.reqs| && s.reqs[me].pc == Delete(LeaveQueue)
    requires s.reqs[me].dv !in s.k.q
    ensures !InTable(s.k, s.reqs[me].dv)
  {
    var e := s.reqs[me].dv;
    assert BookOk(s, e) && ReqOk(s.k, s.reqs[me]) && ActiveOk(s, e);
    if InTable(s.k, e) {
      var i := SumPositive(s.reqs, LeaveOf(e));
      SumTwo(s.reqs, me, i, ActiveOf(e));
      assert false;
    }
  }

  lemma DeleteGood(s: Sys, me: nat)
    requires Inv(s) && me < |s.reqs| && s.reqs[me].pc.Delete?
    ensures s.reqs[me].dv in s.k.entries
    ensures var n := DeleteNext(s.k, s.reqs[me]);
      GoodStep(s.k, s.reqs[me], n.0, n.1) && QueuesKept(s.k, n.0) && !n.1.pc.Suspended?
  {
    var r := s.reqs[me];
    Present(s, me);
    PresentAt(s, me, r.dv);
    if r.pc.del.LeaveQueue? && r.dv !in s.k.q {
      NotLeaving(s, me);
    }
    assert ReqOk(s.k, r);
    GoodDelete(s.k, r);
  }

  lemma FinishGood(cfg: Config, s: Sys, me: nat)
    requires Inv(s) && me < |s.reqs| && s.reqs[me].pc.Finish?
    ensures s.reqs[me].dv in s.k.entries
    ensures var n := FinishNext(cfg, s.k, s.reqs[me]);
      GoodStep(s.k, s.reqs[me], n.0, n.1) && QueuesKept(s.k, n.0) && !n.1.pc.Suspended?
  {
    var r := s.reqs[me];
    Present(s, me);
    assert ReqOk(s.k, r);
    match r.pc.fin {
      case Mark(_) => GoodMark(cfg, s.k, r);
      case Retire(_) => GoodRetire(cfg, s.k, r);
      case RetirePop(_, _) => GoodRetirePop(cfg, s.k, r);
      case RetirePut(_, ov) =>
        PresentAt(s, me, ov);
        GoodRetirePut(cfg, s.k, r);
    }
  }

  /** Every step on the cache, but the one that wakes a duplicate, is a good step of the
      one request. */
  lemma MoveGood(cfg: Config, s: Sys, me: nat, rc: Rc)
    requires Inv(s) && me < |s.reqs| && OnEntry(s.reqs[me]) && s.reqs[me].pc != Rele(WakeNext)
    ensures var s' := Move(cfg, s, me, rc);
      && |s'.reqs| == |s.reqs| && s'.reqs == s.reqs[me := s'.reqs[me]]
      && GoodStep(s.k, s.reqs[me], s'.k, s'.reqs[me])
      && (!s'.reqs[me].pc.Suspended? ==> QueuesKept(s.k, s'.k))
  {
    var r := s.reqs[me];
    Present(s, me);
    match r.pc
    case Start =>
      if r.key in s.k.table {
        GoodHit(cfg, s.k, r, me);
      } else {
        GoodNew(s.k, r);
      }
    case Run(_) =>
      assert ReqOk(s.k, r);
      GoodRun(s.k, r, rc);
    case Finish(_) => FinishGood(cfg, s, me);
    case Delete(_) => DeleteGood(s, me);
    case Rele(_) => GoodDropEntry(s.k, r);
  }

  /** Every step of every request keeps the invariant. */
  lemma MoveInv(cfg: Config, s: Sys, me: nat, rc: Rc)
    requires Inv(s) && me < |s.reqs| && OnEntry(s.reqs[me])
    ensures Inv(Move(cfg, s, me, rc))
  {
    Present(s, me);
    var s' := Move(cfg, s, me, rc);
    if s.reqs[me].pc.Start? && s.reqs[me].key in s.k.table {
      HitInv(cfg, s, me);
    } else if s.reqs[me].pc != Rele(WakeNext) {
      MoveGood(cfg, s, me, rc);
      OnlyHitSuspends(cfg, s, me, rc);
      InvFromStep(s, s'.k, me, s'.reqs[me]);
    } else if s.k.entries[s.reqs[me].dv].dup.queue == [] {
      WakeNobodyInv(s, me);
    } else {
      WakeInv(s, me);
    }
  }

  lemma OnlyHitSuspends(cfg: Config, s: Sys, me: nat, rc: Rc)
    requires Inv(s) && me < |s.reqs| && OnEntry(s.reqs[me]) && s.reqs[me].pc != Rele(WakeNext)
    requires !(s.reqs[me].pc.Start? && s.reqs[me].key in s.k.table)
    ensures |Move(cfg, s, me, rc).reqs| == |s.reqs| && !Move(cfg, s, me, rc).reqs[me].pc.Suspended?
  {
    Present(s, me);
  }

  /** Steps outside the cache, of a request that is attached to nothing. */
  lemma OutsideInv(s: Sys, me: nat, r': Req)
    requires Inv(s) && me < |s.reqs|
    requires !Attached(s.reqs[me]) && !Attached(r')
    ensures Inv(Sys(s.k, s.reqs[me := r']))
  {
    InvFromStep(s, s.k, me, r');
  }
}
