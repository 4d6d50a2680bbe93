/** Share reservations (section 9.9 of RFC 7530): five counters on a file stand in for the
    reservations that its opens hold. */
module Shares {
  import opened Bits
  import opened Tally

  const READ: nat := 0
  const WRITE: nat := 1
  const DENY_READ: nat := 8
  const DENY_WRITE: nat := 9
  const DENY_WRITE_MAND: nat := 10

  /** struct fsal_share, as a value. */
  datatype Counts = Counts(accessRead: int, accessWrite: int, denyRead: int, denyWrite: int, denyWriteMand: int)

  const NONE: Counts := Counts(0, 0, 0, 0, 0)

  function Has(flags: Mask, bit: nat): int {
    if bit in flags then 1 else 0
  }

  class Share {
    var accessRead: int
    var accessWrite: int
    var denyRead: int
    var denyWrite: int
    var denyWriteMand: int

    function Value(): Counts
      reads this
    {
      Counts(accessRead, accessWrite, denyRead, denyWrite, denyWriteMand)
    }

    constructor ()
      ensures Value() == NONE
    {
      accessRead, accessWrite, denyRead, denyWrite, denyWriteMand := 0, 0, 0, 0, 0;
    }

    /** update_share_counters. */
    method Update(before: Mask, after: Mask)
      modifies this
      ensures Value() == Updated(old(Value()), before, after)
    {
      var accessReadInc := Has(after, READ) - Has(before, READ);
      var accessWriteInc := Has(after, WRITE) - Has(before, WRITE);
      var denyReadInc := Has(after, DENY_READ) - Has(before, DENY_READ);
      var denyWriteInc := Has(after, DENY_WRITE) - Has(before, DENY_WRITE)
        + Has(after, DENY_WRITE_MAND) - Has(before, DENY_WRITE_MAND);
      var denyWriteMandInc := Has(after, DENY_WRITE_MAND) - Has(before, DENY_WRITE_MAND);
      accessRead := accessRead + accessReadInc;
      accessWrite := accessWrite + accessWriteInc;
      denyRead := denyRead + denyReadInc;
      denyWrite := denyWrite + denyWriteInc;
      denyWriteMand := denyWriteMand + denyWriteMandInc;
    }

    /** check_share_conflict. */
    method CheckConflict(flags: Mask, bypass: bool) returns (denied: bool)
      ensures denied == Denies(Value(), flags, bypass)
    {
      if READ in flags && denyRead > 0 && !bypass {
        return true;
      }
      if WRITE in flags && (denyWriteMand > 0 || (!bypass && denyWrite > 0)) {
        return true;
      }
      if DENY_READ in flags && accessRead > 0 {
        return true;
      }
      if (DENY_WRITE in flags || DENY_WRITE_MAND in flags) && accessWrite > 0 {
        return true;
      }
      return false;
    }

    /** check_share_conflict_and_update. */
    method CheckAndUpdate(before: Mask, after: Mask, bypass: bool) returns (denied: bool)
      modifies this
      ensures denied == Denies(old(Value()), after, bypass)
      ensures Value() == if denied then old(Value()) else Updated(old(Value()), before, after)
    {
      denied := CheckConflict(after, bypass);
      if !denied {
        Update(before, after);
      }
    }

    /** merge_share. */
    method Merge(dupe: Share) returns (denied: bool)
      requires dupe != this
      modifies this
      ensures denied == MergeDenies(old(Value()), dupe.Value())
      ensures Value() == if denied then old(Value()) else Plus(old(Value()), dupe.Value())
    {
      if dupe.denyRead == 0 && dupe.denyWrite == 0 && dupe.denyWriteMand == 0
         && dupe.accessRead == 0 && dupe.accessWrite == 0
      {
        return false;
      }
      if dupe.accessRead > 0 && denyRead > 0 {
        return true;
      }
      if dupe.denyRead > 0 && accessRead > 0 {
        return true;
      }
      if dupe.accessWrite > 0 && denyWrite > 0 {
        return true;
      }
      if dupe.denyWrite > 0 && accessWrite > 0 {
        return true;
      }
      accessRead := accessRead + dupe.accessRead;
      accessWrite := accessWrite + dupe.accessWrite;
      denyRead := denyRead + dupe.denyRead;
      denyWrite := denyWrite + dupe.denyWrite;
      denyWriteMand := denyWriteMand + dupe.denyWriteMand;
      return false;
    }
  }

  // ----- the operations as functions of the counters --------------------------------------------

  /** What one reservation adds; a mandatory deny-write is counted with the advisory ones too. */
  function Weight(flags: Mask): Counts {
    Counts(Has(flags, READ), Has(flags, WRITE), Has(flags, DENY_READ),
           Has(flags, DENY_WRITE) + Has(flags, DENY_WRITE_MAND), Has(flags, DENY_WRITE_MAND))
  }

  function Plus(a: Counts, b: Counts): Counts {
    Counts(a.accessRead + b.accessRead, a.accessWrite + b.accessWrite, a.denyRead + b.denyRead,
           a.denyWrite + b.denyWrite, a.denyWriteMand + b.denyWriteMand)
  }

  function Updated(c: Counts, before: Mask, after: Mask): Counts {
    var lost, won := Weight(before), Weight(after);
    Counts(c.accessRead - lost.accessRead + won.accessRead, c.accessWrite - lost.accessWrite + won.accessWrite,
           c.denyRead - lost.denyRead + won.denyRead, c.denyWrite - lost.denyWrite + won.denyWrite,
           c.denyWriteMand - lost.denyWriteMand + won.denyWriteMand)
  }

  predicate Denies(c: Counts, flags: Mask, bypass: bool) {
    || (READ in flags && c.denyRead > 0 && !bypass)
    || (WRITE in flags && (c.denyWriteMand > 0 || (!bypass && c.denyWrite > 0)))
    || (DENY_READ in flags && c.accessRead > 0)
    || ((DENY_WRITE in flags || DENY_WRITE_MAND in flags) && c.accessWrite > 0)
  }

  predicate MergeDenies(c: Counts, d: Counts) {
    d != NONE &&
    (|| (d.accessRead > 0 && c.denyRead > 0) || (d.denyRead > 0 && c.accessRead > 0)
     || (d.accessWrite > 0 && c.denyWrite > 0) || (d.denyWrite > 0 && c.accessWrite > 0))
  }

  // ----- the reservations that are held -----------------------------------------------------------

  function BitOf(bit: nat): Mask -> int {
    (flags: Mask) => Has(flags, bit)
  }

  /** How many of the held reservations have the bit. */
  function Count(held: seq<Mask>, bit: nat): int {
    Sum(held, BitOf(bit))
  }

  function CountsOf(held: seq<Mask>): Counts {
    Counts(Count(held, READ), Count(held, WRITE), Count(held, DENY_READ),
           Count(held, DENY_WRITE) + Count(held, DENY_WRITE_MAND), Count(held, DENY_WRITE_MAND))
  }

  predicate DeniesWrite(flags: Mask) {
    DENY_WRITE in flags || DENY_WRITE_MAND in flags
  }

  /** Two reservations that cannot be held together. */
  predicate Clash(a: Mask, b: Mask) {
    || (READ in a && DENY_READ in b) || (DENY_READ in a && READ in b)
    || (WRITE in a && DeniesWrite(b)) || (DeniesWrite(a) && WRITE in b)
  }

  /** What of a clash a new reservation `a` that bypasses advisory denials still meets. */
  predicate HardClash(a: Mask, b: Mask) {
    || (DENY_READ in a && READ in b)
    || (WRITE in a && DENY_WRITE_MAND in b) || (DeniesWrite(a) && WRITE in b)
  }

  ghost predicate Compatible(held: seq<Mask>) {
    forall i, j :: 0 <= i < j < |held| ==> !Clash(held[i], held[j])
  }

  /** No writer and another's mandatory deny-write together. */
  predicate MandatoryClash(a: Mask, b: Mask) {
    (WRITE in a && DENY_WRITE_MAND in b) || (DENY_WRITE_MAND in a && WRITE in b)
  }

  ghost predicate MandatoryKept(held: seq<Mask>) {
    forall i, j :: 0 <= i < j < |held| ==> !MandatoryClash(held[i], held[j])
  }

  lemma CountPositive(held: seq<Mask>, bit: nat)
    ensures Count(held, bit) >= 0
    ensures Count(held, bit) > 0 <==> exists i :: 0 <= i < |held| && bit in held[i]
  {
    SumNonNegative(held, BitOf(bit));
    if Count(held, bit) > 0 {
      var i := SumPositive(held, BitOf(bit));
      assert bit in held[i];
    }
    forall i | 0 <= i < |held| && bit in held[i] ensures Count(held, bit) > 0 {
      SumAtLeast(held, i, BitOf(bit));
    }
  }

  /** The check denies a request exactly when it clashes with some held reservation. */
  lemma DeniesIffClash(held: seq<Mask>, flags: Mask)
    ensures Denies(CountsOf(held), flags, false) <==> exists i :: 0 <= i < |held| && Clash(flags, held[i])
    ensures Denies(CountsOf(held), flags, true) <==> exists i :: 0 <= i < |held| && HardClash(flags, held[i])
  {
    CountPositive(held, READ);
    CountPositive(held, WRITE);
    CountPositive(held, DENY_READ);
    CountPositive(held, DENY_WRITE);
    CountPositive(held, DENY_WRITE_MAND);
  }

  /** What a new share counts when it has taken one reservation. */
  lemma FirstReservation(flags: Mask)
    ensures Updated(NONE, {}, flags) == Weight(flags)
  {}

  /** Merging a share that has taken one reservation is denied exactly when opening with that
      reservation would be. */
  lemma MergeIsCheck(held: seq<Mask>, flags: Mask)
    ensures MergeDenies(CountsOf(held), Updated(NONE, {}, flags)) <==> Denies(CountsOf(held), flags, false)
  {
    FirstReservation(flags);
    CountPositive(held, DENY_WRITE);
    CountPositive(held, DENY_WRITE_MAND);
  }

  lemma {:induction false} CountAppend(held: seq<Mask>, flags: Mask, bit: nat)
    ensures Count(held + [flags], bit) == Count(held, bit) + Has(flags, bit)
  {
    SumAppend(held, flags, BitOf(bit));
  }

  lemma CountsFromBits(held: seq<Mask>, flags: Mask, all: seq<Mask>)
    requires forall bit: nat :: Count(all, bit) == Count(held, bit) + Has(flags, bit)
    ensures CountsOf(all) == Plus(CountsOf(held), Weight(flags))
  {
    var c, d := CountsOf(held), CountsOf(all);
    assert d.accessRead == c.accessRead + Has(flags, READ);
    assert d.accessWrite == c.accessWrite + Has(flags, WRITE);
    assert d.denyRead == c.denyRead + Has(flags, DENY_READ);
    assert d.denyWriteMand == c.denyWriteMand + Has(flags, DENY_WRITE_MAND);
  }

  lemma {:induction false} CountsAppend(held: seq<Mask>, flags: Mask)
    ensures CountsOf(held + [flags]) == Plus(CountsOf(held), Weight(flags))
  {
    forall bit: nat ensures Count(held + [flags], bit) == Count(held, bit) + Has(flags, bit) {
      CountAppend(held, flags, bit);
    }
    CountsFromBits(held, flags, held + [flags]);
  }

  lemma CountsChange(held: seq<Mask>, i: nat, flags: Mask)
    requires i < |held|
    ensures CountsOf(held[i := flags]) == Updated(CountsOf(held), held[i], flags)
  {
    SumUpdate(held, i, flags, BitOf(READ));
    SumUpdate(held, i, flags, BitOf(WRITE));
    SumUpdate(held, i, flags, BitOf(DENY_READ));
    SumUpdate(held, i, flags, BitOf(DENY_WRITE));
    SumUpdate(held, i, flags, BitOf(DENY_WRITE_MAND));
  }

  // ----- runs ------------------------------------------------------------------------------------------

  /** What can happen to a file's share: a new reservation, checked; a held one changed, checked;
      a held one given up in part or, with no flags left, altogether, unchecked; and another
      handle's one reservation merged in. */
  datatype Op =
    | Reserve(flags: Mask, bypass: bool)
    | Change(i: nat, flags: Mask, bypass: bool)
    | Lower(i: nat, flags: Mask)
    | MergeIn(flags: Mask)

  /** The counters, which decide, and the reservations, which do not. */
  datatype State = State(c: Counts, held: seq<Mask>)

  predicate Allowed(s: State, op: Op) {
    match op
    case Reserve(flags, bypass) => !Denies(s.c, flags, bypass)
    case Change(i, flags, bypass) => i < |s.held| && !Denies(s.c, flags, bypass)
    case Lower(i, flags) => i < |s.held| && flags <= s.held[i]
    case MergeIn(flags) => !MergeDenies(s.c, Weight(flags))
  }

  function Do(s: State, op: Op): State
    requires Allowed(s, op)
  {
    match op
    case Reserve(flags, _) => State(Updated(s.c, {}, flags), s.held + [flags])
    case Change(i, flags, _) => State(Updated(s.c, s.held[i], flags), s.held[i := flags])
    case Lower(i, flags) => State(Updated(s.c, s.held[i], flags), s.held[i := flags])
    case MergeIn(flags) => State(Plus(s.c, Weight(flags)), s.held + [flags])
  }

  function Run(s: State, ops: seq<Op>): State
    decreases |ops|
  {
    if |ops| == 0 then s else Run(if Allowed(s, ops[0]) then Do(s, ops[0]) else s, ops[1..])
  }

  predicate Bypasses(op: Op) {
    (op.Reserve? || op.Change?) && op.bypass
  }

  lemma DoCounts(s: State, op: Op)
    requires s.c == CountsOf(s.held) && Allowed(s, op)
    ensures Do(s, op).c == CountsOf(Do(s, op).held)
  {
    match op
    case Reserve(flags, _) => CountsAppend(s.held, flags);
    case MergeIn(flags) => CountsAppend(s.held, flags);
    case Change(i, flags, _) => CountsChange(s.held, i, flags);
    case Lower(i, flags) => CountsChange(s.held, i, flags);
  }

  lemma DoCompatible(s: State, op: Op)
    requires s.c == CountsOf(s.held) && Allowed(s, op)
    ensures Compatible(s.held) && !Bypasses(op) ==> Compatible(Do(s, op).held)
    ensures MandatoryKept(s.held) ==> MandatoryKept(Do(s, op).held)
  {
    DeniesIffClash(s.held, op.flags);
    if op.MergeIn? {
      MergeIsCheck(s.held, op.flags);
    }
  }

  lemma {:induction false} RunKeeps(s: State, ops: seq<Op>)
    requires s.c == CountsOf(s.held) && MandatoryKept(s.held)
    ensures var s' := Run(s, ops);
      && s'.c == CountsOf(s'.held) && MandatoryKept(s'.held)
      && (Compatible(s.held) && (forall k :: 0 <= k < |ops| ==> !Bypasses(ops[k])) ==> Compatible(s'.held))
    decreases |ops|
  {
    if |ops| != 0 {
      var s1 := s;
      if Allowed(s, ops[0]) {
        DoCounts(s, ops[0]);
        DoCompatible(s, ops[0]);
        s1 := Do(s, ops[0]);
      }
      RunKeeps(s1, ops[1..]);
    }
  }

  /** Over every run from a new file: the counters are the counts over the held reservations; if
      nothing was allowed to bypass, no two held reservations clash; and even if something was, no
      writer is there beside another's mandatory deny-write. */
  lemma EveryRun(ops: seq<Op>)
    ensures var s := Run(State(NONE, []), ops);
      && s.c == CountsOf(s.held) && MandatoryKept(s.held)
      && ((forall k :: 0 <= k < |ops| ==> !Bypasses(ops[k])) ==> Compatible(s.held))
  {
    RunKeeps(State(NONE, []), ops);
  }

  /** When everything has been given up all the counters are zero again. */
  lemma {:induction false} NothingHeld(held: seq<Mask>)
    requires forall i :: 0 <= i < |held| ==> held[i] == {}
    ensures CountsOf(held) == NONE
  {
    SumZero(held, BitOf(READ));
    SumZero(held, BitOf(WRITE));
    SumZero(held, BitOf(DENY_READ));
    SumZero(held, BitOf(DENY_WRITE));
    SumZero(held, BitOf(DENY_WRITE_MAND));
  }
}
