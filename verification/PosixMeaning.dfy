/** Whether an NFSv4 ACL made from a POSIX ACL decides as the POSIX ACL does. */
module PosixMeaning {
  import opened Bits
  import opened Acl
  import opened Options
  import opened PosixAcl
  import ModeAcl

  // ----- POSIX evaluation -------------------------------------------------------------------

  function UserPerms(users: seq<Qualified>, uid: nat): Option<Perms> {
    if |users| == 0 then None
    else if users[0].id == uid then Some(users[0].perms) else UserPerms(users[1..], uid)
  }

  /** The perms of the qualified groups that the caller is in, in order. */
  function InGroups(groups: seq<Qualified>, c: Creds): seq<Perms> {
    if |groups| == 0 then []
    else (if InGroup(c, groups[0].id) then [groups[0].perms] else []) + InGroups(groups[1..], c)
  }

  /** The perms of all the group entries that match the caller. */
  function GroupMatches(p: Posix, c: Creds, o: Obj): seq<Perms> {
    (if InGroup(c, o.group) then [p.group] else []) + InGroups(p.groups, c)
  }

  /** POSIX ACL evaluation for a caller that is not root. */
  predicate PosixGrants(p: Posix, c: Creds, o: Obj, want: Perms) {
    var user, ms := UserPerms(p.users, c.uid), GroupMatches(p, c, o);
    if c.uid == o.owner then want <= p.owner
    else if user.Some? then want <= user.value * MaskOf(p)
    else if ms != [] then exists i :: 0 <= i < |ms| && want <= ms[i] * MaskOf(p)
    else want <= p.other
  }

  // ----- what the ACEs of one entry decide ------------------------------------------------------

  predicate EntryMatches(e: Entry, c: Creds, o: Obj) {
    match e.tag
    case UserObj => c.uid == o.owner
    case User => c.uid == e.id
    case GroupObj => InGroup(c, o.group)
    case Group => InGroup(c, e.id)
    case MaskTag => false
    case Other => true
  }

  function PermOf(b: nat): Perm {
    if b == READ_DATA then R else if b == EXECUTE then X else W
  }

  function EntryVerdict(e: Entry, mask: Perms, later: Perms, c: Creds, o: Obj, x: Perm): Verdict {
    if !EntryMatches(e, c, o) then Undecided
    else if x in Through(e, mask) then Allowed
    else if x in later - e.perms then Denied
    else Undecided
  }

  lemma PermBitsHas(perms: Perms, tag: Tag, dir: bool, b: nat)
    requires b in ModeAcl.RWX
    ensures b in PermBits(perms, tag, dir) <==> PermOf(b) in perms
  {}

  lemma EntryApplies(e: Entry, mask: Perms, later: Perms, dir: bool, c: Creds, o: Obj)
    requires !c.root
    ensures Applicable(AllowAce(e, mask, dir, false), c, o) == EntryMatches(e, c, o)
    ensures Applicable(DenyAce(e, later, dir, false), c, o) == EntryMatches(e, c, o)
  {}

  lemma EntryDecision(e: Entry, mask: Perms, later: Perms, dir: bool, c: Creds, o: Obj, b: nat)
    requires b in ModeAcl.RWX && !c.root
    ensures Decision(EntryAces(e, mask, later, dir, false), c, o, b) ==
            EntryVerdict(e, mask, later, c, o, PermOf(b))
  {
    var allow, deny := AllowAce(e, mask, dir, false), DenyAce(e, later, dir, false);
    PermBitsHas(Through(e, mask), e.tag, dir, b);
    PermBitsHas(later - e.perms, e.tag, dir, b);
    EntryApplies(e, mask, later, dir, c, o);
    ModeAcl.OneDecision(allow, c, o, b);
    ModeAcl.OneDecision(deny, c, o, b);
    DecisionConcat([deny], [allow], c, o, b);
    assert [deny, allow] == [deny] + [allow];
  }

  // ----- what the whole list decides --------------------------------------------------------------

  function VerdictAt(es: seq<Entry>, i: nat, c: Creds, o: Obj, x: Perm): Verdict
    requires i < |es|
  {
    EntryVerdict(es[i], PermsOr(es, MaskTag, ALL), Later(es, i), c, o, x)
  }

  /** The first verdict from entry `i` on. */
  function VerdictFrom(es: seq<Entry>, i: nat, c: Creds, o: Obj, x: Perm): Verdict
    requires i <= |es|
    decreases |es| - i
  {
    if i == |es| then Undecided
    else if VerdictAt(es, i, c, o, x) != Undecided then VerdictAt(es, i, c, o, x)
    else VerdictFrom(es, i + 1, c, o, x)
  }

  lemma {:induction false} DecisionUpTo(es: seq<Entry>, n: nat, how: How, c: Creds, o: Obj, b: nat)
    requires n <= |es| && b in ModeAcl.RWX && !c.root && !how.inherit
    ensures VerdictFrom(es, 0, c, o, PermOf(b)) ==
            OrElse(Decision(AcesUpTo(es, n, how), c, o, b), VerdictFrom(es, n, c, o, PermOf(b)))
  {
    if n == 0 {
      assert AcesUpTo(es, n, how) == [];
    } else {
      DecisionUpTo(es, n - 1, how, c, o, b);
      VerdictStep(es, n - 1, c, o, PermOf(b));
      OneMoreEntry(es, n - 1, how, c, o, b);
      DecisionAt(es, n - 1, how, c, o, b);
    }
  }

  function OrElse(first: Verdict, second: Verdict): Verdict {
    if first != Undecided then first else second
  }

  lemma VerdictStep(es: seq<Entry>, i: nat, c: Creds, o: Obj, x: Perm)
    requires i < |es|
    ensures VerdictFrom(es, i, c, o, x) == OrElse(VerdictAt(es, i, c, o, x), VerdictFrom(es, i + 1, c, o, x))
  {}

  lemma OneMoreEntry(es: seq<Entry>, n: nat, how: How, c: Creds, o: Obj, b: nat)
    requires n < |es|
    ensures Decision(AcesUpTo(es, n + 1, how), c, o, b) ==
            OrElse(Decision(AcesUpTo(es, n, how), c, o, b), Decision(AcesAt(es, n, how), c, o, b))
  {
    var head, last := AcesUpTo(es, n, how), AcesAt(es, n, how);
    DecisionConcat(head, last, c, o, b);
  }

  lemma DecisionAt(es: seq<Entry>, i: nat, how: How, c: Creds, o: Obj, b: nat)
    requires i < |es| && b in ModeAcl.RWX && !c.root && !how.inherit
    ensures Decision(AcesAt(es, i, how), c, o, b) == VerdictAt(es, i, c, o, PermOf(b))
  {
    EntryDecision(es[i], PermsOr(es, MaskTag, ALL), Later(es, i), how.dir, c, o, b);
  }

  /** For NFSv3 and NFSv4 alike, the converted ACL decides by the first entry with a verdict. */
  lemma ConvertedDecision(es: seq<Entry>, how: How, c: Creds, o: Obj, b: nat)
    requires b in ModeAcl.RWX && !c.root && !how.inherit
    ensures Decision(Converted(es, how), c, o, b) == VerdictFrom(es, 0, c, o, PermOf(b))
  {
    DecisionUpTo(es, |es|, how, c, o, b);
  }

  /** ACEs made for inheritance decide nothing themselves, not even for root. */
  lemma {:induction false} InheritedNeverDecide(es: seq<Entry>, n: nat, how: How, c: Creds, o: Obj, b: nat)
    requires n <= |es| && how.inherit
    ensures Decision(AcesUpTo(es, n, how), c, o, b) == Undecided
  {
    if n != 0 {
      InheritedNeverDecide(es, n - 1, how, c, o, b);
      OneMoreEntry(es, n - 1, how, c, o, b);
      InheritedAt(es, n - 1, how, c, o, b);
    }
  }

  lemma InheritedAt(es: seq<Entry>, i: nat, how: How, c: Creds, o: Obj, b: nat)
    requires i < |es| && how.inherit
    ensures Decision(AcesAt(es, i, how), c, o, b) == Undecided
  {
    InheritedEntry(es[i], PermsOr(es, MaskTag, ALL), Later(es, i), how.dir, c, o, b);
  }

  lemma InheritedEntry(e: Entry, mask: Perms, later: Perms, dir: bool, c: Creds, o: Obj, b: nat)
    ensures Decision(EntryAces(e, mask, later, dir, true), c, o, b) == Undecided
  {
    var aces := EntryAces(e, mask, later, dir, true);
    assert forall i :: 0 <= i < |aces| ==> aces[i].flag == FlagOf(e, true);
    DecisionIsFirstDecider(aces, c, o, b);
  }

  /** A perm that nothing from `i` on has is not granted there. */
  lemma {:induction false} NotGrantedFrom(es: seq<Entry>, i: nat, c: Creds, o: Obj, x: Perm)
    requires i <= |es| && x !in Union(es[i..])
    ensures VerdictFrom(es, i, c, o, x) != Allowed
    decreases |es| - i
  {
    if i < |es| {
      assert es[i..][1..] == es[i + 1..];
      NotGrantedFrom(es, i + 1, c, o, x);
    }
  }

  // ----- a valid ACL -------------------------------------------------------------------------------

  /** Where the entries of a valid ACL are. */
  ghost predicate Shape(es: seq<Entry>, p: Posix) {
    var nu, ng := |p.users|, |p.groups|;
    && |es| == 3 + nu + ng + (if p.mask.Some? then 1 else 0)
    && es[0] == Entry(UserObj, 0, p.owner) && es[1 + nu] == Entry(GroupObj, 0, p.group)
    && es[|es| - 1] == Entry(Other, 0, p.other)
    && (p.mask.Some? ==> es[2 + nu + ng] == Entry(MaskTag, 0, p.mask.value))
    && (forall i :: 1 <= i <= nu ==> es[i] == Entry(User, p.users[i - 1].id, p.users[i - 1].perms))
    && (forall i :: 2 + nu <= i < 2 + nu + ng ==>
          es[i] == Entry(Group, p.groups[i - 2 - nu].id, p.groups[i - 2 - nu].perms))
  }

  lemma EntriesShape(p: Posix)
    ensures Shape(Entries(p), p)
  {}

  lemma ShapeFinds(es: seq<Entry>, p: Posix)
    requires Shape(es, p)
    ensures Find(es, UserObj) == 0 && Find(es, GroupObj) == 1 + |p.users|
    ensures PermsOr(es, Other, {}) == p.other && PermsOr(es, MaskTag, ALL) == MaskOf(p)
  {
    var i := Find(es, MaskTag);
    if p.mask.None? && i < |es| {
      assert false;
    }
    assert Find(es, Other) == |es| - 1;
  }

  // ----- the verdict on a caller, class by class -----------------------------------------------------

  /** The verdict of the matching group entries and then of OTHER. */
  function GroupVerdict(ms: seq<Perms>, mask: Perms, other: Perms, x: Perm): Verdict {
    if |ms| == 0 then (if x in other then Allowed else Undecided)
    else if x in ms[0] * mask then Allowed
    else if x in other - ms[0] then Denied
    else GroupVerdict(ms[1..], mask, other, x)
  }

  lemma GroupVerdictCons(m: Perms, ms: seq<Perms>, mask: Perms, other: Perms, x: Perm)
    ensures GroupVerdict([m] + ms, mask, other, x) ==
            if x in m * mask then Allowed else if x in other - m then Denied
            else GroupVerdict(ms, mask, other, x)
  {
    assert ([m] + ms)[1..] == ms;
  }

  lemma GroupEntryVerdict(es: seq<Entry>, p: Posix, i: nat, c: Creds, o: Obj, x: Perm)
    requires Shape(es, p) && 1 + |p.users| <= i < 2 + |p.users| + |p.groups|
    ensures VerdictAt(es, i, c, o, x) ==
            if !EntryMatches(es[i], c, o) then Undecided
            else if x in es[i].perms * MaskOf(p) then Allowed
            else if x in p.other - es[i].perms then Denied else Undecided
  {
    ShapeFinds(es, p);
  }

  lemma {:induction false} GroupsVerdict(es: seq<Entry>, p: Posix, k: nat, c: Creds, o: Obj, x: Perm)
    requires Shape(es, p) && k <= |p.groups|
    ensures VerdictFrom(es, 2 + |p.users| + k, c, o, x) ==
            GroupVerdict(InGroups(p.groups[k..], c), MaskOf(p), p.other, x)
    decreases |p.groups| - k
  {
    if k < |p.groups| {
      GroupsVerdict(es, p, k + 1, c, o, x);
      assert p.groups[k..][1..] == p.groups[k + 1..];
      GroupEntryVerdict(es, p, 2 + |p.users| + k, c, o, x);
      var rest := InGroups(p.groups[k + 1..], c);
      GroupVerdictCons(p.groups[k].perms, rest, MaskOf(p), p.other, x);
      assert [] + rest == rest;
    } else {
      LastVerdict(es, p, c, o, x);
    }
  }

  /** The mask has no verdict and OTHER has the last. */
  lemma LastVerdict(es: seq<Entry>, p: Posix, c: Creds, o: Obj, x: Perm)
    requires Shape(es, p)
    ensures VerdictFrom(es, 2 + |p.users| + |p.groups|, c, o, x) ==
            if x in p.other then Allowed else Undecided
  {
    var i := |es| - 1;
    assert VerdictFrom(es, i + 1, c, o, x) == Undecided;
    assert VerdictFrom(es, i, c, o, x) == if x in p.other then Allowed else Undecided;
  }

  lemma GroupClassVerdict(es: seq<Entry>, p: Posix, c: Creds, o: Obj, x: Perm)
    requires Shape(es, p)
    ensures VerdictFrom(es, 1 + |p.users|, c, o, x) ==
            GroupVerdict(GroupMatches(p, c, o), MaskOf(p), p.other, x)
  {
    GroupEntryVerdict(es, p, 1 + |p.users|, c, o, x);
    GroupsVerdict(es, p, 0, c, o, x);
    assert p.groups[0..] == p.groups;
    var rest := InGroups(p.groups, c);
    GroupVerdictCons(p.group, rest, MaskOf(p), p.other, x);
    assert [] + rest == rest;
  }

  /** The named users from the k-th on: with no two alike, at most one has a verdict. */
  lemma {:induction false} UsersVerdict(es: seq<Entry>, p: Posix, k: nat, c: Creds, o: Obj, x: Perm)
    requires Shape(es, p) && Distinct(p.users) && k <= |p.users|
    ensures var u := UserPerms(p.users[k..], c.uid); var rest := VerdictFrom(es, 1 + |p.users|, c, o, x);
      VerdictFrom(es, 1 + k, c, o, x) ==
        if u.None? then rest
        else if x in u.value * MaskOf(p) then Allowed
        else if x in Union(es[1 + |p.users|..]) - u.value then Denied
        else rest
    decreases |p.users| - k
  {
    ShapeFinds(es, p);
    if k < |p.users| {
      assert p.users[k..][1..] == p.users[k + 1..];
      UsersVerdict(es, p, k + 1, c, o, x);
      if p.users[k].id == c.uid {
        NoSecond(p, k + 1, c.uid);
      }
    }
  }

  lemma {:induction false} NoSecond(p: Posix, k: nat, uid: nat)
    requires Distinct(p.users) && 0 < k <= |p.users| && p.users[k - 1].id == uid
    ensures UserPerms(p.users[k..], uid) == None
  {
    NotThere(p.users[k..], uid);
  }

  lemma {:induction false} NotThere(users: seq<Qualified>, uid: nat)
    requires forall i :: 0 <= i < |users| ==> users[i].id != uid
    ensures UserPerms(users, uid) == None
  {
    if |users| != 0 {
      NotThere(users[1..], uid);
    }
  }

  // ----- when the two agree -------------------------------------------------------------------------

  /** What the group class grants, said without going through the list. */
  lemma {:induction false} GroupVerdictClosed(ms: seq<Perms>, mask: Perms, other: Perms, x: Perm)
    ensures GroupVerdict(ms, mask, other, x) == Allowed <==>
            if x !in mask then x in other && forall i :: 0 <= i < |ms| ==> x in ms[i]
            else if x in other then ms == [] || x in ms[0]
            else exists i :: 0 <= i < |ms| && x in ms[i]
  {
    if |ms| != 0 {
      var rest := ms[1..];
      GroupVerdictClosed(rest, mask, other, x);
      assert forall i :: 0 < i < |ms| ==> ms[i] == rest[i - 1];
      if x in mask && x !in other && exists i :: 0 <= i < |rest| && x in rest[i] {
        var i :| 0 <= i < |rest| && x in rest[i];
        assert x in ms[i + 1];
      }
    }
  }

  // The ways in which the converted ACL can treat a whole request differently. `ms` are the
  // matching group entries' perms, in order.

  /** OTHER grants what the mask cuts, and no matching group entry stands in between. */
  predicate Slips(ms: seq<Perms>, mask: Perms, other: Perms, x: Perm) {
    x !in mask && x in other && forall i :: 0 <= i < |ms| ==> x in ms[i]
  }

  /** Some matching group entry has it, and none before denies it. */
  predicate Reached(ms: seq<Perms>, other: Perms, x: Perm) {
    ms != [] && (x in ms[0] || (x !in other && exists i :: 0 <= i < |ms| && x in ms[i]))
  }

  predicate OneCovers(ms: seq<Perms>, mask: Perms, want: Perms) {
    exists i :: 0 <= i < |ms| && want <= ms[i] * mask
  }

  /** Part of the request is cut by the mask and slips past it, and the rest is reached. */
  predicate PastTheMask(ms: seq<Perms>, mask: Perms, other: Perms, want: Perms) {
    && !(want <= mask)
    && forall x :: x in want ==> if x in mask then Reached(ms, other, x) else Slips(ms, mask, other, x)
  }

  /** No matching group entry has the whole request, but together they have it. */
  predicate SplitOverGroups(ms: seq<Perms>, mask: Perms, other: Perms, want: Perms) {
    want <= mask && !OneCovers(ms, mask, want) && forall x :: x in want ==> Reached(ms, other, x)
  }

  /** One matching group entry has the whole request, but the first lacks some of it that OTHER
      grants, and denies that. */
  predicate HiddenByFirst(ms: seq<Perms>, mask: Perms, other: Perms, want: Perms) {
    OneCovers(ms, mask, want) && !(want * other <= ms[0])
  }

  predicate GrantsMore(p: Posix, c: Creds, o: Obj, want: Perms) {
    var user, ms, mask := UserPerms(p.users, c.uid), GroupMatches(p, c, o), MaskOf(p);
    if c.uid == o.owner then false
    else if user.Some? then
      && want <= user.value && !(want <= mask)
      && forall x :: x in want - mask ==> Slips(ms, mask, p.other, x)
    else
      ms != [] && (PastTheMask(ms, mask, p.other, want) || SplitOverGroups(ms, mask, p.other, want))
  }

  predicate GrantsLess(p: Posix, c: Creds, o: Obj, want: Perms) {
    && c.uid != o.owner && UserPerms(p.users, c.uid).None?
    && HiddenByFirst(GroupMatches(p, c, o), MaskOf(p), p.other, want)
  }

  lemma OwnerVerdict(es: seq<Entry>, p: Posix, c: Creds, o: Obj, x: Perm)
    requires Shape(es, p) && c.uid == o.owner
    ensures VerdictFrom(es, 0, c, o, x) == Allowed <==> x in p.owner
  {
    ShapeFinds(es, p);
    if x !in Union(es[1..]) {
      NotGrantedFrom(es, 1, c, o, x);
    }
  }

  lemma NamedVerdict(es: seq<Entry>, p: Posix, c: Creds, o: Obj, x: Perm)
    requires Shape(es, p) && Distinct(p.users) && c.uid != o.owner && UserPerms(p.users, c.uid).Some?
    ensures var u := UserPerms(p.users, c.uid).value;
      VerdictFrom(es, 0, c, o, x) == Allowed <==>
        x in u && (x in MaskOf(p) || GroupVerdict(GroupMatches(p, c, o), MaskOf(p), p.other, x) == Allowed)
  {
    assert p.users[0..] == p.users;
    UsersVerdict(es, p, 0, c, o, x);
    GroupClassVerdict(es, p, c, o, x);
    assert VerdictFrom(es, 0, c, o, x) == VerdictFrom(es, 1, c, o, x);
    if x !in UserPerms(p.users, c.uid).value && x !in Union(es[1 + |p.users|..]) {
      NotGrantedFrom(es, 1 + |p.users|, c, o, x);
    }
  }

  lemma UnnamedVerdict(es: seq<Entry>, p: Posix, c: Creds, o: Obj, x: Perm)
    requires Shape(es, p) && Distinct(p.users) && c.uid != o.owner && UserPerms(p.users, c.uid).None?
    ensures VerdictFrom(es, 0, c, o, x) == GroupVerdict(GroupMatches(p, c, o), MaskOf(p), p.other, x)
  {
    assert p.users[0..] == p.users;
    UsersVerdict(es, p, 0, c, o, x);
    GroupClassVerdict(es, p, c, o, x);
  }

  lemma NeededAll(c: Creds, o: Obj, v4mask: Mask)
    requires !c.root && v4mask <= ModeAcl.RWX + {CONTINUE}
    ensures Needed(c, o, v4mask) == v4mask - {CONTINUE}
  {}

  lemma WantedIs(v4mask: Mask)
    requires v4mask <= ModeAcl.RWX + {CONTINUE}
    ensures forall b :: b in v4mask - {CONTINUE} ==> PermOf(b) in Wanted(v4mask)
    ensures forall x :: x in Wanted(v4mask) ==> exists b :: b in v4mask - {CONTINUE} && PermOf(b) == x
  {
    forall x | x in Wanted(v4mask) ensures exists b :: b in v4mask - {CONTINUE} && PermOf(b) == x {
      var b := if x == R then READ_DATA else if x == X then EXECUTE
               else if WRITE_DATA in v4mask then WRITE_DATA else APPEND_DATA;
      assert b in v4mask - {CONTINUE} && PermOf(b) == x;
    }
  }

  /** What the converted ACL grants one perm to, class by class. */
  predicate PermGranted(p: Posix, c: Creds, o: Obj, x: Perm) {
    var user, ms, mask := UserPerms(p.users, c.uid), GroupMatches(p, c, o), MaskOf(p);
    if c.uid == o.owner then x in p.owner
    else if user.Some? then x in user.value && (x in mask || Slips(ms, mask, p.other, x))
    else if ms == [] then x in p.other
    else if x in mask then Reached(ms, p.other, x) else Slips(ms, mask, p.other, x)
  }

  lemma PermDecision(p: Posix, how: How, c: Creds, o: Obj, b: nat)
    requires Distinct(p.users) && b in ModeAcl.RWX && !c.root && !how.inherit
    ensures Decision(Converted(Entries(p), how), c, o, b) == Allowed <==> PermGranted(p, c, o, PermOf(b))
  {
    var es, x := Entries(p), PermOf(b);
    EntriesShape(p);
    ConvertedDecision(es, how, c, o, b);
    GroupVerdictClosed(GroupMatches(p, c, o), MaskOf(p), p.other, x);
    if c.uid == o.owner {
      OwnerVerdict(es, p, c, o, x);
    } else if UserPerms(p.users, c.uid).Some? {
      NamedVerdict(es, p, c, o, x);
    } else {
      UnnamedVerdict(es, p, c, o, x);
    }
  }

  function Wanted(v4mask: Mask): Perms {
    (if READ_DATA in v4mask then {R} else {})
    + (if WRITE_DATA in v4mask || APPEND_DATA in v4mask then {W} else {})
    + (if EXECUTE in v4mask then {X} else {})
  }

  predicate AllGranted(p: Posix, c: Creds, o: Obj, want: Perms) {
    forall x :: x in want ==> PermGranted(p, c, o, x)
  }

  lemma RequestGranted(p: Posix, how: How, c: Creds, o: Obj, v4mask: Mask)
    requires Distinct(p.users) && !c.root && !how.inherit && v4mask <= ModeAcl.RWX + {CONTINUE}
    ensures Granted(Converted(Entries(p), how), c, o, v4mask) <==> AllGranted(p, c, o, Wanted(v4mask))
  {
    NeededAll(c, o, v4mask);
    WantedIs(v4mask);
    forall b | b in v4mask - {CONTINUE}
      ensures Decision(Converted(Entries(p), how), c, o, b) == Allowed <==> PermGranted(p, c, o, PermOf(b))
    {
      PermDecision(p, how, c, o, b);
    }
  }

  lemma GroupRequest(ms: seq<Perms>, mask: Perms, other: Perms, want: Perms)
    requires ms != []
    ensures var granted :=
        forall x :: x in want ==> if x in mask then Reached(ms, other, x) else Slips(ms, mask, other, x);
      && (granted && !OneCovers(ms, mask, want) <==>
            PastTheMask(ms, mask, other, want) || SplitOverGroups(ms, mask, other, want))
      && (!granted && OneCovers(ms, mask, want) <==> HiddenByFirst(ms, mask, other, want))
  {
    if OneCovers(ms, mask, want) {
      var i :| 0 <= i < |ms| && want <= ms[i] * mask;
      assert forall x :: x in want ==> x in mask && x in ms[i];
    }
  }

  /** For any ACL that names no user twice, and so for any valid one, any caller but root and any request:
      the converted ACL grants what POSIX evaluation refuses in exactly two cases, and refuses what it
      grants in exactly one. */
  lemma AgreesIffFaithful(p: Posix, how: How, c: Creds, o: Obj, v4mask: Mask)
    requires Distinct(p.users) && !c.root && !how.inherit && v4mask <= ModeAcl.RWX + {CONTINUE}
    ensures var want, granted := Wanted(v4mask), Granted(Converted(Entries(p), how), c, o, v4mask);
      && (granted && !PosixGrants(p, c, o, want) <==> GrantsMore(p, c, o, want))
      && (!granted && PosixGrants(p, c, o, want) <==> GrantsLess(p, c, o, want))
      && ((granted <==> PosixGrants(p, c, o, want)) <==>
            !GrantsMore(p, c, o, want) && !GrantsLess(p, c, o, want))
  {
    var want, ms := Wanted(v4mask), GroupMatches(p, c, o);
    RequestGranted(p, how, c, o, v4mask);
    if ms != [] {
      GroupRequest(ms, MaskOf(p), p.other, want);
    }
  }

  lemma SameForOneGroup(p: Posix, c: Creds, o: Obj, want: Perms)
    requires c.uid == o.owner || (p.other <= MaskOf(p) && |GroupMatches(p, c, o)| <= 1)
    ensures !GrantsMore(p, c, o, want) && !GrantsLess(p, c, o, want)
  {
    var ms, mask := GroupMatches(p, c, o), MaskOf(p);
    if c.uid != o.owner {
      forall x ensures !Slips(ms, mask, p.other, x) {}
      if !(want <= mask) {
        var x :| x in want && x !in mask;
        assert x in want - mask && !Slips(ms, mask, p.other, x);
      } else if ms != [] && want <= ms[0] {
        assert want <= ms[0] * mask;
      } else if ms != [] {
        var x :| x in want && x !in ms[0];
        assert !Reached(ms, p.other, x);
      }
    }
  }

  /** For such an ACL whose mask cuts nothing that OTHER grants, and a caller but root who matches at
      most one group entry, the converted ACL gives POSIX ACL evaluation's answer to every request;
      for the owner it does with any mask and any groups. */
  lemma SameAsPosix(p: Posix, how: How, c: Creds, o: Obj, v4mask: Mask)
    requires Distinct(p.users) && !c.root && !how.inherit && v4mask <= ModeAcl.RWX + {CONTINUE}
    requires c.uid == o.owner || (p.other <= MaskOf(p) && |GroupMatches(p, c, o)| <= 1)
    ensures Granted(Converted(Entries(p), how), c, o, v4mask) <==> PosixGrants(p, c, o, Wanted(v4mask))
  {
    AgreesIffFaithful(p, how, c, o, v4mask);
    SameForOneGroup(p, c, o, Wanted(v4mask));
  }

  const STRANGER: Obj := Obj(1, 5, false, {})

  /** The mask cuts what OTHER grants: the group's members are let through as everyone. */
  lemma MaskSlips(how: How)
    requires !how.inherit
    ensures var p := Posix({}, [], {R}, [], Some({}), {R}); var c := Creds(2, 5, [], false);
      && Valid(p) && Granted(Converted(Entries(p), how), c, STRANGER, {READ_DATA})
      && !PosixGrants(p, c, STRANGER, {R})
  {
    var p, c := Posix({}, [], {R}, [], Some({}), {R}), Creds(2, 5, [], false);
    assert Wanted({READ_DATA}) == {R};
    assert GrantsMore(p, c, STRANGER, {R}) by {
      assert GroupMatches(p, c, STRANGER) == [{R}] && R in {R};
    }
    AgreesIffFaithful(p, how, c, STRANGER, {READ_DATA});
  }

  /** Two matching groups: the first denies what the second and OTHER grant. */
  lemma FirstGroupDenies(how: How)
    requires !how.inherit
    ensures var p := Posix({}, [], {}, [Qualified(7, {R})], Some({R, W, X}), {R}); var c := Creds(2, 5, [7], false);
      && Valid(p) && !Granted(Converted(Entries(p), how), c, STRANGER, {READ_DATA})
      && PosixGrants(p, c, STRANGER, {R})
  {
    var p, c := Posix({}, [], {}, [Qualified(7, {R})], Some({R, W, X}), {R}), Creds(2, 5, [7], false);
    assert Wanted({READ_DATA}) == {R};
    assert GrantsLess(p, c, STRANGER, {R}) by {
      assert 7 in c.groups && p.groups[1..] == [];
      var ms := GroupMatches(p, c, STRANGER);
      assert ms == [{}, {R}];
      assert {R} <= ms[1] * MaskOf(p) && R in {R} * p.other;
    }
    AgreesIffFaithful(p, how, c, STRANGER, {READ_DATA});
  }

  /** Two matching groups, one to read and one to write: each perm is let through by its own group,
      so a request for both is granted that no single entry grants. */
  lemma SplitIsGranted(how: How)
    requires !how.inherit
    ensures var p := Posix({}, [], {}, [Qualified(7, {R}), Qualified(8, {W})], Some({R, W, X}), {});
      var c := Creds(2, 9, [7, 8], false);
      && Valid(p) && Granted(Converted(Entries(p), how), c, STRANGER, {READ_DATA, WRITE_DATA})
      && !PosixGrants(p, c, STRANGER, {R, W})
  {
    var p := Posix({}, [], {}, [Qualified(7, {R}), Qualified(8, {W})], Some({R, W, X}), {});
    var c := Creds(2, 9, [7, 8], false);
    assert Wanted({READ_DATA, WRITE_DATA}) == {R, W};
    assert GrantsMore(p, c, STRANGER, {R, W}) by {
      assert 7 in c.groups && 8 in c.groups && 5 !in c.groups;
      assert p.groups[1..] == [Qualified(8, {W})] && p.groups[1..][1..] == [];
      var ms := GroupMatches(p, c, STRANGER);
      assert ms == [{R}, {W}];
      assert R in ms[0] && W in ms[1] && W !in ms[0] && R !in ms[1];
    }
    AgreesIffFaithful(p, how, c, STRANGER, {READ_DATA, WRITE_DATA});
  }
}
