/** The rest of what an NFSv4 ACL made from a POSIX ACL says: the permissions that POSIX does not have, what
    new directories get, and that the entries can be read off the ACEs. */
module PosixRest {
  import opened Bits
  import opened Acl
  import opened InheritAcl
  import opened Options
  import opened PosixAcl
  import ModeAcl
  import PosixMeaning

  // ----- the ACEs, entry by entry ---------------------------------------------------------------------

  function Flat(parts: seq<seq<Ace>>): seq<Ace> {
    if |parts| == 0 then [] else Flat(parts[..|parts| - 1]) + parts[|parts| - 1]
  }

  /** The ACEs of each of the first `n` entries. */
  function Parts(es: seq<Entry>, n: nat, how: How): (parts: seq<seq<Ace>>)
    requires n <= |es|
    ensures |parts| == n && forall i :: 0 <= i < n ==> parts[i] == AcesAt(es, i, how)
  {
    seq(n, i requires 0 <= i < n => AcesAt(es, i, how))
  }

  lemma {:induction false} UpToIsFlat(es: seq<Entry>, n: nat, how: How)
    requires n <= |es|
    ensures AcesUpTo(es, n, how) == Flat(Parts(es, n, how))
  {
    if n != 0 {
      UpToIsFlat(es, n - 1, how);
      assert Parts(es, n, how)[..n - 1] == Parts(es, n - 1, how);
    }
  }

  /** If no part denies a bit and the last allows it, it is allowed. */
  lemma {:induction false} FlatNotDenied(parts: seq<seq<Ace>>, c: Creds, o: Obj, b: nat)
    requires forall i :: 0 <= i < |parts| ==> Decision(parts[i], c, o, b) != Denied
    ensures Decision(Flat(parts), c, o, b) != Denied
    ensures parts != [] && Decision(parts[|parts| - 1], c, o, b) == Allowed ==> Decision(Flat(parts), c, o, b) == Allowed
  {
    if |parts| != 0 {
      var head, last := parts[..|parts| - 1], parts[|parts| - 1];
      FlatNotDenied(head, c, o, b);
      DecisionConcat(Flat(head), last, c, o, b);
    }
  }

  /** If only the first part can decide a bit, it does. */
  lemma {:induction false} FlatFirst(parts: seq<seq<Ace>>, c: Creds, o: Obj, b: nat)
    requires parts != [] && forall i :: 0 < i < |parts| ==> Decision(parts[i], c, o, b) == Undecided
    ensures Decision(Flat(parts), c, o, b) == Decision(parts[0], c, o, b)
  {
    var head, last := parts[..|parts| - 1], parts[|parts| - 1];
    DecisionConcat(Flat(head), last, c, o, b);
    if |parts| > 1 {
      FlatFirst(head, c, o, b);
    } else {
      assert head == [] && [] + last == last;
    }
  }

  lemma {:induction false} FlatForChildren(parts: seq<seq<Ace>>, parts': seq<seq<Ace>>)
    requires |parts| == |parts'|
    requires forall i :: 0 <= i < |parts| ==> DirAces(parts[i]) == parts'[i] && FileAces(parts[i]) == []
    ensures DirAces(Flat(parts)) == Flat(parts') && FileAces(Flat(parts)) == []
  {
    if |parts| != 0 {
      var n := |parts| - 1;
      FlatForChildren(parts[..n], parts'[..n]);
      DirConcat(Flat(parts[..n]), parts[n]);
    }
  }

  lemma {:induction false} InFlat(parts: seq<seq<Ace>>, a: Ace)
    ensures a in Flat(parts) <==> exists i :: 0 <= i < |parts| && a in parts[i]
  {
    if |parts| != 0 {
      InFlat(parts[..|parts| - 1], a);
    }
  }

  // ----- permissions that everybody has --------------------------------------------------------------

  /** Reading the ACL and the attributes, and synchronizing. */
  predicate ForAll(b: nat) {
    b == READ_ACL || b == READ_ATTR || b == SYNCHRONIZE
  }

  lemma EntryNeverDenies(e: Entry, mask: Perms, later: Perms, dir: bool, c: Creds, o: Obj, b: nat)
    requires ForAll(b)
    ensures Decision(EntryAces(e, mask, later, dir, false), c, o, b) ==
            if Applicable(AllowAce(e, mask, dir, false), c, o) then Allowed else Undecided
  {
    var allow, deny := AllowAce(e, mask, dir, false), DenyAce(e, later, dir, false);
    ModeAcl.OneDecision(allow, c, o, b);
    ModeAcl.OneDecision(deny, c, o, b);
    DecisionConcat([deny], [allow], c, o, b);
    assert [deny, allow] == [deny] + [allow];
    assert b !in deny.perm && b in allow.perm;
  }

  lemma NeverDeniedAt(es: seq<Entry>, i: nat, how: How, c: Creds, o: Obj, b: nat)
    requires i < |es| && !how.inherit && ForAll(b)
    ensures Decision(AcesAt(es, i, how), c, o, b) != Denied
    ensures es[i].tag == Other ==> Decision(AcesAt(es, i, how), c, o, b) == Allowed
  {
    EntryNeverDenies(es[i], PermsOr(es, MaskTag, ALL), Later(es, i), how.dir, c, o, b);
    assert es[i].tag == Other ==> Applicable(AllowAce(es[i], PermsOr(es, MaskTag, ALL), how.dir, false), c, o);
  }

  /** Whatever the ACL, everybody, root too, may read it and the attributes, and synchronize. */
  lemma EverybodyMayLook(p: Posix, how: How, c: Creds, o: Obj, b: nat)
    requires !how.inherit && ForAll(b)
    ensures Decision(Converted(Entries(p), how), c, o, b) == Allowed
  {
    var es := Entries(p);
    var parts := Parts(es, |es|, how);
    UpToIsFlat(es, |es|, how);
    assert es[|es| - 1].tag == Other;
    forall i | 0 <= i < |es|
      ensures Decision(parts[i], c, o, b) != Denied
      ensures es[i].tag == Other ==> Decision(parts[i], c, o, b) == Allowed
    {
      NeverDeniedAt(es, i, how, c, o, b);
    }
    FlatNotDenied(parts, c, o, b);
  }

  // ----- permissions of the owner ---------------------------------------------------------------------

  predicate ForOwner(b: nat) {
    b == WRITE_ACL || b == WRITE_ATTR
  }

  lemma OthersHaveNone(e: Entry, mask: Perms, later: Perms, dir: bool, c: Creds, o: Obj, b: nat)
    requires ForOwner(b) && e.tag != UserObj
    ensures Decision(EntryAces(e, mask, later, dir, false), c, o, b) == Undecided
  {
    var allow, deny := AllowAce(e, mask, dir, false), DenyAce(e, later, dir, false);
    ModeAcl.OneDecision(allow, c, o, b);
    ModeAcl.OneDecision(deny, c, o, b);
    DecisionConcat([deny], [allow], c, o, b);
    assert [deny, allow] == [deny] + [allow];
    assert b !in deny.perm && b !in allow.perm;
  }

  lemma OthersHaveNoneAt(es: seq<Entry>, i: nat, how: How, c: Creds, o: Obj, b: nat)
    requires i < |es| && !how.inherit && ForOwner(b) && es[i].tag != UserObj
    ensures Decision(AcesAt(es, i, how), c, o, b) == Undecided
  {
    OthersHaveNone(es[i], PermsOr(es, MaskTag, ALL), Later(es, i), how.dir, c, o, b);
  }

  lemma OwnerHas(e: Entry, mask: Perms, later: Perms, dir: bool, c: Creds, o: Obj, b: nat)
    requires ForOwner(b) && e.tag == UserObj && !c.root
    ensures Decision(EntryAces(e, mask, later, dir, false), c, o, b) ==
            if c.uid != o.owner then Undecided else if W in e.perms then Allowed
            else if W in later then Denied else Undecided
  {
    var allow, deny := AllowAce(e, mask, dir, false), DenyAce(e, later, dir, false);
    ModeAcl.OneDecision(allow, c, o, b);
    ModeAcl.OneDecision(deny, c, o, b);
    DecisionConcat([deny], [allow], c, o, b);
    assert [deny, allow] == [deny] + [allow];
    assert b in allow.perm <==> W in e.perms;
    assert b in deny.perm <==> W in later - e.perms;
  }

  lemma OnlyTheOwners(es: seq<Entry>, how: How, c: Creds, o: Obj, b: nat)
    requires es != [] && !how.inherit && ForOwner(b) && forall i :: 0 < i < |es| ==> es[i].tag != UserObj
    ensures Decision(Converted(es, how), c, o, b) == Decision(AcesAt(es, 0, how), c, o, b)
  {
    var parts := Parts(es, |es|, how);
    UpToIsFlat(es, |es|, how);
    forall i | 0 < i < |es| ensures Decision(parts[i], c, o, b) == Undecided {
      OthersHaveNoneAt(es, i, how, c, o, b);
    }
    FlatFirst(parts, c, o, b);
  }

  /** Writing the ACL and the attributes is for the owner: allowed if the owner's entry has write, denied if it
      has not and another's has, and for nobody else decided at all. */
  lemma OwnersWrite(p: Posix, how: How, c: Creds, o: Obj, b: nat)
    requires !how.inherit && ForOwner(b) && !c.root
    ensures Decision(Converted(Entries(p), how), c, o, b) ==
            if c.uid != o.owner then Undecided else if W in p.owner then Allowed
            else if W in Union(Entries(p)[1..]) then Denied else Undecided
  {
    var es := Entries(p);
    assert forall i :: 0 < i < |es| ==> es[i].tag != UserObj;
    OnlyTheOwners(es, how, c, o, b);
    assert es[0] == Entry(UserObj, 0, p.owner);
    assert Find(es, UserObj) == 0 && Later(es, 0) == Union(es[1..]);
    OwnerHas(es[0], PermsOr(es, MaskTag, ALL), Later(es, 0), how.dir, c, o, b);
  }

  // ----- removing from a directory -------------------------------------------------------------------------

  /** The verdict of each entry on write, with no mask. */
  function Unmasked(es: seq<Entry>, c: Creds, o: Obj): (vs: seq<Verdict>)
    ensures |vs| == |es|
    ensures forall i :: 0 <= i < |es| ==> vs[i] == PosixMeaning.EntryVerdict(es[i], ALL, Later(es, i), c, o, W)
  {
    seq(|es|, i requires 0 <= i < |es| => PosixMeaning.EntryVerdict(es[i], ALL, Later(es, i), c, o, W))
  }

  /** The first verdict that is one. */
  function FirstOf(vs: seq<Verdict>): Verdict {
    if |vs| == 0 then Undecided else PosixMeaning.OrElse(FirstOf(vs[..|vs| - 1]), vs[|vs| - 1])
  }

  lemma {:induction false} FlatVerdict(parts: seq<seq<Ace>>, vs: seq<Verdict>, c: Creds, o: Obj, b: nat)
    requires |parts| == |vs| && forall i :: 0 <= i < |vs| ==> Decision(parts[i], c, o, b) == vs[i]
    ensures Decision(Flat(parts), c, o, b) == FirstOf(vs)
  {
    if |vs| != 0 {
      var n := |vs| - 1;
      FlatVerdict(parts[..n], vs[..n], c, o, b);
      DecisionConcat(Flat(parts[..n]), parts[n], c, o, b);
    }
  }

  lemma EntryDeletes(e: Entry, mask: Perms, later: Perms, dir: bool, c: Creds, o: Obj)
    requires !c.root
    ensures Decision(EntryAces(e, mask, later, dir, false), c, o, DELETE_CHILD) ==
            if dir then PosixMeaning.EntryVerdict(e, ALL, later, c, o, W) else Undecided
  {
    var allow, deny := AllowAce(e, mask, dir, false), DenyAce(e, later, dir, false);
    PosixMeaning.EntryApplies(e, mask, later, dir, c, o);
    ModeAcl.OneDecision(allow, c, o, DELETE_CHILD);
    ModeAcl.OneDecision(deny, c, o, DELETE_CHILD);
    DecisionConcat([deny], [allow], c, o, DELETE_CHILD);
    assert [deny, allow] == [deny] + [allow];
    assert DELETE_CHILD in allow.perm <==> dir && W in e.perms;
    assert DELETE_CHILD in deny.perm <==> dir && W in later - e.perms;
  }

  lemma DeletesAt(es: seq<Entry>, i: nat, how: How, c: Creds, o: Obj)
    requires i < |es| && !how.inherit && how.dir && !c.root
    ensures Decision(AcesAt(es, i, how), c, o, DELETE_CHILD) ==
            PosixMeaning.EntryVerdict(es[i], ALL, Later(es, i), c, o, W)
  {
    EntryDeletes(es[i], PermsOr(es, MaskTag, ALL), Later(es, i), how.dir, c, o);
  }

  /** On a directory, removing entries is decided as writing would be without the mask. */
  lemma DeleteChildIsUnmaskedWrite(es: seq<Entry>, how: How, c: Creds, o: Obj)
    requires !how.inherit && how.dir && !c.root
    ensures Decision(Converted(es, how), c, o, DELETE_CHILD) == FirstOf(Unmasked(es, c, o))
  {
    var parts := Parts(es, |es|, how);
    UpToIsFlat(es, |es|, how);
    forall i | 0 <= i < |es| ensures Decision(parts[i], c, o, DELETE_CHILD) == Unmasked(es, c, o)[i] {
      DeletesAt(es, i, how, c, o);
    }
    FlatVerdict(parts, Unmasked(es, c, o), c, o, DELETE_CHILD);
  }

  // ----- an ACL to be inherited -----------------------------------------------------------------------------

  lemma EntryForChildren(e: Entry, mask: Perms, later: Perms, dir: bool)
    ensures DirAces(EntryAces(e, mask, later, dir, true)) == EntryAces(e, mask, later, dir, false)
    ensures FileAces(EntryAces(e, mask, later, dir, true)) == []
  {
    var allow, deny := AllowAce(e, mask, dir, true), DenyAce(e, later, dir, true);
    assert [allow][1..] == [] && [deny][1..] == [] && [deny, allow] == [deny] + [allow];
    DirConcat([deny], [allow]);
    assert Clean(allow).flag == FlagOf(e, false) && Clean(deny).flag == FlagOf(e, false);
    assert Clean(allow) == AllowAce(e, mask, dir, false) && Clean(deny) == DenyAce(e, later, dir, false);
    assert FILE_INHERIT in allow.flag && INHERIT_ONLY in allow.flag && NO_PROPAGATE !in allow.flag;
  }

  lemma ForChildrenAt(es: seq<Entry>, i: nat, dir: bool, v4: bool)
    requires i < |es|
    ensures DirAces(AcesAt(es, i, How(dir, true, v4))) == AcesAt(es, i, How(dir, false, v4))
    ensures FileAces(AcesAt(es, i, How(dir, true, v4))) == []
  {
    EntryForChildren(es[i], PermsOr(es, MaskTag, ALL), Later(es, i), dir);
  }

  /** A default ACL, converted to be inherited, gives a new directory exactly what it says converted as it is,
      and a new file nothing. */
  lemma DefaultAclInherited(es: seq<Entry>, dir: bool, v4: bool)
    ensures DirAces(Converted(es, How(dir, true, v4))) == Converted(es, How(dir, false, v4))
    ensures FileAces(Converted(es, How(dir, true, v4))) == []
  {
    var n, i, j := |es|, How(dir, true, v4), How(dir, false, v4);
    UpToIsFlat(es, n, i);
    UpToIsFlat(es, n, j);
    forall k | 0 <= k < n
      ensures DirAces(Parts(es, n, i)[k]) == Parts(es, n, j)[k] && FileAces(Parts(es, n, i)[k]) == []
    {
      ForChildrenAt(es, k, dir, v4);
    }
    FlatForChildren(Parts(es, n, i), Parts(es, n, j));
  }

  // ----- the entries in the ACEs ------------------------------------------------------------------------------

  /** The ACE for an entry still says which perms the entry has: those it allows, and those that a flag says
      the mask took. */
  lemma EntryInAce(e: Entry, mask: Perms, dir: bool, inherit: bool)
    requires e.tag == MaskTag ==> e.perms <= mask
    ensures var a := AllowAce(e, mask, dir, inherit);
      && (R in e.perms <==> READ_DATA in a.perm || 8 in a.iflag)
      && (W in e.perms <==> WRITE_DATA in a.perm || 9 in a.iflag)
      && (X in e.perms <==> EXECUTE in a.perm || 10 in a.iflag)
  {
    var through, flags := Through(e, mask), MaskFlags(e, mask);
    var cut := if Masked(e.tag) then e.perms - mask else {};
    assert through + cut == e.perms;
    PosixMeaning.PermBitsHas(through, e.tag, dir, READ_DATA);
    PosixMeaning.PermBitsHas(through, e.tag, dir, WRITE_DATA);
    PosixMeaning.PermBitsHas(through, e.tag, dir, EXECUTE);
    assert (8 in flags <==> R in cut) && (9 in flags <==> W in cut) && (10 in flags <==> X in cut);
  }

  predicate IsMaskAce(a: Ace) {
    a.who == MASK_AT && SPECIAL_ID in a.iflag
  }

  ghost predicate HasMaskAce(aces: seq<Ace>) {
    exists a :: a in aces && IsMaskAce(a)
  }

  /** The ACE of the mask is there for NFSv3 only. */
  lemma MaskAceIff(es: seq<Entry>, how: How)
    ensures HasMaskAce(Converted(es, how)) <==> !how.v4 && exists i :: 0 <= i < |es| && es[i].tag == MaskTag
  {
    var parts := Parts(es, |es|, how);
    UpToIsFlat(es, |es|, how);
    if HasMaskAce(Flat(parts)) {
      var a :| a in Flat(parts) && IsMaskAce(a);
      InFlat(parts, a);
      var i :| 0 <= i < |es| && a in parts[i];
      MaskAceAt(es, i, how);
    }
    if i :| 0 <= i < |es| && es[i].tag == MaskTag {
      MaskAceAt(es, i, how);
      if !how.v4 {
        var a :| a in parts[i] && IsMaskAce(a);
        InFlat(parts, a);
      }
    }
  }

  lemma MaskAceAt(es: seq<Entry>, i: nat, how: How)
    requires i < |es|
    ensures HasMaskAce(AcesAt(es, i, how)) <==> !how.v4 && es[i].tag == MaskTag
  {
    var e := es[i];
    var mask, later := PermsOr(es, MaskTag, ALL), Later(es, i);
    var allow, deny := AllowAce(e, mask, how.dir, how.inherit), DenyAce(e, later, how.dir, how.inherit);
    assert SPECIAL_ID in allow.iflag <==> Special(e.tag);
    assert SPECIAL_ID in deny.iflag <==> Special(e.tag);
    if e.tag == MaskTag && !how.v4 {
      assert allow in AcesAt(es, i, how) && IsMaskAce(allow);
    }
  }
}
