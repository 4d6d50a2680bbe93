/** POSIX ACLs turned into NFSv4 ACLs (draft-ietf-nfsv4-acl-mapping-05), and whether the
    result means the same. */
module PosixAcl {
  import opened Bits
  import opened Acl
  import opened Options
  import ModeAcl

  datatype Perm = R | W | X
  type Perms = set<Perm>
  const ALL: Perms := {R, W, X}

  datatype Tag = UserObj | User | GroupObj | Group | MaskTag | Other
  datatype Entry = Entry(tag: Tag, id: nat, perms: Perms)

  const DEFAULT: Mask := {READ_ACL, READ_ATTR, SYNCHRONIZE}
  const OWNER_WRITE: Mask := {WRITE_ACL, WRITE_ATTR}
  const MASK_READ_DENY: nat := 8
  const MASK_WRITE_DENY: nat := 9
  const MASK_EXECUTE_DENY: nat := 10

  // ----- valid POSIX ACLs --------------------------------------------------------------------

  datatype Qualified = Qualified(id: nat, perms: Perms)

  /** The parts of a valid ACL. */
  datatype Posix = Posix(owner: Perms, users: seq<Qualified>, group: Perms, groups: seq<Qualified>,
                         mask: Option<Perms>, other: Perms)

  function Tagged(tag: Tag, qs: seq<Qualified>): seq<Entry> {
    seq(|qs|, i requires 0 <= i < |qs| => Entry(tag, qs[i].id, qs[i].perms))
  }

  function MaskEntries(p: Posix): seq<Entry> {
    if p.mask.Some? then [Entry(MaskTag, 0, p.mask.value)] else []
  }

  /** The ACL as libacl lists it. */
  function Entries(p: Posix): seq<Entry> {
    [Entry(UserObj, 0, p.owner)] + Tagged(User, p.users) + [Entry(GroupObj, 0, p.group)]
    + Tagged(Group, p.groups) + MaskEntries(p) + [Entry(Other, 0, p.other)]
  }

  ghost predicate Distinct(qs: seq<Qualified>) {
    forall i, j :: 0 <= i < j < |qs| ==> qs[i].id != qs[j].id
  }

  /** acl_valid of libacl: nobody is named twice, and named entries come with a mask. */
  ghost predicate Valid(p: Posix) {
    Distinct(p.users) && Distinct(p.groups) && (p.users != [] || p.groups != [] ==> p.mask.Some?)
  }

  /** What the mask lets through. */
  function MaskOf(p: Posix): Perms {
    if p.mask.Some? then p.mask.value else ALL
  }

  // ----- one entry ----------------------------------------------------------------------------

  predicate Special(tag: Tag) {
    tag != User && tag != Group
  }

  predicate Masked(tag: Tag) {
    tag == User || tag == Group || tag == GroupObj
  }

  function WhoOf(e: Entry): nat {
    match e.tag
    case UserObj => OWNER_AT
    case GroupObj => GROUP_AT
    case Other => EVERYONE_AT
    case MaskTag => MASK_AT
    case _ => e.id
  }

  function FlagOf(e: Entry, inherit: bool): Mask {
    (if inherit then ModeAcl.INHERIT else {}) + (if e.tag == Group then {GROUP_ID} else {})
  }

  function SpecialFlag(e: Entry): Mask {
    if Special(e.tag) then {SPECIAL_ID} else {}
  }

  /** The permissions that the perms of an entry stand for. */
  function PermBits(perms: Perms, tag: Tag, dir: bool): Mask {
    (if R in perms then {READ_DATA} else {})
    + (if W in perms
       then ModeAcl.WRITE_BITS + (if tag == UserObj then OWNER_WRITE else {})
            + (if dir then {DELETE_CHILD} else {})
       else {})
    + (if X in perms then {EXECUTE} else {})
  }

  /** What of its perms the mask leaves an entry. */
  function Through(e: Entry, mask: Perms): Perms {
    if e.tag == UserObj || e.tag == Other then e.perms else e.perms * mask
  }

  function MaskFlags(e: Entry, mask: Perms): Mask {
    var cut := if Masked(e.tag) then e.perms - mask else {};
    (if R in cut then {MASK_READ_DENY} else {}) + (if W in cut then {MASK_WRITE_DENY} else {})
    + (if X in cut then {MASK_EXECUTE_DENY} else {})
  }

  /** On a directory, DELETE_CHILD goes with write even where the mask does not let write
      through. */
  function AllowPerm(e: Entry, mask: Perms, dir: bool): Mask {
    DEFAULT + PermBits(Through(e, mask), e.tag, dir) + (if dir && W in e.perms then {DELETE_CHILD} else {})
  }

  function AllowAce(e: Entry, mask: Perms, dir: bool, inherit: bool): Ace {
    Ace(Allow, AllowPerm(e, mask, dir), FlagOf(e, inherit), SpecialFlag(e) + MaskFlags(e, mask), WhoOf(e))
  }

  function DenyAce(e: Entry, later: Perms, dir: bool, inherit: bool): Ace {
    Ace(Deny, PermBits(later - e.perms, e.tag, dir), FlagOf(e, inherit), SpecialFlag(e), WhoOf(e))
  }

  /** The ACEs for one entry: it is denied what it lacks and those it has to go before have. */
  function EntryAces(e: Entry, mask: Perms, later: Perms, dir: bool, inherit: bool): seq<Ace> {
    if later - e.perms == {} then [AllowAce(e, mask, dir, inherit)]
    else [DenyAce(e, later, dir, inherit), AllowAce(e, mask, dir, inherit)]
  }

  // ----- the whole list ------------------------------------------------------------------------

  /** All the perms that some entry but the mask has. */
  function Union(es: seq<Entry>): Perms {
    if |es| == 0 then {} else (if es[0].tag == MaskTag then {} else es[0].perms) + Union(es[1..])
  }

  /** The first entry with the tag, or the length. */
  function Find(es: seq<Entry>, tag: Tag): (i: nat)
    ensures i <= |es| && (i < |es| ==> es[i].tag == tag)
    ensures forall j :: 0 <= j < i ==> es[j].tag != tag
  {
    if |es| == 0 || es[0].tag == tag then 0
    else
      var i := Find(es[1..], tag) + 1;
      assert forall j :: 0 < j < i ==> es[j] == es[1..][j - 1];
      i
  }

  function PermsOr(es: seq<Entry>, tag: Tag, otherwise: Perms): Perms {
    if Find(es, tag) < |es| then es[Find(es, tag)].perms else otherwise
  }

  /** The perms an entry has to deny if it lacks them. */
  function Later(es: seq<Entry>, i: nat): Perms
    requires i < |es|
  {
    match es[i].tag
    case UserObj => Union(es[Find(es, UserObj) + 1..])
    case User => Union(es[Find(es, GroupObj)..])
    case GroupObj => PermsOr(es, Other, {})
    case Group => PermsOr(es, Other, {})
    case _ => {}
  }

  datatype How = How(dir: bool, inherit: bool, v4: bool)

  function AcesAt(es: seq<Entry>, i: nat, how: How): seq<Ace>
    requires i < |es|
  {
    if es[i].tag == MaskTag && how.v4 then []
    else EntryAces(es[i], PermsOr(es, MaskTag, ALL), Later(es, i), how.dir, how.inherit)
  }

  /** The ACEs of the first `n` entries. */
  function AcesUpTo(es: seq<Entry>, n: nat, how: How): seq<Ace>
    requires n <= |es|
  {
    if n == 0 then [] else AcesUpTo(es, n - 1, how) + AcesAt(es, n - 1, how)
  }

  function Converted(es: seq<Entry>, how: How): seq<Ace> {
    AcesUpTo(es, |es|, how)
  }

  // ----- posix_acl_2_fsal_acl -------------------------------------------------------------------

  /** find_entry, for a tag that has no qualifier. */
  method FindEntry(es: seq<Entry>, tag: Tag) returns (i: nat)
    ensures i == Find(es, tag)
  {
    i := 0;
    while i < |es|
      invariant i <= |es| && forall j :: 0 <= j < i ==> es[j].tag != tag
    {
      if es[i].tag == tag {
        break;
      }
      i := i + 1;
    }
  }

  lemma PermBitsUnion(a: Perms, b: Perms, tag: Tag, dir: bool)
    ensures PermBits(a + b, tag, dir) == PermBits(a, tag, dir) + PermBits(b, tag, dir)
  {}

  /** The DENY permissions gathered from one later entry. */
  method AddDeny(perm: Mask, perms: Perms, lacking: Perms, tag: Tag, dir: bool) returns (sum: Mask)
    ensures sum == perm + PermBits(perms * lacking, tag, dir)
  {
    sum := perm;
    if R in lacking && R in perms {
      sum := sum + {READ_DATA};
    }
    if W in lacking && W in perms {
      sum := sum + ModeAcl.WRITE_BITS;
      if tag == UserObj {
        sum := sum + OWNER_WRITE;
      }
      if dir {
        sum := sum + {DELETE_CHILD};
      }
    }
    if X in lacking && X in perms {
      sum := sum + {EXECUTE};
    }
  }

  /** The inner loop, from entry `from` on. */
  method DenyPerms(es: seq<Entry>, from: nat, lacking: Perms, tag: Tag, dir: bool) returns (perm: Mask)
    requires from <= |es|
    ensures perm == PermBits(Union(es[from..]) * lacking, tag, dir)
  {
    perm := {};
    ghost var seen: Perms := {};
    for i := from to |es|
      invariant seen + Union(es[i..]) == Union(es[from..])
      invariant perm == PermBits(seen * lacking, tag, dir)
    {
      assert es[i..][1..] == es[i + 1..];
      if es[i].tag != MaskTag {
        perm := AddDeny(perm, es[i].perms, lacking, tag, dir);
        PermBitsUnion(seen * lacking, es[i].perms * lacking, tag, dir);
        assert (seen + es[i].perms) * lacking == seen * lacking + es[i].perms * lacking;
        seen := seen + es[i].perms;
      }
    }
    assert es[|es|..] == [];
  }

  method FillAllowPerm(e: Entry, mask: Perms, dir: bool) returns (perm: Mask)
    ensures perm == AllowPerm(e, mask, dir)
  {
    perm := DEFAULT;
    if R in e.perms && (e.tag == UserObj || e.tag == Other || R in mask) {
      perm := perm + {READ_DATA};
    }
    if W in e.perms {
      if e.tag == UserObj || e.tag == Other || W in mask {
        perm := perm + ModeAcl.WRITE_BITS;
      }
      if e.tag == UserObj {
        perm := perm + OWNER_WRITE;
      }
      if dir {
        perm := perm + {DELETE_CHILD};
      }
    }
    if X in e.perms && (e.tag == UserObj || e.tag == Other || X in mask) {
      perm := perm + {EXECUTE};
    }
  }

  method FillMaskFlags(e: Entry, mask: Perms) returns (iflag: Mask)
    ensures iflag == SpecialFlag(e) + MaskFlags(e, mask)
  {
    iflag := SpecialFlag(e);
    if R in e.perms && Masked(e.tag) && R !in mask {
      iflag := iflag + {MASK_READ_DENY};
    }
    if W in e.perms && Masked(e.tag) && W !in mask {
      iflag := iflag + {MASK_WRITE_DENY};
    }
    if X in e.perms && Masked(e.tag) && X !in mask {
      iflag := iflag + {MASK_EXECUTE_DENY};
    }
  }

  lemma NoPermBits(perms: Perms, tag: Tag, dir: bool)
    ensures PermBits(perms, tag, dir) == {} <==> perms == {}
  {
    if R in perms { assert READ_DATA in PermBits(perms, tag, dir); }
    if W in perms { assert WRITE_DATA in PermBits(perms, tag, dir); }
    if X in perms { assert EXECUTE in PermBits(perms, tag, dir); }
    if perms != {} {
      var x :| x in perms;
      assert x == R || x == W || x == X;
    }
  }

  lemma Lacking(a: Perms, b: Perms)
    ensures a * (ALL - b) == a - b
  {
    forall x | x in a - b ensures x in ALL {
      match x
      case R =>
      case W =>
      case X =>
    }
  }

  /** The DENY permissions of one entry. */
  method FillDeny(es: seq<Entry>, i: nat, other: Perms, dir: bool) returns (perm: Mask)
    requires i < |es| && other == PermsOr(es, Other, {})
    requires es[i].tag == User ==> Find(es, GroupObj) < |es|
    ensures perm == PermBits(Later(es, i) - es[i].perms, es[i].tag, dir)
  {
    var e := es[i];
    var lacking := ALL - e.perms;
    Lacking(Later(es, i), e.perms);
    if e.tag == UserObj || e.tag == User {
      var from;
      if e.tag == UserObj {
        from := FindEntry(es, UserObj);
        from := from + 1;
      } else {
        from := FindEntry(es, GroupObj);
      }
      perm := DenyPerms(es, from, lacking, e.tag, dir);
    } else if e.tag == GroupObj || e.tag == Group {
      perm := AddDeny({}, other, lacking, e.tag, dir);
    } else {
      perm := {};
    }
  }

  /** The end of a turn: the pair is written, and the DENY ACE taken out if it denies nothing. */
  method PutPair(dst: array<Ace>, at: nat, deny: Ace, allow: Ace) returns (next: nat)
    requires at + 2 <= dst.Length
    requires forall k :: at <= k < dst.Length ==> dst[k] == ModeAcl.BLANK
    modifies dst
    ensures at < next <= at + 2
    ensures dst[..next] == old(dst[..at]) + if deny.perm == {} then [allow] else [deny, allow]
    ensures forall k :: next <= k < dst.Length ==> dst[k] == ModeAcl.BLANK
  {
    dst[at] := deny;
    dst[at + 1] := allow;
    if dst[at].perm == {} {
      dst[at] := dst[at + 1];
      dst[at + 1] := ModeAcl.BLANK;
      next := at + 1;
    } else {
      next := at + 2;
    }
  }

  /** An ACL that libacl calls valid. */
  ghost predicate ValidList(es: seq<Entry>) {
    exists p: Posix :: Valid(p) && es == Entries(p)
  }

  /** An ACL that the loops get through: there is one mask at most, GROUP_OBJ is there if a named user
      is, and the owner's entry is not the last but for the mask. Without the second the inner loop
      never ends, and without the third the outer one stops early. */
  ghost predicate Convertible(es: seq<Entry>) {
    && (forall i, j :: 0 <= i < j < |es| ==> !(es[i].tag == MaskTag && es[j].tag == MaskTag))
    && (forall i :: 0 <= i < |es| && es[i].tag == User ==> Find(es, GroupObj) < |es|)
    && (forall i :: 0 <= i < |es| && es[i].tag == UserObj ==>
          exists j :: Find(es, UserObj) < j < |es| && es[j].tag != MaskTag)
  }

  lemma ValidIsConvertible(es: seq<Entry>)
    requires ValidList(es)
    ensures Convertible(es)
  {
    var p :| Valid(p) && es == Entries(p);
    var g := 1 + |p.users|;
    assert es[g].tag == GroupObj && es[0].tag == UserObj;
    assert Find(es, UserObj) == 0 < g < |es|;
  }

  /** The loop over the entries. */
  method ConvertList(es: seq<Entry>, how: How, mask: Perms, other: Perms, dst: array<Ace>) returns (total: nat)
    requires mask == PermsOr(es, MaskTag, ALL) && other == PermsOr(es, Other, {})
    requires Convertible(es) && 2 * |es| <= dst.Length
    requires forall k :: 0 <= k < dst.Length ==> dst[k] == ModeAcl.BLANK
    modifies dst
    ensures total <= dst.Length && dst[..total] == Converted(es, how)
    ensures forall k :: total <= k < dst.Length ==> dst[k] == ModeAcl.BLANK
  {
    total := 0;
    for i := 0 to |es|
      invariant 0 <= total <= 2 * i && dst[..total] == AcesUpTo(es, i, how)
      invariant forall k :: total <= k < dst.Length ==> dst[k] == ModeAcl.BLANK
    {
      total := ConvertOne(es, i, how, mask, other, dst, total);
    }
  }

  method ConvertOne(es: seq<Entry>, i: nat, how: How, mask: Perms, other: Perms, dst: array<Ace>, at: nat)
    returns (next: nat)
    requires i < |es| && (es[i].tag == User ==> Find(es, GroupObj) < |es|)
    requires mask == PermsOr(es, MaskTag, ALL) && other == PermsOr(es, Other, {})
    requires at + 2 <= dst.Length
    requires forall k :: at <= k < dst.Length ==> dst[k] == ModeAcl.BLANK
    modifies dst
    ensures at <= next <= at + 2 && dst[..next] == old(dst[..at]) + AcesAt(es, i, how)
    ensures forall k :: next <= k < dst.Length ==> dst[k] == ModeAcl.BLANK
  {
    var e := es[i];
    if e.tag == MaskTag && how.v4 {
      return at;
    }
    var iflag := FillMaskFlags(e, mask);
    var grant := FillAllowPerm(e, mask, how.dir);
    var refuse := FillDeny(es, i, other, how.dir);
    NoPermBits(Later(es, i) - e.perms, e.tag, how.dir);
    var flag, who := FlagOf(e, how.inherit), WhoOf(e);
    next := PutPair(dst, at, Ace(Deny, refuse, flag, SpecialFlag(e), who), Ace(Allow, grant, flag, iflag, who));
  }

  /** posix_acl_2_fsal_acl, into a cleared list with room for two ACEs for each entry. */
  method Convert(acl: Option<seq<Entry>>, how: How, dst: array<Ace>) returns (total: int)
    requires acl.Some? ==> Convertible(acl.value) && 2 * |acl.value| <= dst.Length
    requires forall k :: 0 <= k < dst.Length ==> dst[k] == ModeAcl.BLANK
    modifies dst
    ensures acl.None? ==> total == -1 && dst[..] == old(dst[..])
    ensures acl.Some? ==> 0 <= total <= dst.Length && dst[..total] == Converted(acl.value, how)
    ensures acl.Some? ==> forall k :: total <= k < dst.Length ==> dst[k] == ModeAcl.BLANK
  {
    if acl.None? {
      return -1;
    }
    var es := acl.value;
    var mask, other := ALL, {};
    var at := FindEntry(es, MaskTag);
    if at < |es| {
      mask := es[at].perms;
    }
    at := FindEntry(es, Other);
    if at < |es| {
      other := es[at].perms;
    }
    total := ConvertList(es, how, mask, other, dst);
  }
}
