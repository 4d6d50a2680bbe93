/** NFSv4 access control lists: how a list of ACEs answers an access request
    (section 6.2.1 of RFC 7530), and how plain mode bits do. */
module Acl {
  import opened Bits
  import opened Options

  // Bit numbers of the permission masks, the ACE flags and the internal flags.

  const READ_DATA: nat := 0
  const WRITE_DATA: nat := 1
  const APPEND_DATA: nat := 2
  const EXECUTE: nat := 5
  const DELETE_CHILD: nat := 6
  const READ_ATTR: nat := 7
  const WRITE_ATTR: nat := 8
  const DELETE: nat := 16
  const READ_ACL: nat := 17
  const WRITE_ACL: nat := 18
  const WRITE_OWNER: nat := 19
  const SYNCHRONIZE: nat := 20
  const REQUIRED: nat := 28
  const CONTINUE: nat := 30

  const X_OK: nat := 24
  const W_OK: nat := 25
  const R_OK: nat := 26

  const FILE_INHERIT: nat := 0
  const DIR_INHERIT: nat := 1
  const NO_PROPAGATE: nat := 2
  const INHERIT_ONLY: nat := 3
  const GROUP_ID: nat := 6

  const MODE_GEN: nat := 28
  const EXCLUDE_DIRS: nat := 29
  const EXCLUDE_FILES: nat := 30
  const SPECIAL_ID: nat := 31

  const OWNER_AT: nat := 1
  const GROUP_AT: nat := 2
  const EVERYONE_AT: nat := 3
  const MASK_AT: nat := 4

  datatype AceType = Allow | Deny | Audit | Alarm

  datatype Ace = Ace(kind: AceType, perm: Mask, flag: Mask, iflag: Mask, who: nat)

  /** The caller; `root` is what the export's is_superuser says. */
  datatype Creds = Creds(uid: nat, gid: nat, groups: seq<nat>, root: bool)

  datatype Obj = Obj(owner: nat, group: nat, dir: bool, mode: Mask)

  datatype Status = NoError | Access | Perm | NoAce

  /** What the owner may always do, and what is refused with EPERM instead of EACCES. */
  const OWNER_IMPLICIT: Mask := {READ_ACL, WRITE_ACL, READ_ATTR, WRITE_ATTR}
  const PERM_BITS: Mask := {WRITE_ATTR, WRITE_ACL, WRITE_OWNER}

  // ----- which ACEs count -----------------------------------------------------------------

  predicate InGroup(c: Creds, gid: nat) {
    c.gid == gid || gid in c.groups
  }

  /** fsal_check_ace_group. */
  method FindGroup(c: Creds, gid: nat) returns (found: bool)
    ensures found <==> InGroup(c, gid)
  {
    if c.gid == gid {
      return true;
    }
    for i := 0 to |c.groups|
      invariant gid !in c.groups[..i]
    {
      if c.groups[i] == gid {
        return true;
      }
    }
    return false;
  }

  /** fsal_check_ace_matches. */
  predicate Matches(a: Ace, c: Creds, o: Obj) {
    if SPECIAL_ID in a.iflag then
      || (a.who == OWNER_AT && c.uid == o.owner)
      || (a.who == GROUP_AT && InGroup(c, o.group))
      || a.who == EVERYONE_AT
    else if GROUP_ID in a.flag then InGroup(c, a.who)
    else c.uid == a.who
  }

  /** Not inherit-only, and meant for this type of object. */
  predicate Effective(a: Ace, o: Obj) {
    INHERIT_ONLY !in a.flag && (if o.dir then EXCLUDE_DIRS else EXCLUDE_FILES) !in a.iflag
  }

  /** fsal_check_ace_applicable. */
  predicate Applicable(a: Ace, c: Creds, o: Obj) {
    Effective(a, o) && (c.root || Matches(a, c, o))
  }

  /** Whether the ACE settles bit `b`; nothing is denied to root. */
  predicate Decides(a: Ace, c: Creds, o: Obj, b: nat) {
    b in a.perm && Applicable(a, c, o) && (a.kind.Allow? || (a.kind.Deny? && !c.root))
  }

  // ----- the meaning of an ACL --------------------------------------------------------------

  datatype Verdict = Undecided | Allowed | Denied

  function Settled(a: Ace): Verdict {
    if a.kind.Allow? then Allowed else Denied
  }

  /** What the first ACE that settles the bit says. */
  function Decision(aces: seq<Ace>, c: Creds, o: Obj, b: nat): Verdict {
    if |aces| == 0 then Undecided
    else if Decides(aces[0], c, o, b) then Settled(aces[0])
    else Decision(aces[1..], c, o, b)
  }

  ghost predicate FirstDecider(aces: seq<Ace>, c: Creds, o: Obj, b: nat, i: nat) {
    && i < |aces| && Decides(aces[i], c, o, b)
    && forall j :: 0 <= j < i ==> !Decides(aces[j], c, o, b)
  }

  /** The decision is the kind of the first ACE that settles the bit, and there is no decision
      only if no ACE does. */
  lemma {:induction false} DecisionIsFirstDecider(aces: seq<Ace>, c: Creds, o: Obj, b: nat)
    ensures Decision(aces, c, o, b) == Undecided <==>
            forall i :: 0 <= i < |aces| ==> !Decides(aces[i], c, o, b)
    ensures forall i: nat :: FirstDecider(aces, c, o, b, i) ==> Decision(aces, c, o, b) == Settled(aces[i])
  {
    if |aces| != 0 && !Decides(aces[0], c, o, b) {
      var rest := aces[1..];
      DecisionIsFirstDecider(rest, c, o, b);
      assert forall i :: 0 <= i < |rest| ==> rest[i] == aces[i + 1];
      forall i: nat | FirstDecider(aces, c, o, b, i)
        ensures Decision(aces, c, o, b) == Settled(aces[i])
      {
        assert FirstDecider(rest, c, o, b, i - 1);
      }
      if forall i :: 0 <= i < |rest| ==> !Decides(rest[i], c, o, b) {
        forall i | 0 <= i < |aces| ensures !Decides(aces[i], c, o, b) {
          assert i > 0 ==> aces[i] == rest[i - 1];
        }
      }
    }
  }

  lemma {:induction false} DecisionConcat(s: seq<Ace>, t: seq<Ace>, c: Creds, o: Obj, b: nat)
    ensures Decision(s + t, c, o, b) ==
            if Decision(s, c, o, b) != Undecided then Decision(s, c, o, b) else Decision(t, c, o, b)
  {
    if |s| == 0 {
      assert s + t == t;
    } else {
      assert (s + t)[1..] == s[1..] + t;
      DecisionConcat(s[1..], t, c, o, b);
    }
  }

  lemma DecisionNext(aces: seq<Ace>, i: nat, c: Creds, o: Obj, b: nat)
    requires i < |aces|
    ensures Decision(aces[..i + 1], c, o, b) ==
            if Decision(aces[..i], c, o, b) != Undecided then Decision(aces[..i], c, o, b)
            else if Decides(aces[i], c, o, b) then Settled(aces[i]) else Undecided
  {
    assert aces[..i + 1] == aces[..i] + [aces[i]];
    DecisionConcat(aces[..i], [aces[i]], c, o, b);
  }

  lemma DecisionOfPrefix(aces: seq<Ace>, i: nat, c: Creds, o: Obj, b: nat)
    requires i <= |aces| && Decision(aces[..i], c, o, b) != Undecided
    ensures Decision(aces, c, o, b) == Decision(aces[..i], c, o, b)
  {
    assert aces == aces[..i] + aces[i..];
    DecisionConcat(aces[..i], aces[i..], c, o, b);
  }

  /** The requested bits that the ACL has to grant: not what the owner or root may do anyway. */
  function Needed(c: Creds, o: Obj, v4mask: Mask): Mask {
    var asked := v4mask - {CONTINUE};
    var beyondRoot := if !c.root then asked else if o.dir then {} else asked * {EXECUTE};
    if c.uid == o.owner then beyondRoot - OWNER_IMPLICIT else beyondRoot
  }

  ghost predicate Granted(aces: seq<Ace>, c: Creds, o: Obj, v4mask: Mask) {
    forall b :: b in Needed(c, o, v4mask) ==> Decision(aces, c, o, b) == Allowed
  }

  /** The first ACE that settles the bit is an ALLOW. */
  ghost predicate FirstAllows(aces: seq<Ace>, c: Creds, o: Obj, b: nat) {
    exists i: nat :: FirstDecider(aces, c, o, b, i) && aces[i].kind.Allow?
  }

  lemma {:induction false} FirstAllowsIff(aces: seq<Ace>, c: Creds, o: Obj, b: nat)
    ensures Decision(aces, c, o, b) == Allowed <==> FirstAllows(aces, c, o, b)
  {
    DecisionIsFirstDecider(aces, c, o, b);
    if Decision(aces, c, o, b) == Allowed {
      var i :| 0 <= i < |aces| && Decides(aces[i], c, o, b);
      var j := FirstUpTo(aces, c, o, b, i);
    }
  }

  lemma {:induction false} FirstUpTo(aces: seq<Ace>, c: Creds, o: Obj, b: nat, i: nat) returns (j: nat)
    requires i < |aces| && Decides(aces[i], c, o, b)
    ensures FirstDecider(aces, c, o, b, j)
  {
    if k :| 0 <= k < i && Decides(aces[k], c, o, b) {
      j := FirstUpTo(aces, c, o, b, k);
    } else {
      j := i;
    }
  }

  /** What the owner may do to its own file whatever the ACL says. */
  predicate OwnersOwn(b: nat) {
    b == READ_ACL || b == WRITE_ACL || b == READ_ATTR || b == WRITE_ATTR
  }

  ghost predicate SomeoneMayExecute(aces: seq<Ace>, o: Obj) {
    exists i :: 0 <= i < |aces| && aces[i].kind.Allow? && EXECUTE in aces[i].perm && Effective(aces[i], o)
  }

  /** A caller is granted every bit that an ACE allows first, and what the owner may always do if it is the
      owner. Root is refused one thing: to execute a file that no ACE lets anybody execute. */
  ghost predicate PlainlyGranted(aces: seq<Ace>, c: Creds, o: Obj, v4mask: Mask) {
    if c.root then o.dir || EXECUTE !in v4mask || SomeoneMayExecute(aces, o)
    else forall b :: b in v4mask && b != CONTINUE ==>
           FirstAllows(aces, c, o, b) || (c.uid == o.owner && OwnersOwn(b))
  }

  lemma GrantedIff(aces: seq<Ace>, c: Creds, o: Obj, v4mask: Mask)
    ensures Granted(aces, c, o, v4mask) <==> PlainlyGranted(aces, c, o, v4mask)
  {
    if c.root {
      RootGrantedIff(aces, c, o, v4mask);
    } else {
      forall b: nat ensures Decision(aces, c, o, b) == Allowed <==> FirstAllows(aces, c, o, b) {
        FirstAllowsIff(aces, c, o, b);
      }
    }
  }

  lemma RootGrantedIff(aces: seq<Ace>, c: Creds, o: Obj, v4mask: Mask)
    requires c.root
    ensures Granted(aces, c, o, v4mask) <==> PlainlyGranted(aces, c, o, v4mask)
  {
    DecisionIsFirstDecider(aces, c, o, EXECUTE);
    if Decision(aces, c, o, EXECUTE) != Undecided {
      var i :| 0 <= i < |aces| && Decides(aces[i], c, o, EXECUTE);
      var j := FirstUpTo(aces, c, o, EXECUTE, i);
      assert aces[j].kind.Allow?;
    }
  }

  // ----- fsal_check_access_acl ----------------------------------------------------------------

  /** One bit's place in the loop's three masks. */
  predicate BitOk(v: Verdict, missing: bool, allowed: bool, denied: bool) {
    missing == v.Undecided? && allowed == v.Allowed? && (v.Denied? ==> denied) && (denied ==> !v.Undecided?)
  }

  ghost predicate Looked(pre: seq<Ace>, c: Creds, o: Obj, need: Mask,
                         missing: Mask, allowed: Mask, denied: Mask) {
    && missing <= need
    && (forall b :: b in need ==>
          BitOk(Decision(pre, c, o, b), b in missing, b in allowed, b in denied))
    && (denied != {} ==> exists b :: b in need && Decision(pre, c, o, b) == Denied)
  }

  /** A DENY ACE that settles the bit. */
  predicate DeniesBit(a: Ace, c: Creds, o: Obj, b: nat) {
    a.kind.Deny? && Decides(a, c, o, b)
  }

  ghost predicate DenialsReal(aces: seq<Ace>, c: Creds, o: Obj, denied: Mask) {
    forall b :: b in denied ==> exists i :: 0 <= i < |aces| && DeniesBit(aces[i], c, o, b)
  }

  lemma LookAllow(aces: seq<Ace>, i: nat, c: Creds, o: Obj, v4mask: Mask, need: Mask,
                  missing: Mask, allowed: Mask, denied: Mask)
    requires i < |aces| && aces[i].kind.Allow? && Applicable(aces[i], c, o) && need <= v4mask
    requires Looked(aces[..i], c, o, need, missing, allowed, denied)
    ensures var tperm := aces[i].perm - denied;
      Looked(aces[..i + 1], c, o, need, missing - tperm, allowed + v4mask * tperm, denied)
  {
    var tperm := aces[i].perm - denied;
    forall b | b in need
      ensures BitOk(Decision(aces[..i + 1], c, o, b), b in missing - tperm, b in allowed + v4mask * tperm,
                    b in denied)
      ensures Decision(aces[..i], c, o, b) == Denied ==> Decision(aces[..i + 1], c, o, b) == Denied
    {
      DecisionNext(aces, i, c, o, b);
    }
  }

  lemma LookDeny(aces: seq<Ace>, i: nat, c: Creds, o: Obj, v4mask: Mask, need: Mask,
                 missing: Mask, allowed: Mask, denied: Mask)
    requires i < |aces| && aces[i].kind.Deny? && Applicable(aces[i], c, o) && !c.root && need <= v4mask
    requires Looked(aces[..i], c, o, need, missing, allowed, denied)
    requires aces[i].perm * missing != {}
    ensures Looked(aces[..i + 1], c, o, need, missing - aces[i].perm, allowed, denied + v4mask * aces[i].perm)
    ensures exists b :: b in need && Decision(aces[..i + 1], c, o, b) == Denied
  {
    var perm := aces[i].perm;
    forall b | b in need
      ensures BitOk(Decision(aces[..i + 1], c, o, b), b in missing - perm, b in allowed,
                    b in denied + v4mask * perm)
    {
      DecisionNext(aces, i, c, o, b);
    }
    var b :| b in perm * missing;
    DecisionNext(aces, i, c, o, b);
    assert b in need && Decision(aces[..i + 1], c, o, b) == Denied;
  }

  lemma LookPast(aces: seq<Ace>, i: nat, c: Creds, o: Obj, need: Mask,
                 missing: Mask, allowed: Mask, denied: Mask)
    requires i < |aces| && Looked(aces[..i], c, o, need, missing, allowed, denied)
    requires forall b :: b in missing ==> !Decides(aces[i], c, o, b)
    ensures Looked(aces[..i + 1], c, o, need, missing, allowed, denied)
  {
    forall b | b in need
      ensures Decision(aces[..i + 1], c, o, b) == Decision(aces[..i], c, o, b)
    {
      DecisionNext(aces, i, c, o, b);
    }
  }

  /** When no bit is missing any more the rest of the list does not matter. */
  lemma LookEnough(aces: seq<Ace>, i: nat, c: Creds, o: Obj, need: Mask, allowed: Mask, denied: Mask)
    requires i <= |aces| && Looked(aces[..i], c, o, need, {}, allowed, denied)
    ensures Looked(aces, c, o, need, {}, allowed, denied)
  {
    forall b | b in need ensures Decision(aces, c, o, b) == Decision(aces[..i], c, o, b) {
      assert BitOk(Decision(aces[..i], c, o, b), false, b in allowed, b in denied);
      DecisionOfPrefix(aces, i, c, o, b);
    }
  }

  /** The first DENY ACE that touches a bit still undecided, when it ends the evaluation. */
  ghost predicate Refuses(aces: seq<Ace>, c: Creds, o: Obj, need: Mask, i: nat) {
    && i < |aces| && Stops(aces, c, o, need, i)
    && forall j :: 0 <= j < i ==> !Stops(aces, c, o, need, j)
  }

  ghost predicate Stops(aces: seq<Ace>, c: Creds, o: Obj, need: Mask, i: nat)
    requires i < |aces|
  {
    exists b :: Strikes(aces, c, o, need, i, b)
  }

  predicate Strikes(aces: seq<Ace>, c: Creds, o: Obj, need: Mask, i: nat, b: nat)
    requires i < |aces|
  {
    b in need && DeniesBit(aces[i], c, o, b) && Decision(aces[..i], c, o, b) == Undecided
  }

  /** To be refused one of these is EPERM. */
  predicate AnswersPerm(b: nat) {
    b == WRITE_ATTR || b == WRITE_ACL || b == WRITE_OWNER
  }

  ghost predicate StrikesPermBit(aces: seq<Ace>, c: Creds, o: Obj, need: Mask, i: nat)
    requires i < |aces|
  {
    exists b :: AnswersPerm(b) && Strikes(aces, c, o, need, i, b)
  }

  /** Evaluation ends at the first denial. */
  predicate Halting(v4mask: Mask, wantDenied: bool) {
    !wantDenied || CONTINUE !in v4mask
  }

  /** How the loop ended at ACE `at`, having given up. */
  ghost predicate Refused(aces: seq<Ace>, c: Creds, o: Obj, v4mask: Mask, need: Mask, wantDenied: bool,
                          at: nat, st: Status, allowed: Mask, denied: Mask) {
    && Halting(v4mask, wantDenied)
    && Refuses(aces, c, o, need, at)
    && st == (if StrikesPermBit(aces, c, o, need, at) then Perm else Access)
    && denied == (if wantDenied then v4mask * aces[at].perm else {})
    && forall b :: b in need && b in allowed ==> Decision(aces, c, o, b) == Allowed
  }

  /** The state of the loop at ACE `i`, when denials end it. */
  ghost predicate NoneStops(aces: seq<Ace>, c: Creds, o: Obj, need: Mask, i: nat)
    requires i <= |aces|
  {
    forall j :: 0 <= j < i ==> !Stops(aces, c, o, need, j)
  }

  /** With nothing denied so far, the ACE stops the evaluation iff it denies a missing bit. */
  lemma StopsIff(aces: seq<Ace>, i: nat, c: Creds, o: Obj, need: Mask,
                 missing: Mask, allowed: Mask, denied: Mask)
    requires i < |aces| && Looked(aces[..i], c, o, need, missing, allowed, denied)
    ensures Stops(aces, c, o, need, i) <==>
            aces[i].kind.Deny? && Applicable(aces[i], c, o) && !c.root && aces[i].perm * missing != {}
    ensures aces[i].kind.Deny? && Applicable(aces[i], c, o) && !c.root ==>
            (StrikesPermBit(aces, c, o, need, i) <==> aces[i].perm * missing * PERM_BITS != {})
  {
    forall b ensures Strikes(aces, c, o, need, i, b) <==> b in missing && DeniesBit(aces[i], c, o, b) {
      if b in need {
        assert BitOk(Decision(aces[..i], c, o, b), b in missing, b in allowed, b in denied);
      }
    }
    if Stops(aces, c, o, need, i) {
      var b :| Strikes(aces, c, o, need, i, b);
      assert b in aces[i].perm * missing;
    }
    if StrikesPermBit(aces, c, o, need, i) {
      var b :| AnswersPerm(b) && Strikes(aces, c, o, need, i, b);
      assert b in aces[i].perm * missing * PERM_BITS;
    }
    if aces[i].perm * missing != {} {
      var b :| b in aces[i].perm * missing;
      assert Strikes(aces, c, o, need, i, b) <==> DeniesBit(aces[i], c, o, b);
    }
    if aces[i].perm * missing * PERM_BITS != {} {
      var b :| b in aces[i].perm * missing * PERM_BITS;
      assert Strikes(aces, c, o, need, i, b) <==> DeniesBit(aces[i], c, o, b);
    }
  }

  lemma AllowedSoFar(aces: seq<Ace>, i: nat, c: Creds, o: Obj, need: Mask,
                     missing: Mask, allowed: Mask, denied: Mask)
    requires i <= |aces| && Looked(aces[..i], c, o, need, missing, allowed, denied)
    ensures forall b :: b in need && b in allowed ==> Decision(aces, c, o, b) == Allowed
  {
    forall b | b in need && b in allowed ensures Decision(aces, c, o, b) == Allowed {
      assert BitOk(Decision(aces[..i], c, o, b), b in missing, true, b in denied);
      DecisionOfPrefix(aces, i, c, o, b);
    }
  }

  /** Once every bit is decided no later ACE can stop the evaluation. */
  lemma NoneLeft(aces: seq<Ace>, i: nat, c: Creds, o: Obj, need: Mask, allowed: Mask, denied: Mask)
    requires i <= |aces| && Looked(aces[..i], c, o, need, {}, allowed, denied)
    ensures NoneStops(aces, c, o, need, i) ==> NoneStops(aces, c, o, need, |aces|)
  {
    forall j, b | i <= j < |aces| ensures !Strikes(aces, c, o, need, j, b) {
      if b in need {
        assert BitOk(Decision(aces[..i], c, o, b), false, b in allowed, b in denied);
        assert aces[..j][..i] == aces[..i];
        DecisionOfPrefix(aces[..j], i, c, o, b);
      }
    }
  }

  /** The loop over the ACEs. */
  method Scan(aces: seq<Ace>, c: Creds, o: Obj, v4mask: Mask, need: Mask, granted: Mask, wantDenied: bool)
    returns (refused: Option<Status>, missing: Mask, allowed: Mask, denied: Mask, ghost at: nat)
    requires need <= v4mask && need * granted == {}
    ensures granted <= allowed <= granted + v4mask && denied <= v4mask
    ensures DenialsReal(aces, c, o, denied) && (!wantDenied ==> denied == {})
    ensures refused.None? ==> Looked(aces, c, o, need, missing, allowed, denied)
    ensures refused.None? && Halting(v4mask, wantDenied) ==> denied == {} && NoneStops(aces, c, o, need, |aces|)
    ensures refused.Some? ==>
      Refused(aces, c, o, v4mask, need, wantDenied, at, refused.value, allowed, denied)
  {
    refused, missing, allowed, denied, at := None, need, granted, {}, 0;
    assert Looked(aces[..0], c, o, need, missing, allowed, denied);
    var i := 0;
    while i < |aces|
      invariant i <= |aces| && refused.None?
      invariant granted <= allowed <= granted + v4mask && denied <= v4mask
      invariant DenialsReal(aces, c, o, denied) && (!wantDenied ==> denied == {})
      invariant Looked(aces[..i], c, o, need, missing, allowed, denied)
      invariant Halting(v4mask, wantDenied) ==> denied == {} && NoneStops(aces, c, o, need, i)
    {
      var a := aces[i];
      StopsIff(aces, i, c, o, need, missing, allowed, denied);
      if (a.kind.Allow? || a.kind.Deny?) && Applicable(a, c, o) {
        if a.kind.Allow? {
          LookAllow(aces, i, c, o, v4mask, need, missing, allowed, denied);
          var tperm := a.perm - denied;
          allowed, missing := allowed + v4mask * tperm, missing - tperm;
          if missing == {} {
            LookEnough(aces, i + 1, c, o, need, allowed, denied);
            NoneLeft(aces, i + 1, c, o, need, allowed, denied);
            return;
          }
        } else if a.perm * missing != {} && !c.root {
          ghost var was := denied;
          if wantDenied {
            denied := denied + v4mask * a.perm;
          }
          if !wantDenied || CONTINUE !in v4mask {
            AllowedSoFar(aces, i, c, o, need, missing, allowed, was);
            refused := Some(if a.perm * missing * PERM_BITS != {} then Perm else Access);
            at := i;
            return;
          }
          LookDeny(aces, i, c, o, v4mask, need, missing, allowed, was);
          missing := missing - a.perm;
          if missing == {} {
            LookEnough(aces, i + 1, c, o, need, allowed, denied);
            return;
          }
        } else {
          LookPast(aces, i, c, o, need, missing, allowed, denied);
        }
      } else {
        LookPast(aces, i, c, o, need, missing, allowed, denied);
      }
      i := i + 1;
    }
    assert aces[..i] == aces;
  }

  ghost predicate SomeUndecided(aces: seq<Ace>, c: Creds, o: Obj, need: Mask) {
    exists b :: b in need && Decision(aces, c, o, b) == Undecided
  }

  ghost predicate SomeStops(aces: seq<Ace>, c: Creds, o: Obj, need: Mask) {
    exists i :: 0 <= i < |aces| && Stops(aces, c, o, need, i)
  }

  /** EPERM rather than EACCES: by the ACE that ended the evaluation, or, if it went on to the
      end, by the bits left undecided. */
  ghost predicate PermError(aces: seq<Ace>, c: Creds, o: Obj, need: Mask, halting: bool) {
    if halting && SomeStops(aces, c, o, need) then
      exists at: nat :: Refuses(aces, c, o, need, at) && StrikesPermBit(aces, c, o, need, at)
    else
      exists b :: b in need && AnswersPerm(b) && Decision(aces, c, o, b) == Undecided
  }

  /** An evaluation that a denial ends is one where some needed bit is denied. */
  lemma StopsMeansDenied(aces: seq<Ace>, c: Creds, o: Obj, need: Mask, i: nat)
    requires i < |aces| && Stops(aces, c, o, need, i)
    ensures exists b :: b in need && Decision(aces, c, o, b) == Denied
  {
    var b :| Strikes(aces, c, o, need, i, b);
    DecisionNext(aces, i, c, o, b);
    DecisionOfPrefix(aces, i + 1, c, o, b);
  }

  /** fsal_check_access_acl. The caller may or may not pass a place for the denied bits; the
      allowed bits change nothing, and are always computed here. */
  method CheckAccessAcl(c: Creds, v4mask: Mask, wantDenied: bool, o: Obj, acl: Option<seq<Ace>>)
    returns (st: Status, allowed: Mask, denied: Mask)
    ensures allowed <= v4mask && denied <= v4mask && (!wantDenied ==> denied == {})
    ensures acl.None? ==> st == NoAce && allowed == {} && denied == {}
    // granted exactly when every needed bit's first decider allows it
    ensures acl.Some? ==> (st == NoError <==> Granted(acl.value, c, o, v4mask))
    ensures acl.Some? ==> (st == NoError <==> PlainlyGranted(acl.value, c, o, v4mask))
    ensures acl.Some? && st == NoError ==> v4mask - {CONTINUE} <= allowed && denied == {}
    // the allowed bits are never wrong, and with CONTINUE and a denied pointer exact
    ensures acl.Some? ==> forall b :: b in allowed && b != CONTINUE ==>
      b !in Needed(c, o, v4mask) || Decision(acl.value, c, o, b) == Allowed
    ensures acl.Some? && wantDenied && CONTINUE in v4mask ==> forall b :: b in v4mask && b != CONTINUE ==>
      (b in allowed <==> b !in Needed(c, o, v4mask) || Decision(acl.value, c, o, b) == Allowed)
    // the denied bits: each in an applicable DENY ACE, and none missing
    ensures acl.Some? ==> DenialsReal(acl.value, c, o, denied)
    ensures acl.Some? && wantDenied && CONTINUE in v4mask ==> forall b ::
      b in Needed(c, o, v4mask) && Decision(acl.value, c, o, b) == Denied ==> b in denied
    // which error
    ensures acl.Some? ==>
      (st == NoAce <==> REQUIRED in v4mask && SomeUndecided(acl.value, c, o, Needed(c, o, v4mask))
                        && ((wantDenied && CONTINUE in v4mask) || !SomeStops(acl.value, c, o, Needed(c, o, v4mask))))
    ensures acl.Some? && (st == Access || st == Perm) ==>
      (st == Perm <==> PermError(acl.value, c, o, Needed(c, o, v4mask), !(wantDenied && CONTINUE in v4mask)))
  {
    allowed, denied := {}, {};
    if acl.None? {
      return NoAce, allowed, denied;
    }
    GrantedIff(acl.value, c, o, v4mask);
    var missing := v4mask - {CONTINUE};
    ghost var need := Needed(c, o, v4mask);
    if missing == {} {
      assert need == {};
      return NoError, allowed, denied;
    }
    if c.root {
      if o.dir {
        return NoError, v4mask, denied;
      }
      missing := missing * {EXECUTE};
      allowed := v4mask - {EXECUTE};
      if missing == {} {
        return NoError, allowed, denied;
      }
    }
    if c.uid == o.owner {
      allowed := allowed + v4mask * OWNER_IMPLICIT;
      missing := missing - OWNER_IMPLICIT;
      if missing == {} {
        return NoError, allowed, denied;
      }
    }
    assert missing == need;
    var refused;
    ghost var at;
    ghost var granted := allowed;
    refused, missing, allowed, denied, at := Scan(acl.value, c, o, v4mask, missing, allowed, wantDenied);
    if refused.Some? {
      StopsMeansDenied(acl.value, c, o, need, at);
      return refused.value, allowed, denied;
    }
    if REQUIRED in v4mask && missing != {} {
      st := NoAce;
    } else if missing != {} || denied != {} {
      st := if missing * PERM_BITS != {} then Perm else Access;
    } else {
      st := NoError;
    }
  }

  /** A request that insists on an explicit ACE carries the flag for that in the mask itself, and
      the flag is a bit like any other: no ACE has it, so only root is ever granted one. */
  lemma RequiredNeverGranted(aces: seq<Ace>, c: Creds, o: Obj, v4mask: Mask)
    requires REQUIRED in v4mask && !c.root
    requires forall i :: 0 <= i < |aces| ==> REQUIRED !in aces[i].perm
    ensures !Granted(aces, c, o, v4mask) && SomeUndecided(aces, c, o, Needed(c, o, v4mask))
  {
    DecisionIsFirstDecider(aces, c, o, REQUIRED);
    assert REQUIRED in Needed(c, o, v4mask);
  }

  // ----- fsal_check_access_no_acl -----------------------------------------------------------------

  /** The mode shifted right by `n`, as far as it is looked at. */
  function Shift(mode: Mask, n: nat): Mask {
    (if n in mode then {0} else {}) + (if n + 1 in mode then {1} else {})
    + (if n + 2 in mode then {2} else {})
  }

  /** Which of the three classes of mode bits the caller falls into, as its lowest bit. */
  function Class(c: Creds, o: Obj): nat {
    if c.uid == o.owner then 6 else if InGroup(c, o.group) then 3 else 0
  }

  /** Whether the mode gives the caller the access: bit 2 is read, 1 write, 0 execute. */
  predicate ModeGrants(c: Creds, o: Obj, acc: nat) {
    if c.root then
      o.dir || acc != X_OK || {0, 3, 6} * o.mode != {}
    else
      || (acc == R_OK && Class(c, o) + 2 in o.mode)
      || (acc == W_OK && Class(c, o) + 1 in o.mode)
      || (acc == X_OK && Class(c, o) in o.mode)
  }

  method CheckAccessNoAcl(c: Creds, access: Mask, o: Obj)
    returns (st: Status, allowed: Mask, denied: Mask)
    ensures st == NoError || st == Access
    ensures st == NoError <==> forall acc :: acc in access ==> ModeGrants(c, o, acc)
    ensures forall acc :: acc in allowed <==> acc in access && ModeGrants(c, o, acc)
    ensures denied == access - allowed
  {
    allowed, denied := {}, {};
    if access == {} {
      return NoError, allowed, denied;
    }
    if c.root {
      if o.dir {
        return NoError, access, denied;
      }
      if X_OK !in access || {0, 3, 6} * o.mode != {} {
        return NoError, access, denied;
      }
      return Access, access - {X_OK}, access * {X_OK};
    }
    var mode := o.mode;
    if c.uid == o.owner {
      mode := Shift(mode, 6);
    } else if c.gid == o.group {
      mode := Shift(mode, 3);
    } else {
      var i := 0;
      while i < |c.groups|
        invariant i <= |c.groups| && mode == o.mode && o.group !in c.groups[..i]
      {
        if c.groups[i] == o.group {
          mode := Shift(mode, 3);
          break;
        }
        i := i + 1;
      }
    }
    assert forall b :: 0 <= b <= 2 ==> (b in mode <==> b + Class(c, o) in o.mode);
    var mask := (if 2 in mode then {R_OK} else {}) + (if 1 in mode then {W_OK} else {})
                + (if 0 in mode then {X_OK} else {});
    allowed, denied := mask * access, access - mask;
    st := if mask * access == access then NoError else Access;
  }
}
