/** May this caller remove this entry from this directory: fsal_test_access, and fsal_remove_access,
    which asks it for execute, DELETE, DELETE_CHILD and, failing those, for permission to add. */
module Removal {
  import opened Bits
  import opened Acl
  import opened Options

  const ACE4_FLAG: nat := 31
  const MODE_BITS: Mask := {X_OK, W_OK, R_OK}

  /** The bits of an access request that are for the ACL check. */
  function AclPart(access: Mask): Mask {
    access - MODE_BITS - {27, 29, ACE4_FLAG}
  }

  /** An object with its ACL, if it has one. */
  datatype Guarded = Guarded(o: Obj, acl: Option<seq<Ace>>)

  /** Which of the two checks a request goes to. */
  predicate ByAcl(access: Mask, g: Guarded) {
    REQUIRED in access || (g.acl.Some? && ACE4_FLAG in access)
  }

  /** fsal_test_access, once it has the attributes. */
  method TestAccess(c: Creds, access: Mask, ownerSkip: bool, g: Guarded) returns (st: Status)
    requires forall b :: b in access ==> b < 32
    ensures ownerSkip && c.uid == g.o.owner ==> st == NoError
    ensures !(ownerSkip && c.uid == g.o.owner) && ByAcl(access, g) ==>
      && (g.acl.None? ==> st == NoAce)
      && (g.acl.Some? ==> (st == NoError <==> Granted(g.acl.value, c, g.o, AclPart(access))))
      && (g.acl.Some? ==>
            (st == NoAce <==> && REQUIRED in access
                              && SomeUndecided(g.acl.value, c, g.o, Needed(c, g.o, AclPart(access)))
                              && !SomeStops(g.acl.value, c, g.o, Needed(c, g.o, AclPart(access)))))
    ensures !(ownerSkip && c.uid == g.o.owner) && !ByAcl(access, g) ==>
      && st != NoAce
      && (st == NoError <==> forall acc :: acc in access * MODE_BITS ==> ModeGrants(c, g.o, acc))
    ensures st == Perm ==> WRITE_ATTR in access || WRITE_ACL in access || WRITE_OWNER in access
  {
    if ownerSkip && g.o.owner == c.uid {
      return NoError;
    }
    if ByAcl(access, g) {
      var allowed, denied;
      st, allowed, denied := CheckAccessAcl(c, AclPart(access), false, g.o, g.acl);
    } else {
      var allowed, denied;
      st, allowed, denied := CheckAccessNoAcl(c, access * MODE_BITS, g.o);
    }
  }

  /** A permission that the ACL gives or, where there is none, the mode. */
  predicate Can(c: Creds, g: Guarded, bit: nat, acc: nat) {
    if g.acl.Some? then Decision(g.acl.value, c, g.o, bit) == Allowed else ModeGrants(c, g.o, acc)
  }

  /** A permission that the ACL denies outright. */
  predicate Forbidden(c: Creds, g: Guarded, bit: nat) {
    g.acl.Some? && Decision(g.acl.value, c, g.o, bit) == Denied
  }

  function AddBit(isdir: bool): nat {
    if isdir then APPEND_DATA else WRITE_DATA
  }

  /** The answers to a request that insists on an ACE, and so asks for the flag that says so as well. */
  predicate Insisted(c: Creds, g: Guarded, bit: nat) {
    && g.acl.Some? && Decision(g.acl.value, c, g.o, bit) == Allowed
    && Decision(g.acl.value, c, g.o, REQUIRED) == Allowed
  }

  predicate Barred(c: Creds, g: Guarded, bit: nat) {
    Forbidden(c, g, bit) || Forbidden(c, g, REQUIRED)
  }

  predicate MayRemove(c: Creds, dir: Guarded, obj: Guarded, isdir: bool) {
    && Can(c, dir, EXECUTE, X_OK)
    && (|| Insisted(c, obj, DELETE) || Insisted(c, dir, DELETE_CHILD)
        || (!Barred(c, obj, DELETE) && !Barred(c, dir, DELETE_CHILD) && Can(c, dir, AddBit(isdir), W_OK)))
  }

  /** fsal_remove_access. Root may; another caller may iff it can search the directory, and one kind of
      delete is allowed by ACEs that also allow the flag, or neither is barred and it can add. */
  method RemoveAccess(c: Creds, dir: Guarded, obj: Guarded, isdir: bool) returns (st: Status)
    requires dir.o.dir
    ensures st == NoError <==> c.root || MayRemove(c, dir, obj, isdir)
    ensures st == NoError || st == Access
  {
    if c.root {
      RootRequests(c, dir, obj);
    } else {
      PlainRequest(c, dir, EXECUTE, X_OK);
      PlainRequest(c, dir, AddBit(isdir), W_OK);
      InsistentRequest(c, obj, DELETE, W_OK);
      InsistentRequest(c, dir, DELETE_CHILD, W_OK);
    }
    st := TestAccess(c, {X_OK, EXECUTE, ACE4_FLAG}, false, dir);
    if st != NoError {
      return;
    }
    var del := TestAccess(c, {W_OK, DELETE, ACE4_FLAG, REQUIRED}, false, obj);
    st := TestAccess(c, {W_OK, DELETE_CHILD, ACE4_FLAG, REQUIRED}, false, dir);
    if st != NoError && del != NoError {
      if st != NoAce {
        return;
      }
      if del != NoAce {
        return del;
      }
      st := TestAccess(c, {W_OK, AddBit(isdir), ACE4_FLAG}, false, dir);
    } else {
      st := NoError;
    }
  }

  /** What root asks for is granted, but for the ACE that is not there if there is no ACL. */
  lemma RootRequests(c: Creds, dir: Guarded, obj: Guarded)
    requires c.root && dir.o.dir
    ensures dir.acl.Some? ==> forall v4mask: Mask :: Granted(dir.acl.value, c, dir.o, v4mask)
    ensures obj.acl.Some? ==> Granted(obj.acl.value, c, obj.o, AclPart({W_OK, DELETE, ACE4_FLAG, REQUIRED}))
  {
    assert EXECUTE !in AclPart({W_OK, DELETE, ACE4_FLAG, REQUIRED});
  }

  /** The permissions in ACEs are those of the protocol: none is the bit that stands for "an ACE must
      say so". */
  ghost predicate NoFlagInPerms(g: Guarded) {
    g.acl.Some? ==> forall i :: 0 <= i < |g.acl.value| ==> REQUIRED !in g.acl.value[i].perm
  }

  lemma PlainRequest(c: Creds, g: Guarded, bit: nat, acc: nat)
    requires !c.root && (bit == EXECUTE || bit == WRITE_DATA || bit == APPEND_DATA) && acc in MODE_BITS
    ensures var access := {acc, bit, ACE4_FLAG};
      && (g.acl.Some? ==> (Granted(g.acl.value, c, g.o, AclPart(access)) <==> Can(c, g, bit, acc)))
      && access * MODE_BITS == {acc}
  {
    assert AclPart({acc, bit, ACE4_FLAG}) == {bit};
    assert Needed(c, g.o, {bit}) == {bit};
  }

  lemma InsistentRequest(c: Creds, g: Guarded, bit: nat, acc: nat)
    requires !c.root && (bit == DELETE || bit == DELETE_CHILD) && acc in MODE_BITS
    ensures var access := {acc, bit, ACE4_FLAG, REQUIRED}; g.acl.Some? ==>
      var need := Needed(c, g.o, AclPart(access));
      && (Granted(g.acl.value, c, g.o, AclPart(access)) <==> Insisted(c, g, bit))
      && (SomeStops(g.acl.value, c, g.o, need) <==> Barred(c, g, bit))
      && (!Insisted(c, g, bit) && !Barred(c, g, bit) ==> SomeUndecided(g.acl.value, c, g.o, need))
  {
    if g.acl.Some? {
      var need := {bit, REQUIRED};
      assert AclPart({acc, bit, ACE4_FLAG, REQUIRED}) == need;
      assert Needed(c, g.o, need) == need;
      StopsIffDenied(g.acl.value, c, g.o, need);
    }
  }

  /** No ACE of the protocol has the flag among its permissions; then nobody is given what they insist on,
      and a caller but root may remove iff it can search and add, and neither kind of delete is denied:
      being allowed one does not matter. */
  lemma RemoveByAdding(c: Creds, dir: Guarded, obj: Guarded, isdir: bool)
    requires NoFlagInPerms(dir) && NoFlagInPerms(obj)
    ensures MayRemove(c, dir, obj, isdir) <==>
      && Can(c, dir, EXECUTE, X_OK) && Can(c, dir, AddBit(isdir), W_OK)
      && !Forbidden(c, dir, DELETE_CHILD) && !Forbidden(c, obj, DELETE)
  {
    FlagUndecided(c, dir);
    FlagUndecided(c, obj);
  }

  lemma FlagUndecided(c: Creds, g: Guarded)
    requires NoFlagInPerms(g)
    ensures g.acl.Some? ==> Decision(g.acl.value, c, g.o, REQUIRED) == Undecided
  {
    if g.acl.Some? {
      DecisionIsFirstDecider(g.acl.value, c, g.o, REQUIRED);
    }
  }

  /** The evaluation is cut short by a denial iff some needed bit's first decider denies it. */
  lemma StopsIffDenied(aces: seq<Ace>, c: Creds, o: Obj, need: Mask)
    ensures SomeStops(aces, c, o, need) <==> exists b :: b in need && Decision(aces, c, o, b) == Denied
  {
    if SomeStops(aces, c, o, need) {
      var i :| 0 <= i < |aces| && Stops(aces, c, o, need, i);
      StopsMeansDenied(aces, c, o, need, i);
    }
    forall b | b in need && Decision(aces, c, o, b) == Denied ensures SomeStops(aces, c, o, need) {
      assert aces[..0] == [];
      var i := DeniedAt(aces, c, o, b, 0);
      assert Strikes(aces, c, o, need, i, b);
      assert Stops(aces, c, o, need, i);
    }
  }

  lemma {:induction false} DeniedAt(aces: seq<Ace>, c: Creds, o: Obj, b: nat, n: nat) returns (i: nat)
    requires n <= |aces| && Decision(aces[..n], c, o, b) == Undecided && Decision(aces, c, o, b) == Denied
    ensures i < |aces| && DeniesBit(aces[i], c, o, b) && Decision(aces[..i], c, o, b) == Undecided
    decreases |aces| - n
  {
    assert aces[..|aces|] == aces;
    DecisionNext(aces, n, c, o, b);
    if Decides(aces[n], c, o, b) {
      DecisionOfPrefix(aces, n + 1, c, o, b);
      i := n;
    } else {
      i := DeniedAt(aces, c, o, b, n + 1);
    }
  }

  /** So being allowed DELETE or DELETE_CHILD does not help: here both are, and execute too, and the
      caller may not remove the file because it may not add one. */
  lemma DeleteIsNotEnough()
    ensures var all := Ace(Allow, {EXECUTE, DELETE, DELETE_CHILD}, {}, {SPECIAL_ID}, EVERYONE_AT);
      var c := Creds(7, 7, [], false);
      var dir, file := Guarded(Obj(1, 1, true, {}), Some([all])), Guarded(Obj(1, 1, false, {}), Some([all]));
      && Can(c, dir, EXECUTE, X_OK) && Can(c, dir, DELETE_CHILD, W_OK) && Can(c, file, DELETE, W_OK)
      && NoFlagInPerms(dir) && NoFlagInPerms(file) && !MayRemove(c, dir, file, false)
  {
    var all := Ace(Allow, {EXECUTE, DELETE, DELETE_CHILD}, {}, {SPECIAL_ID}, EVERYONE_AT);
    var c, d, f := Creds(7, 7, [], false), Obj(1, 1, true, {}), Obj(1, 1, false, {});
    assert Applicable(all, c, d) && Applicable(all, c, f);
    assert [all][0] == all && [all][1..] == [];
    assert Decision([all], c, d, EXECUTE) == Allowed && Decision([all], c, d, DELETE_CHILD) == Allowed;
    assert Decision([all], c, f, DELETE) == Allowed && Decision([all], c, d, WRITE_DATA) == Undecided;
    RemoveByAdding(c, Guarded(d, Some([all])), Guarded(f, Some([all])), false);
  }
}
