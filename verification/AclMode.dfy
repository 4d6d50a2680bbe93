/** Mode bits made from an ACL, and what becomes of a mode that goes through an ACL and back. */
module AclMode {
  import opened Bits
  import opened Acl
  import opened Options
  import opened ModeAcl

  /** ace_modes: the mode bits that execute, write or read (0, 1 or 2) stands for in an ACE. */
  function ModesOf(who: nat, k: nat): Mask {
    if who == OWNER_AT then {6 + k}
    else if who == GROUP_AT then {3 + k}
    else if who == EVERYONE_AT then {6 + k, 3 + k, k}
    else {}
  }

  /** The mode bits that an ACE speaks of. */
  function Speaks(a: Ace): Mask {
    (if READ_DATA in a.perm then ModesOf(a.who, 2) else {})
    + (if WRITE_DATA in a.perm || APPEND_DATA in a.perm then ModesOf(a.who, 1) else {})
    + (if EXECUTE in a.perm then ModesOf(a.who, 0) else {})
  }

  /** Bit `b` is left by the last of the ACEs that speaks of it, or as it was. */
  ghost predicate LastSays(mode: Mask, aces: seq<Ace>, b: nat, set_: bool) {
    if exists i: nat :: LastSpeaker(aces, b, i)
    then forall i: nat :: LastSpeaker(aces, b, i) ==> (set_ <==> aces[i].kind.Allow?)
    else set_ <==> b in mode
  }

  ghost predicate LastSpeaker(aces: seq<Ace>, b: nat, i: nat) {
    i < |aces| && b in Speaks(aces[i]) && forall j :: i < j < |aces| ==> b !in Speaks(aces[j])
  }

  method SetMode(mode: Mask, bits: Mask, allow: bool) returns (r: Mask)
    ensures r == if allow then mode + bits else mode - bits
  {
    if allow {
      r := mode + bits;
    } else {
      r := mode - bits;
    }
  }

  /** One ACE. */
  method Apply(mode: Mask, a: Ace) returns (r: Mask)
    ensures r == if a.kind.Allow? then mode + Speaks(a) else mode - Speaks(a)
  {
    r := mode;
    if READ_DATA in a.perm {
      r := SetMode(r, ModesOf(a.who, 2), a.kind.Allow?);
    }
    if WRITE_DATA in a.perm || APPEND_DATA in a.perm {
      r := SetMode(r, ModesOf(a.who, 1), a.kind.Allow?);
    }
    if EXECUTE in a.perm {
      r := SetMode(r, ModesOf(a.who, 0), a.kind.Allow?);
    }
  }

  lemma OneMore(mode: Mask, aces: seq<Ace>, n: nat, b: nat, before: bool)
    requires n < |aces| && LastSays(mode, aces[..n], b, before)
    ensures LastSays(mode, aces[..n + 1], b, if b in Speaks(aces[n]) then aces[n].kind.Allow? else before)
  {
    var s, t := aces[..n], aces[..n + 1];
    assert forall i :: 0 <= i < n ==> t[i] == s[i];
    if b in Speaks(aces[n]) {
      assert LastSpeaker(t, b, n);
    } else {
      forall i: nat ensures LastSpeaker(t, b, i) <==> LastSpeaker(s, b, i) {}
    }
  }

  /** fsal_acl_to_mode. Every mode bit is as the last ACE that speaks of it says: the first ACE, which
      decides in the ACL, may be overruled. */
  method AclToMode(mode: Mask, acl: Option<seq<Ace>>) returns (r: Mask)
    ensures acl.None? ==> r == mode
    ensures acl.Some? ==> forall b :: LastSays(mode, acl.value, b, b in r)
  {
    r := mode;
    if acl.None? || |acl.value| == 0 {
      return;
    }
    var aces := acl.value;
    for n := 0 to |aces|
      invariant forall b :: LastSays(mode, aces[..n], b, b in r)
    {
      ghost var was := r;
      r := Apply(r, aces[n]);
      forall b ensures LastSays(mode, aces[..n + 1], b, b in r) {
        OneMore(mode, aces, n, b, b in was);
      }
    }
    assert aces[..|aces|] == aces;
  }

  /** One ACE: the class of mode bits that its who says, or all three for everyone, and in it read by
      READ_DATA, write by WRITE_DATA or APPEND_DATA, execute by EXECUTE; every other bit as it was. */
  lemma OneAceMode(mode: Mask, a: Ace, r: Mask)
    requires forall b :: LastSays(mode, [a], b, b in r)
    ensures forall b: nat :: b in r <==>
      var n := b % 3;
      var asked := if n == 2 then READ_DATA in a.perm else if n == 0 then EXECUTE in a.perm
                   else WRITE_DATA in a.perm || APPEND_DATA in a.perm;
      if b <= 8 && asked && (a.who == EVERYONE_AT || (a.who == OWNER_AT && b >= 6) || (a.who == GROUP_AT && 3 <= b < 6))
      then a.kind.Allow? else b in mode
  {
    forall b: nat ensures LastSpeaker([a], b, 0) <==> b in Speaks(a) {}
    forall b: nat, i: nat | LastSpeaker([a], b, i) ensures i == 0 {}
    forall b: nat ensures b in r <==> if b in Speaks(a) then a.kind.Allow? else b in mode {
      assert LastSays(mode, [a], b, b in r);
    }
  }

  /** Through the six generated ACEs every class comes back as the others' class. */
  lemma ThroughAcl(mode: Mask, was: Mask, r: Mask)
    requires forall b :: LastSays(was, ModeAces(mode), b, b in r)
    ensures forall k :: 0 <= k < 3 ==> (k in r <==> k in mode) && (3 + k in r <==> k in mode) && (6 + k in r <==> k in mode)
    ensures forall b :: b > 8 ==> (b in r <==> b in was)
  {
    forall k | 0 <= k < 3
      ensures (k in r <==> k in mode) && (3 + k in r <==> k in mode) && (6 + k in r <==> k in mode)
    {
      EveryoneSays(mode, was, 0, k, k in r);
      EveryoneSays(mode, was, 3, k, 3 + k in r);
      EveryoneSays(mode, was, 6, k, 6 + k in r);
    }
    forall b: nat | b > 8 ensures b in r <==> b in was {
      assert LastSays(was, ModeAces(mode), b, b in r);
      NoneSpeaks(mode, b);
    }
  }

  lemma EveryoneSays(mode: Mask, was: Mask, n: nat, k: nat, set_: bool)
    requires k < 3 && (n == 0 || n == 3 || n == 6) && LastSays(was, ModeAces(mode), n + k, set_)
    ensures set_ <==> k in mode
  {
    EveryoneLast(mode, n, k);
  }

  lemma EveryoneLast(mode: Mask, n: nat, k: nat)
    requires k < 3 && (n == 0 || n == 3 || n == 6)
    ensures var aces := ModeAces(mode);
      LastSpeaker(aces, n + k, if k in mode then 5 else 4) && aces[5].kind.Allow? && aces[4].kind.Deny?
  {
    var aces := ModeAces(mode);
    assert aces[4] == Generated(Deny, RWX - ClassPerm(mode, 0), EVERYONE_AT);
    assert aces[5] == Generated(Allow, ClassPerm(mode, 0), EVERYONE_AT);
    EveryoneSpeaks(ClassPerm(mode, 0), n, k);
    EveryoneSpeaks(RWX - ClassPerm(mode, 0), n, k);
  }

  lemma EveryoneSpeaks(perm: Mask, n: nat, k: nat)
    requires k < 3 && (n == 0 || n == 3 || n == 6)
    ensures forall kind :: n + k in Speaks(Generated(kind, perm, EVERYONE_AT)) <==>
      if k == 2 then READ_DATA in perm else if k == 1 then WRITE_DATA in perm || APPEND_DATA in perm
      else EXECUTE in perm
  {}

  lemma NoneSpeaks(mode: Mask, b: nat)
    requires b > 8
    ensures forall i :: 0 <= i < 6 ==> b !in Speaks(ModeAces(mode)[i])
  {}

  /** So a mode comes back as it was iff its three classes are the same. */
  lemma RoundTripIffAlike(mode: Mask, r: Mask)
    requires forall b :: LastSays(mode, ModeAces(mode), b, b in r)
    ensures r == mode <==> forall k :: 0 <= k < 3 ==> (k in mode <==> 3 + k in mode) && (k in mode <==> 6 + k in mode)
  {
    ThroughAcl(mode, mode, r);
    if forall k :: 0 <= k < 3 ==> (k in mode <==> 3 + k in mode) && (k in mode <==> 6 + k in mode) {
      forall b: nat ensures b in r <==> b in mode {
        if b <= 8 {
          var k := b % 3;
          assert b == k || b == 3 + k || b == 6 + k;
        }
      }
    }
  }

  /** A file that only its owner may read is, after that, one that nobody may. */
  lemma OwnerOnlyIsLost(r: Mask)
    requires forall b :: LastSays({8}, ModeAces({8}), b, b in r)
    ensures r == {}
  {
    ThroughAcl({8}, {8}, r);
    forall b: nat ensures b !in r {
      if b <= 8 {
        var k := b % 3;
        assert b == k || b == 3 + k || b == 6 + k;
        assert k !in {8};
      }
    }
  }
}
