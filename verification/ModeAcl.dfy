/** ACLs made from mode bits (section 6.4.1.1 of RFC 7530): the six generated ACEs, and a
    source ACL whose effective special ACEs give way to them. */
module ModeAcl {
  import opened Bits
  import opened Acl
  import opened Options

  /** What the mode bits speak of: read, write and append, execute. */
  const RWX: Mask := {READ_DATA, WRITE_DATA, APPEND_DATA, EXECUTE}
  const WRITE_BITS: Mask := {WRITE_DATA, APPEND_DATA}
  const INHERIT: Mask := {FILE_INHERIT, DIR_INHERIT, INHERIT_ONLY}

  /** An ACE as it is allocated. */
  const BLANK: Ace := Ace(Allow, {}, {}, {}, 0)

  // ----- the six generated ACEs ------------------------------------------------------------

  /** The permissions of the class of mode bits whose lowest bit is `n`. */
  function ClassPerm(mode: Mask, n: nat): Mask {
    (if n + 2 in mode then {READ_DATA} else {}) + (if n + 1 in mode then WRITE_BITS else {})
    + (if n in mode then {EXECUTE} else {})
  }

  function Generated(kind: AceType, perm: Mask, who: nat): Ace {
    Ace(kind, perm, if who == GROUP_AT then {GROUP_ID} else {}, {MODE_GEN, SPECIAL_ID}, who)
  }

  function ClassAces(mode: Mask, n: nat, who: nat): seq<Ace> {
    [Generated(Deny, RWX - ClassPerm(mode, n), who), Generated(Allow, ClassPerm(mode, n), who)]
  }

  function ModeAces(mode: Mask): seq<Ace> {
    ClassAces(mode, 6, OWNER_AT) + ClassAces(mode, 3, GROUP_AT) + ClassAces(mode, 0, EVERYONE_AT)
  }

  /** Three pairs, for the owner, the group and everyone, each a DENY and then an ALLOW that share read, write,
      append and execute between them; all are marked as made from a mode, and the group's as a group's. */
  lemma SixAces(mode: Mask, i: nat)
    requires i < 3
    ensures var aces := ModeAces(mode);
      && |aces| == 6 && aces[2 * i].kind == Deny && aces[2 * i + 1].kind == Allow
      && aces[2 * i].who == aces[2 * i + 1].who == i + 1
      && aces[2 * i].flag == aces[2 * i + 1].flag == (if i == 1 then {GROUP_ID} else {})
      && aces[2 * i].iflag == aces[2 * i + 1].iflag == {MODE_GEN, SPECIAL_ID}
      && aces[2 * i].perm !! aces[2 * i + 1].perm
      && aces[2 * i].perm + aces[2 * i + 1].perm == {READ_DATA, WRITE_DATA, APPEND_DATA, EXECUTE}
  {
    var n := 6 - 3 * i;
    assert ModeAces(mode)[2 * i..2 * i + 2] == ClassAces(mode, n, i + 1);
    assert ModeAces(mode)[2 * i] == ClassAces(mode, n, i + 1)[0];
    assert ModeAces(mode)[2 * i + 1] == ClassAces(mode, n, i + 1)[1];
    assert ClassPerm(mode, n) <= RWX;
  }

  /** fsal_mode_set_ace, on a pair of blank entries; `n` is the lowest of the class's bits, which
      the callers shift to the owner's place. */
  method SetAce(aces: array<Ace>, deny: nat, mode: Mask, n: nat)
    requires deny + 1 < aces.Length && aces[deny].perm == {} && aces[deny + 1].perm == {}
    modifies aces
    ensures aces[deny] == old(aces[deny]).(kind := Deny, perm := RWX - ClassPerm(mode, n))
    ensures aces[deny + 1] == old(aces[deny + 1]).(kind := Allow, perm := ClassPerm(mode, n))
    ensures forall i :: 0 <= i < aces.Length && i != deny && i != deny + 1 ==> aces[i] == old(aces[i])
  {
    var allow := deny + 1;
    aces[allow] := aces[allow].(kind := Allow);
    aces[deny] := aces[deny].(kind := Deny);
    var at := if n + 2 in mode then allow else deny;
    aces[at] := aces[at].(perm := aces[at].perm + {READ_DATA});
    at := if n + 1 in mode then allow else deny;
    aces[at] := aces[at].(perm := aces[at].perm + {WRITE_DATA, APPEND_DATA});
    at := if n in mode then allow else deny;
    aces[at] := aces[at].(perm := aces[at].perm + {EXECUTE});
  }

  /** One class of fsal_mode_gen_set: its pair of ACEs. */
  method GenPair(aces: array<Ace>, deny: nat, mode: Mask, n: nat, who: nat)
    requires deny + 1 < aces.Length && aces[deny] == BLANK && aces[deny + 1] == BLANK
    modifies aces
    ensures aces[..] == old(aces[..deny]) + ClassAces(mode, n, who) + old(aces[deny + 2..])
  {
    var allow := deny + 1;
    aces[allow] := aces[allow].(who := who, iflag := aces[allow].iflag + {MODE_GEN, SPECIAL_ID});
    aces[deny] := aces[deny].(who := who, iflag := aces[deny].iflag + {MODE_GEN, SPECIAL_ID});
    if who == GROUP_AT {
      aces[allow] := aces[allow].(flag := {GROUP_ID});
      aces[deny] := aces[deny].(flag := {GROUP_ID});
    }
    SetAce(aces, deny, mode, n);
    assert aces[deny] == ClassAces(mode, n, who)[0];
    assert aces[allow] == ClassAces(mode, n, who)[1];
  }

  /** fsal_mode_gen_set. */
  method GenSet(aces: array<Ace>, at: nat, mode: Mask)
    requires at + 6 <= aces.Length
    requires forall i :: at <= i < at + 6 ==> aces[i] == BLANK
    modifies aces
    ensures aces[..] == old(aces[..at]) + ModeAces(mode) + old(aces[at + 6..])
  {
    GenPair(aces, at, mode, 6, OWNER_AT);
    GenPair(aces, at + 2, mode, 3, GROUP_AT);
    GenPair(aces, at + 4, mode, 0, EVERYONE_AT);
  }

  /** The mode access that a permission bit stands for. */
  function AccessOf(b: nat): nat {
    if b == READ_DATA then R_OK else if b == EXECUTE then X_OK else W_OK
  }

  /** The generated ACEs settle every read, write and execute bit for everyone but root, by the
      class of the caller. */
  lemma ModeDecision(mode: Mask, c: Creds, o: Obj, b: nat)
    requires b in RWX && !c.root
    ensures Decision(ModeAces(mode), c, o, b) == if b in ClassPerm(mode, Class(c, o)) then Allowed else Denied
  {
    var u, g, e := ClassAces(mode, 6, OWNER_AT), ClassAces(mode, 3, GROUP_AT), ClassAces(mode, 0, EVERYONE_AT);
    DecisionConcat(u + g, e, c, o, b);
    DecisionConcat(u, g, c, o, b);
    PairDecision(mode, 6, OWNER_AT, c, o, b);
    PairDecision(mode, 3, GROUP_AT, c, o, b);
    PairDecision(mode, 0, EVERYONE_AT, c, o, b);
  }

  lemma PairDecision(mode: Mask, n: nat, who: nat, c: Creds, o: Obj, b: nat)
    ensures Decision(ClassAces(mode, n, who), c, o, b) ==
      if !Applicable(Generated(Allow, {}, who), c, o) || b !in RWX then Undecided
      else if b in ClassPerm(mode, n) then Allowed
      else if c.root then Undecided else Denied
  {
    var p := ClassAces(mode, n, who);
    assert p == [p[0]] + [p[1]];
    DecisionConcat([p[0]], [p[1]], c, o, b);
    assert Decision([p[0]], c, o, b) == if Decides(p[0], c, o, b) then Denied else Undecided;
    assert Decision([p[1]], c, o, b) == if Decides(p[1], c, o, b) then Allowed else Undecided;
  }

  lemma RootModeDecision(mode: Mask, c: Creds, o: Obj)
    requires c.root
    ensures Decision(ModeAces(mode), c, o, EXECUTE) == Allowed <==> {0, 3, 6} * mode != {}
  {
    var u, g, e := ClassAces(mode, 6, OWNER_AT), ClassAces(mode, 3, GROUP_AT), ClassAces(mode, 0, EVERYONE_AT);
    DecisionConcat(u + g, e, c, o, EXECUTE);
    DecisionConcat(u, g, c, o, EXECUTE);
    PairDecision(mode, 6, OWNER_AT, c, o, EXECUTE);
    PairDecision(mode, 3, GROUP_AT, c, o, EXECUTE);
    PairDecision(mode, 0, EVERYONE_AT, c, o, EXECUTE);
    assert {0, 3, 6} * mode != {} <==> 0 in mode || 3 in mode || 6 in mode by {
      if 0 in mode { assert 0 in {0, 3, 6} * mode; }
      if 3 in mode { assert 3 in {0, 3, 6} * mode; }
      if 6 in mode { assert 6 in {0, 3, 6} * mode; }
    }
  }

  /** For every caller, root included, any group list and any type of object, the ACL check on the
      ACL generated from the mode decides any read, write and execute request as the mode does. */
  lemma GeneratedAclIsMode(c: Creds, o: Obj, v4mask: Mask)
    requires v4mask <= RWX + {CONTINUE}
    ensures Granted(ModeAces(o.mode), c, o, v4mask) <==>
            forall b :: b in v4mask && b != CONTINUE ==> ModeGrants(c, o, AccessOf(b))
  {
    if c.root {
      RootModeDecision(o.mode, c, o);
    } else {
      forall b | b in v4mask && b != CONTINUE
        ensures b in Needed(c, o, v4mask)
        ensures Decision(ModeAces(o.mode), c, o, b) == Allowed <==> ModeGrants(c, o, AccessOf(b))
      {
        ModeDecision(o.mode, c, o, b);
      }
    }
  }

  // ----- a source ACL with its mode bits replaced ----------------------------------------------

  predicate IsPerm(a: Ace) {
    a.kind.Allow? || a.kind.Deny?
  }

  /** IS_FSAL_ACE_SPECIAL looks at the number only, not at the flag that makes it special. */
  predicate SpecialWho(a: Ace) {
    a.who == OWNER_AT || a.who == GROUP_AT || a.who == EVERYONE_AT
  }

  function Stripped(a: Ace): Ace {
    if SpecialWho(a) then a.(perm := a.perm - RWX) else a
  }

  /** What one ACE of the source becomes: nothing if it was generated from a mode; itself if it
      is not effective here; and if it is to be inherited, an inherit-only copy for that and an
      effective one. */
  function Copied(a: Ace): seq<Ace> {
    if MODE_GEN in a.iflag then []
    else if INHERIT_ONLY in a.flag || !IsPerm(a) then [a]
    else if a.flag * INHERIT != {} then
      [a.(flag := a.flag + {INHERIT_ONLY}), Stripped(a.(flag := a.flag - INHERIT))]
    else [Stripped(a)]
  }

  function CopyAll(aces: seq<Ace>): seq<Ace> {
    if |aces| == 0 then [] else Copied(aces[0]) + CopyAll(aces[1..])
  }

  /** ... and how the filling pass lays it out: it steps over an entry that it skips. */
  function Laid(a: Ace): seq<Ace> {
    if MODE_GEN in a.iflag then [BLANK] else Copied(a)
  }

  function LayAll(aces: seq<Ace>): seq<Ace> {
    if |aces| == 0 then [] else Laid(aces[0]) + LayAll(aces[1..])
  }

  lemma {:induction false} CopyAllConcat(s: seq<Ace>, t: seq<Ace>)
    ensures CopyAll(s + t) == CopyAll(s) + CopyAll(t)
  {
    if |s| == 0 {
      assert s + t == t;
    } else {
      assert (s + t)[1..] == s[1..] + t;
      CopyAllConcat(s[1..], t);
    }
  }

  lemma {:induction false} LayAllConcat(s: seq<Ace>, t: seq<Ace>)
    ensures LayAll(s + t) == LayAll(s) + LayAll(t)
  {
    if |s| == 0 {
      assert s + t == t;
    } else {
      assert (s + t)[1..] == s[1..] + t;
      LayAllConcat(s[1..], t);
    }
  }

  lemma NextCopied(aces: seq<Ace>, i: nat)
    requires i < |aces|
    ensures CopyAll(aces[..i + 1]) == CopyAll(aces[..i]) + Copied(aces[i])
    ensures LayAll(aces[..i + 1]) == LayAll(aces[..i]) + Laid(aces[i])
  {
    assert aces[..i + 1] == aces[..i] + [aces[i]];
    CopyAllConcat(aces[..i], [aces[i]]);
    LayAllConcat(aces[..i], [aces[i]]);
    assert [aces[i]][1..] == [];
  }

  /** The first pass counts the copies. */
  method CountPass(aces: seq<Ace>) returns (n: nat)
    ensures n == |CopyAll(aces)|
  {
    n := 0;
    for i := 0 to |aces|
      invariant n == |CopyAll(aces[..i])|
    {
      NextCopied(aces, i);
      var a := aces[i];
      if MODE_GEN in a.iflag {
        continue;
      }
      n := n + 1;
      if INHERIT_ONLY in a.flag {
        continue;
      }
      if !IsPerm(a) {
        continue;
      }
      if a.flag * INHERIT != {} {
        n := n + 1;
      }
    }
    assert aces[..|aces|] == aces;
  }

  /** One turn of the second pass. */
  method LayOne(a: Ace, dst: array<Ace>, cursor: nat) returns (next: nat, n: nat)
    requires cursor + |Laid(a)| <= dst.Length && dst[cursor] == BLANK
    modifies dst
    ensures n == |Copied(a)| && next == cursor + |Laid(a)|
    ensures dst[cursor..next] == Laid(a)
    ensures forall i :: 0 <= i < dst.Length && !(cursor <= i < next) ==> dst[i] == old(dst[i])
  {
    next, n := cursor, 0;
    if MODE_GEN !in a.iflag {
      dst[next] := a;
      n := n + 1;
      if !(INHERIT_ONLY in a.flag || !IsPerm(a)) {
        if a.flag * INHERIT != {} {
          dst[next] := a.(flag := a.flag + {INHERIT_ONLY});
          next := next + 1;
          dst[next] := a.(flag := a.flag - INHERIT);
          n := n + 1;
        }
        if SpecialWho(dst[next]) {
          dst[next] := dst[next].(perm := dst[next].perm - RWX);
        }
      }
    }
    next := next + 1;
  }

  /** The second pass, into a list that is long enough for it: where it ends, and how many it
      says it wrote. */
  method FillPass(aces: seq<Ace>, dst: array<Ace>) returns (cursor: nat, n: nat)
    requires |LayAll(aces)| <= dst.Length
    requires forall i :: 0 <= i < dst.Length ==> dst[i] == BLANK
    modifies dst
    ensures n == |CopyAll(aces)| && cursor == |LayAll(aces)|
    ensures dst[..cursor] == LayAll(aces)
    ensures forall i :: cursor <= i < dst.Length ==> dst[i] == BLANK
  {
    cursor, n := 0, 0;
    for i := 0 to |aces|
      invariant n == |CopyAll(aces[..i])|
      invariant cursor == |LayAll(aces[..i])| <= dst.Length && dst[..cursor] == LayAll(aces[..i])
      invariant forall k :: cursor <= k < dst.Length ==> dst[k] == BLANK
    {
      NextCopied(aces, i);
      Fits(aces, i);
      ghost var before := dst[..cursor];
      var next, one := LayOne(aces[i], dst, cursor);
      assert dst[..cursor] == before;
      assert dst[..next] == dst[..cursor] + dst[cursor..next];
      cursor, n := next, n + one;
    }
    assert aces[..|aces|] == aces;
  }

  lemma Fits(aces: seq<Ace>, i: nat)
    requires i < |aces|
    ensures |LayAll(aces[..i])| + |Laid(aces[i])| <= |LayAll(aces)| && |Laid(aces[i])| >= 1
  {
    NextCopied(aces, i);
    assert aces == aces[..i + 1] + aces[i + 1..];
    LayAllConcat(aces[..i + 1], aces[i + 1..]);
  }

  /** The filling pass ends where the counting pass said it would iff it skipped nothing. */
  lemma {:induction false} CursorAgrees(aces: seq<Ace>)
    ensures |CopyAll(aces)| <= |LayAll(aces)|
    ensures |LayAll(aces)| == |CopyAll(aces)| <==> forall i :: 0 <= i < |aces| ==> MODE_GEN !in aces[i].iflag
    ensures |LayAll(aces)| == |CopyAll(aces)| ==> LayAll(aces) == CopyAll(aces)
  {
    if |aces| != 0 {
      CursorAgrees(aces[1..]);
      assert forall i :: 0 < i < |aces| ==> aces[i] == aces[1..][i - 1];
      assert |Copied(aces[0])| <= |Laid(aces[0])|;
    }
  }

  lemma {:induction false} AllGenerated(aces: seq<Ace>)
    ensures CopyAll(aces) == [] <==> forall i :: 0 <= i < |aces| ==> MODE_GEN in aces[i].iflag
  {
    if |aces| != 0 {
      AllGenerated(aces[1..]);
      assert forall i :: 0 < i < |aces| ==> aces[i] == aces[1..][i - 1];
    }
  }

  /** The cursor stays inside the list that was allocated: the source has no generated ACE, or
      nothing else. */
  predicate CursorSafe(aces: seq<Ace>) {
    || (forall i :: 0 <= i < |aces| ==> MODE_GEN !in aces[i].iflag)
    || (forall i :: 0 <= i < |aces| ==> MODE_GEN in aces[i].iflag)
  }

  lemma {:induction false} NotMuchLonger(aces: seq<Ace>)
    ensures |LayAll(aces)| <= |CopyAll(aces)| + |aces|
  {
    if |aces| != 0 {
      NotMuchLonger(aces[1..]);
    }
  }

  /** `Overrun`: the list has as many ACEs as were counted, and `past` more have been written past its
      end. */
  datatype Outcome = Unchanged | Made(aces: seq<Ace>) | ServerFault | Overrun(aces: seq<Ace>, past: nat)

  /** fsal_mode_to_acl; `mode` is there if the attributes have one. SERVERFAULT is never the
      answer: both passes arrive at the same number, whatever the source. But where the source has
      both generated and other ACEs the cursor has been moved too far when the six ACEs are written:
      then as many ACEs as there are generated ones in the source end up past the end of the list. */
  method ModeToAcl(mode: Option<Mask>, sacl: Option<seq<Ace>>) returns (r: Outcome)
    ensures mode.None? ==> r == Unchanged
    ensures mode.Some? && (sacl.None? || CursorSafe(sacl.value)) ==>
      r == Made((if sacl.Some? then CopyAll(sacl.value) else []) + ModeAces(mode.value))
    ensures mode.Some? && sacl.Some? && !CursorSafe(sacl.value) ==>
      var n, all := |CopyAll(sacl.value)|, LayAll(sacl.value) + ModeAces(mode.value);
      n + 6 < |all| && r == Overrun(all[..n + 6], |all| - (n + 6))
  {
    if mode.None? {
      return Unchanged;
    }
    var naces := 0;
    if sacl.Some? {
      naces := CountPass(sacl.value);
      AllGenerated(sacl.value);
      CursorAgrees(sacl.value);
      NotMuchLonger(sacl.value);
    }
    if naces == 0 {
      var six := new Ace[6](_ => BLANK);
      GenSet(six, 0, mode.value);
      assert six[..] == [] + ModeAces(mode.value);
      return Made(six[..]);
    }
    naces := naces + 6;
    // the list, and the memory behind it as far as the cursor can get
    var dst := new Ace[naces + |sacl.value|](_ => BLANK);
    var cursor, n := FillPass(sacl.value, dst);
    if naces - n != 6 {
      return ServerFault;
    }
    ghost var laid := dst[..cursor];
    GenSet(dst, cursor, mode.value);
    assert dst[..cursor + 6] == laid + ModeAces(mode.value);
    assert dst[..naces] == dst[..cursor + 6][..naces];
    if cursor + 6 > naces {
      return Overrun(dst[..naces], cursor + 6 - naces);
    }
    return Made(dst[..naces]);
  }

  /** A generated ACE and a named one: a blank takes the place of the generated one,
      and the last of the six, which allows everyone what the mode allows, is behind the list. */
  lemma MixedSourceOverruns()
    ensures var aces := [Generated(Allow, {READ_DATA}, EVERYONE_AT), Ace(Allow, {READ_DATA}, {}, {}, 7)];
      && !CursorSafe(aces) && |CopyAll(aces)| == 1 && |LayAll(aces)| == 2
      && forall mode: Mask ::
           (LayAll(aces) + ModeAces(mode))[..7] == [BLANK, aces[1]] + ModeAces(mode)[..5]
  {
    var g, a := Generated(Allow, {READ_DATA}, EVERYONE_AT), Ace(Allow, {READ_DATA}, {}, {}, 7);
    var aces := [g, a];
    assert aces[0] == g && aces[1] == a && aces[1..] == [a] && [a][1..] == [];
    assert Copied(a) == [a] && Copied(g) == [];
    assert CopyAll([a]) == [a];
    assert LayAll([a]) == Laid(a) + LayAll([]) == [a];
    assert LayAll(aces) == Laid(g) + LayAll([a]) == [BLANK, a];
  }

  // ----- what the new ACL means ------------------------------------------------------------------

  /** The ACEs of the source that keep their read, write and execute bits. */
  function Named(aces: seq<Ace>): seq<Ace> {
    if |aces| == 0 then []
    else (if MODE_GEN in aces[0].iflag || SpecialWho(aces[0]) then [] else [aces[0]]) + Named(aces[1..])
  }

  function Kept(aces: seq<Ace>): seq<Ace> {
    if |aces| == 0 then []
    else (if MODE_GEN in aces[0].iflag then [] else [aces[0]]) + Kept(aces[1..])
  }

  lemma OneDecision(a: Ace, c: Creds, o: Obj, b: nat)
    ensures Decision([a], c, o, b) == if Decides(a, c, o, b) then Settled(a) else Undecided
  {}

  lemma CopiedDecision(a: Ace, c: Creds, o: Obj, b: nat)
    requires MODE_GEN !in a.iflag
    ensures Decision(Copied(a), c, o, b) ==
            if b in RWX && SpecialWho(a) then Undecided else Decision([a], c, o, b)
  {
    OneDecision(a, c, o, b);
    var p := Copied(a);
    if |p| == 2 {
      assert p == [p[0]] + [p[1]];
      DecisionConcat([p[0]], [p[1]], c, o, b);
      OneDecision(p[0], c, o, b);
      OneDecision(p[1], c, o, b);
    } else {
      OneDecision(p[0], c, o, b);
    }
  }

  /** Read, write and execute are decided by the source's named ACEs alone, all else by all its
      ACEs as before. */
  lemma {:induction false} CopiesDecision(aces: seq<Ace>, c: Creds, o: Obj, b: nat)
    ensures Decision(CopyAll(aces), c, o, b) ==
            Decision(if b in RWX then Named(aces) else Kept(aces), c, o, b)
  {
    if |aces| != 0 {
      var a, rest := aces[0], aces[1..];
      CopiesDecision(rest, c, o, b);
      DecisionConcat(Copied(a), CopyAll(rest), c, o, b);
      if MODE_GEN !in a.iflag {
        CopiedDecision(a, c, o, b);
        DecisionConcat([a], Named(rest), c, o, b);
        DecisionConcat([a], Kept(rest), c, o, b);
        assert [] + Named(rest) == Named(rest);
      } else {
        assert [] + Named(rest) == Named(rest) && [] + Kept(rest) == Kept(rest);
      }
    }
  }

  lemma GeneratedSilent(mode: Mask, c: Creds, o: Obj, b: nat)
    requires b !in RWX
    ensures Decision(ModeAces(mode), c, o, b) == Undecided
  {
    DecisionIsFirstDecider(ModeAces(mode), c, o, b);
  }

  /** The new ACL: a named ACE still goes before the mode; what the mode does not speak of is
      decided as in the source without its generated ACEs. */
  lemma ModeToAclMeaning(aces: seq<Ace>, mode: Mask, c: Creds, o: Obj, b: nat)
    ensures Decision(CopyAll(aces) + ModeAces(mode), c, o, b) ==
      if b !in RWX then Decision(Kept(aces), c, o, b)
      else if Decision(Named(aces), c, o, b) != Undecided then Decision(Named(aces), c, o, b)
      else Decision(ModeAces(mode), c, o, b)
  {
    DecisionConcat(CopyAll(aces), ModeAces(mode), c, o, b);
    CopiesDecision(aces, c, o, b);
    if b !in RWX {
      GeneratedSilent(mode, c, o, b);
    }
  }

  lemma {:induction false} NoneNamed(aces: seq<Ace>, c: Creds, o: Obj, b: nat)
    requires forall i :: 0 <= i < |aces| && !SpecialWho(aces[i]) ==> !Applicable(aces[i], c, o)
    ensures Decision(Named(aces), c, o, b) == Undecided
  {
    if |aces| != 0 {
      NoneNamed(aces[1..], c, o, b);
      DecisionConcat([aces[0]], Named(aces[1..]), c, o, b);
      assert [] + Named(aces[1..]) == Named(aces[1..]);
    }
  }

  /** For a caller that no named ACE of the source applies to, the resulting ACL decides any read,
      write and execute request exactly as the mode does. */
  lemma UnnamedCallerGetsMode(aces: seq<Ace>, c: Creds, o: Obj, v4mask: Mask)
    requires forall i :: 0 <= i < |aces| && !SpecialWho(aces[i]) ==> !Applicable(aces[i], c, o)
    requires v4mask <= RWX + {CONTINUE}
    ensures Granted(CopyAll(aces) + ModeAces(o.mode), c, o, v4mask) <==>
            forall b :: b in v4mask && b != CONTINUE ==> ModeGrants(c, o, AccessOf(b))
  {
    forall b | b in Needed(c, o, v4mask)
      ensures Decision(CopyAll(aces) + ModeAces(o.mode), c, o, b) == Decision(ModeAces(o.mode), c, o, b)
    {
      ModeToAclMeaning(aces, o.mode, c, o, b);
      NoneNamed(aces, c, o, b);
    }
    GeneratedAclIsMode(c, o, v4mask);
  }

  /** The audit and alarm ACEs. */
  function Records(aces: seq<Ace>): seq<Ace> {
    if |aces| == 0 then [] else Record(aces[0]) + Records(aces[1..])
  }

  function Record(a: Ace): seq<Ace> {
    if IsPerm(a) then [] else [a]
  }

  lemma FirstOfBoth(s: seq<Ace>, t: seq<Ace>)
    requires s != []
    ensures (s + t)[0] == s[0] && (s + t)[1..] == s[1..] + t
  {}

  lemma ThreeParts(h: seq<Ace>, x: seq<Ace>, y: seq<Ace>)
    ensures h + (x + y) == (h + x) + y
  {}

  lemma {:induction false} RecordsConcat(s: seq<Ace>, t: seq<Ace>)
    ensures Records(s + t) == Records(s) + Records(t)
  {
    if |s| == 0 {
      assert s + t == t;
    } else {
      RecordsConcat(s[1..], t);
      FirstOfBoth(s, t);
      ThreeParts(Record(s[0]), Records(s[1..]), Records(t));
    }
  }

  lemma RecordsOfCopy(a: Ace)
    ensures Records(Copied(a)) == if MODE_GEN in a.iflag || IsPerm(a) then [] else [a]
  {
    var p := Copied(a);
    if |p| == 2 {
      assert p == [p[0]] + [p[1]];
      RecordsConcat([p[0]], [p[1]]);
    }
  }

  /** Audit and alarm ACEs are kept as they are, with all their flags. */
  lemma RecordsKept(aces: seq<Ace>, mode: Mask)
    ensures Records(CopyAll(aces) + ModeAces(mode)) == Records(Kept(aces))
  {
    RecordsConcat(CopyAll(aces), ModeAces(mode));
    NoRecords(ModeAces(mode));
    RecordsOfCopies(aces);
  }

  lemma {:induction false} NoRecords(aces: seq<Ace>)
    requires forall i :: 0 <= i < |aces| ==> IsPerm(aces[i])
    ensures Records(aces) == []
  {
    if |aces| != 0 {
      NoRecords(aces[1..]);
    }
  }

  lemma {:induction false} RecordsOfCopies(aces: seq<Ace>)
    ensures Records(CopyAll(aces)) == Records(Kept(aces))
  {
    if |aces| != 0 {
      var a, rest := aces[0], aces[1..];
      RecordsOfCopies(rest);
      RecordsConcat(Copied(a), CopyAll(rest));
      RecordsOfCopy(a);
      if MODE_GEN in a.iflag {
        assert [] + Kept(rest) == Kept(rest);
      } else {
        RecordsConcat([a], Kept(rest));
      }
    }
  }

  // ----- an ACE for a user or group whose number is a special one's -----------------------------------

  /** It names a user or group, and loses its read, write and execute bits all the same. */
  predicate TakenForSpecial(a: Ace) {
    && SpecialWho(a) && SPECIAL_ID !in a.iflag && IsPerm(a) && INHERIT_ONLY !in a.flag && a.perm * RWX != {}
    && !({EXCLUDE_DIRS, EXCLUDE_FILES} <= a.iflag)
  }

  ghost predicate SameDecision(a: Ace, c: Creds, o: Obj, b: nat) {
    Decision(Copied(a), c, o, b) == Decision([a], c, o, b)
  }

  /** A named ACE of the source still decides what it did, for every caller, object and bit, iff its number
      is not taken for a special one. */
  lemma NamedDecidesIff(a: Ace)
    requires MODE_GEN !in a.iflag && SPECIAL_ID !in a.iflag
    ensures (forall c: Creds, o: Obj, b: nat :: SameDecision(a, c, o, b)) <==> !TakenForSpecial(a)
  {
    if TakenForSpecial(a) {
      var b :| b in a.perm * RWX;
      var c, o := Creds(a.who, a.who, [], false), Obj(0, 0, EXCLUDE_DIRS !in a.iflag, {});
      CopiedDecision(a, c, o, b);
      OneDecision(a, c, o, b);
      assert !SameDecision(a, c, o, b);
    } else {
      forall c: Creds, o: Obj, b: nat ensures SameDecision(a, c, o, b) {
        CopiedDecision(a, c, o, b);
        OneDecision(a, c, o, b);
        if b in RWX && b in a.perm {
          assert b in a.perm * RWX;
        }
      }
    }
  }

  /** The ACEs of the source that name a user or group. */
  function ByName(aces: seq<Ace>): seq<Ace> {
    if |aces| == 0 then []
    else (if MODE_GEN in aces[0].iflag || (SPECIAL_ID in aces[0].iflag && SpecialWho(aces[0])) then [] else [aces[0]])
         + ByName(aces[1..])
  }

  lemma {:induction false} NamedIsByName(aces: seq<Ace>, c: Creds, o: Obj, b: nat)
    requires b in RWX && forall i :: 0 <= i < |aces| ==> !TakenForSpecial(aces[i])
    ensures Decision(Named(aces), c, o, b) == Decision(ByName(aces), c, o, b)
  {
    if |aces| != 0 {
      var a, rest := aces[0], aces[1..];
      NamedIsByName(rest, c, o, b);
      DecisionConcat([a], Named(rest), c, o, b);
      DecisionConcat([a], ByName(rest), c, o, b);
      assert [] + Named(rest) == Named(rest) && [] + ByName(rest) == ByName(rest);
      OneDecision(a, c, o, b);
      assert b in a.perm ==> b in a.perm * RWX;
    }
  }

  /** So if no ACE is taken for a special one, the named ACEs go before the mode. */
  lemma NamedBeforeMode(aces: seq<Ace>, mode: Mask, c: Creds, o: Obj, b: nat)
    requires b in RWX && forall i :: 0 <= i < |aces| ==> !TakenForSpecial(aces[i])
    ensures var named := Decision(ByName(aces), c, o, b);
      Decision(CopyAll(aces) + ModeAces(mode), c, o, b) ==
        if named != Undecided then named else Decision(ModeAces(mode), c, o, b)
  {
    ModeToAclMeaning(aces, mode, c, o, b);
    NamedIsByName(aces, c, o, b);
  }

  /** User 1 may read by an ACE that names them, and after the mode is set may not; user 7 still may. */
  lemma UserOneLosesRead(uid: nat)
    requires uid == 1 || uid == 7
    ensures var aces := [Ace(Allow, {READ_DATA}, {}, {}, uid)];
      var c, o := Creds(uid, 100, [], false), Obj(0, 0, false, {});
      && Decision(aces, c, o, READ_DATA) == Allowed
      && Decision(CopyAll(aces) + ModeAces({}), c, o, READ_DATA) == if uid == 1 then Denied else Allowed
  {
    var aces, c, o := [Ace(Allow, {READ_DATA}, {}, {}, uid)], Creds(uid, 100, [], false), Obj(0, 0, false, {});
    ModeToAclMeaning(aces, {}, c, o, READ_DATA);
    ModeDecision({}, c, o, READ_DATA);
    assert aces[1..] == [];
    assert Named(aces) == if uid == 1 then [] else aces;
  }
}
