/** What a new file or directory inherits from its directory's ACL (section 6.4.3 of RFC 7530),
    and what becomes of it down a chain of directories. */
module InheritAcl {
  import opened Bits
  import opened Acl
  import opened Options
  import opened ModeAcl

  const ALL_INHERIT: Mask := INHERIT + {NO_PROPAGATE}

  /** Whether a directory or another object is made. */
  datatype Kind = ForFile | ForDir

  function Flag(kind: Kind): nat {
    if kind.ForDir? then DIR_INHERIT else FILE_INHERIT
  }

  function Clean(a: Ace): Ace {
    a.(flag := a.flag - ALL_INHERIT)
  }

  /** is_dup_ace. */
  predicate IsDup(a: Ace, kind: Kind) {
    && a.flag * INHERIT != {} && kind.ForDir? && NO_PROPAGATE !in a.flag
    && (FILE_INHERIT in a.flag ==> DIR_INHERIT in a.flag)
    && IsPerm(a)
  }

  /** What one ACE of the directory gives to the new object. */
  function Inherited(a: Ace, kind: Kind): seq<Ace> {
    if Flag(kind) !in a.flag then []
    else if NO_PROPAGATE in a.flag then [Clean(a)]
    else if IsDup(a, kind) then [a.(flag := a.flag + {INHERIT_ONLY}), Clean(a)]
    else [a]
  }

  function InheritAll(aces: seq<Ace>, kind: Kind): seq<Ace> {
    if |aces| == 0 then [] else Inherited(aces[0], kind) + InheritAll(aces[1..], kind)
  }

  /** Inherit-only, and for nothing: counted, but never copied. */
  predicate Stray(a: Ace, kind: Kind) {
    IsDup(a, kind) && DIR_INHERIT !in a.flag
  }

  /** By how many the counting pass is wrong: by none iff no ACE is a stray. */
  function Strays(aces: seq<Ace>, kind: Kind): (n: nat)
    ensures n == 0 <==> forall i :: 0 <= i < |aces| ==> !Stray(aces[i], kind)
  {
    if |aces| == 0 then 0
    else
      assert forall i :: 0 < i < |aces| ==> aces[i] == aces[1..][i - 1];
      (if Stray(aces[0], kind) then 1 else 0) + Strays(aces[1..], kind)
  }

  function Blanks(n: nat): seq<Ace> {
    seq(n, _ => BLANK)
  }

  lemma {:induction false} InheritConcat(s: seq<Ace>, t: seq<Ace>, kind: Kind)
    ensures InheritAll(s + t, kind) == InheritAll(s, kind) + InheritAll(t, kind)
    ensures Strays(s + t, kind) == Strays(s, kind) + Strays(t, kind)
  {
    if |s| == 0 {
      assert s + t == t;
    } else {
      assert (s + t)[1..] == s[1..] + t;
      InheritConcat(s[1..], t, kind);
    }
  }

  lemma NextInherited(aces: seq<Ace>, i: nat, kind: Kind)
    requires i < |aces|
    ensures InheritAll(aces[..i + 1], kind) == InheritAll(aces[..i], kind) + Inherited(aces[i], kind)
    ensures Strays(aces[..i + 1], kind) == Strays(aces[..i], kind) + (if Stray(aces[i], kind) then 1 else 0)
    ensures |InheritAll(aces[..i], kind)| + |Inherited(aces[i], kind)| <= |InheritAll(aces, kind)|
  {
    assert aces[..i + 1] == aces[..i] + [aces[i]];
    InheritConcat(aces[..i], [aces[i]], kind);
    assert [aces[i]][1..] == [];
    assert aces == aces[..i + 1] + aces[i + 1..];
    InheritConcat(aces[..i + 1], aces[i + 1..], kind);
  }

  datatype Error = Ok | Exist

  method CountPass(aces: seq<Ace>, kind: Kind) returns (n: nat)
    ensures n == |InheritAll(aces, kind)| + Strays(aces, kind)
  {
    n := 0;
    for i := 0 to |aces|
      invariant n == |InheritAll(aces[..i], kind)| + Strays(aces[..i], kind)
    {
      NextInherited(aces, i, kind);
      if Flag(kind) in aces[i].flag {
        n := n + 1;
      }
      if IsDup(aces[i], kind) {
        n := n + 1;
      }
    }
    assert aces[..|aces|] == aces;
  }

  /** One turn of the filling pass; dup_ace is its last branch but one. */
  method GiveOne(a: Ace, kind: Kind, dst: array<Ace>, at: nat) returns (next: nat)
    requires at + |Inherited(a, kind)| <= dst.Length
    modifies dst
    ensures next == at + |Inherited(a, kind)| && dst[..next] == old(dst[..at]) + Inherited(a, kind)
    ensures forall i :: next <= i < dst.Length ==> dst[i] == old(dst[i])
  {
    next := at;
    if Flag(kind) in a.flag {
      dst[next] := a;
      if NO_PROPAGATE in dst[next].flag {
        dst[next] := a.(flag := a.flag - ALL_INHERIT);
      } else if kind.ForDir? && FILE_INHERIT in a.flag && DIR_INHERIT !in a.flag {
        assert false; // the ACE has DIR_INHERIT, or it would not be copied
      } else if IsDup(dst[next], kind) {
        dst[next + 1] := dst[next];
        dst[next] := dst[next].(flag := dst[next].flag + {INHERIT_ONLY});
        dst[next + 1] := dst[next + 1].(flag := dst[next + 1].flag - ALL_INHERIT);
        next := next + 1;
      }
      next := next + 1;
    }
  }

  /** The filling pass, into a cleared list. */
  method FillPass(aces: seq<Ace>, kind: Kind, dst: array<Ace>) returns (cursor: nat)
    requires |InheritAll(aces, kind)| <= dst.Length
    requires forall k :: 0 <= k < dst.Length ==> dst[k] == BLANK
    modifies dst
    ensures cursor == |InheritAll(aces, kind)| && dst[..cursor] == InheritAll(aces, kind)
    ensures forall k :: cursor <= k < dst.Length ==> dst[k] == BLANK
  {
    cursor := 0;
    for i := 0 to |aces|
      invariant cursor == |InheritAll(aces[..i], kind)| <= dst.Length
      invariant dst[..cursor] == InheritAll(aces[..i], kind)
      invariant forall k :: cursor <= k < dst.Length ==> dst[k] == BLANK
    {
      NextInherited(aces, i, kind);
      cursor := GiveOne(aces[i], kind, dst, cursor);
    }
    assert aces[..|aces|] == aces;
  }

  /** What the new object's ACL is, if anything was counted. */
  function Child(aces: seq<Ace>, kind: Kind): Option<seq<Ace>> {
    if InheritAll(aces, kind) == [] && Strays(aces, kind) == 0 then None
    else Some(InheritAll(aces, kind) + Blanks(Strays(aces, kind)))
  }

  /** fsal_inherit_acls. */
  method InheritAcls(current: Option<seq<Ace>>, sacl: Option<seq<Ace>>, kind: Kind)
    returns (err: Error, acl: Option<seq<Ace>>)
    ensures sacl.None? || sacl.value == [] ==> err == Ok && acl == current
    ensures sacl.Some? && sacl.value != [] && current.Some? && current.value != [] ==>
      err == Exist && acl == current
    ensures sacl.Some? && sacl.value != [] && (current.None? || current.value == []) ==>
      err == Ok && acl == if Child(sacl.value, kind).None? then current else Child(sacl.value, kind)
  {
    if sacl.None? || |sacl.value| == 0 {
      return Ok, current;
    }
    if current.Some? && |current.value| > 0 {
      return Exist, current;
    }
    var aces := sacl.value;
    var naces := CountPass(aces, kind);
    if naces == 0 {
      return Ok, current;
    }
    var dst := new Ace[naces](_ => BLANK);
    var cursor := FillPass(aces, kind, dst);
    assert dst[..] == dst[..cursor] + Blanks(Strays(aces, kind));
    return Ok, Some(dst[..]);
  }

  /** A directory whose only ACE is inherit-only and for nothing: nothing is inherited, and yet the
      new directory gets an ACL, of one blank ACE. */
  lemma StrayIsCounted()
    ensures var stray := Ace(Allow, {READ_DATA}, {INHERIT_ONLY}, {}, 7);
      && Stray(stray, ForDir) && Strays([stray], ForDir) == 1 && InheritAll([stray], ForDir) == []
      && Child([stray], ForDir) == Some([BLANK])
  {
    var stray := Ace(Allow, {READ_DATA}, {INHERIT_ONLY}, {}, 7);
    assert INHERIT_ONLY in stray.flag * INHERIT;
    assert [stray][0] == stray && [stray][1..] == [];
    assert Strays([stray], ForDir) == 1;
    assert InheritAll([stray], ForDir) == [];
    assert [] + Blanks(1) == [BLANK];
  }

  // ----- what the inherited ACL means --------------------------------------------------------------

  /** The ACEs the ACL check looks at. */
  function EffectiveAces(aces: seq<Ace>): seq<Ace> {
    if |aces| == 0 then []
    else (if IsPerm(aces[0]) && INHERIT_ONLY !in aces[0].flag then [aces[0]] else [])
         + EffectiveAces(aces[1..])
  }

  lemma {:induction false} EffectiveConcat(s: seq<Ace>, t: seq<Ace>)
    ensures EffectiveAces(s + t) == EffectiveAces(s) + EffectiveAces(t)
  {
    if |s| == 0 {
      assert s + t == t;
    } else {
      assert (s + t)[1..] == s[1..] + t;
      EffectiveConcat(s[1..], t);
    }
  }

  /** The directory's allow and deny ACEs that are for new directories, in order. */
  function DirAces(aces: seq<Ace>): seq<Ace> {
    if |aces| == 0 then []
    else (if IsPerm(aces[0]) && DIR_INHERIT in aces[0].flag then [Clean(aces[0])] else [])
         + DirAces(aces[1..])
  }

  /** ... and for new files: an inherit-only one only if it is not to go further. */
  function FileAces(aces: seq<Ace>): seq<Ace> {
    if |aces| == 0 then [] else ForFiles(aces[0]) + FileAces(aces[1..])
  }

  function ForFiles(a: Ace): seq<Ace> {
    if !IsPerm(a) || FILE_INHERIT !in a.flag then []
    else if NO_PROPAGATE in a.flag then [Clean(a)]
    else if INHERIT_ONLY in a.flag then [] else [a]
  }

  lemma {:induction false} EffectiveOfChild(aces: seq<Ace>)
    ensures EffectiveAces(InheritAll(aces, ForDir)) == DirAces(aces)
    ensures EffectiveAces(InheritAll(aces, ForFile)) == FileAces(aces)
  {
    if |aces| != 0 {
      var a, rest := aces[0], aces[1..];
      EffectiveOfChild(rest);
      EffectiveConcat(Inherited(a, ForDir), InheritAll(rest, ForDir));
      EffectiveConcat(Inherited(a, ForFile), InheritAll(rest, ForFile));
      EffectiveOne(a);
    }
  }

  lemma EffectiveOne(a: Ace)
    ensures EffectiveAces(Inherited(a, ForDir)) ==
            if IsPerm(a) && DIR_INHERIT in a.flag then [Clean(a)] else []
    ensures EffectiveAces(Inherited(a, ForFile)) ==
            if !IsPerm(a) || FILE_INHERIT !in a.flag then []
            else if NO_PROPAGATE in a.flag then [Clean(a)]
            else if INHERIT_ONLY in a.flag then [] else [a]
  {
    var d := Inherited(a, ForDir);
    if |d| == 2 {
      EffectiveConcat([d[0]], [d[1]]);
      assert d == [d[0]] + [d[1]];
    }
  }

  /** Only the effective ACEs matter to the ACL check, and a blank one never does. */
  lemma {:induction false} OnlyEffectiveDecide(aces: seq<Ace>, c: Creds, o: Obj, b: nat)
    ensures Decision(aces, c, o, b) == Decision(EffectiveAces(aces), c, o, b)
  {
    if |aces| != 0 {
      OnlyEffectiveDecide(aces[1..], c, o, b);
      DecisionConcat([aces[0]], EffectiveAces(aces[1..]), c, o, b);
      assert [] + EffectiveAces(aces[1..]) == EffectiveAces(aces[1..]);
    }
  }

  lemma {:induction false} BlanksDecideNothing(n: nat, c: Creds, o: Obj, b: nat)
    ensures Decision(Blanks(n), c, o, b) == Undecided
  {
    DecisionIsFirstDecider(Blanks(n), c, o, b);
  }

  /** A new directory's ACL decides every bit, for every caller, as the parent's directory-inherit
      ACEs do, even when the two passes disagree. */
  lemma ChildMeaning(aces: seq<Ace>, c: Creds, o: Obj, b: nat, kind: Kind)
    requires Child(aces, kind).Some?
    ensures Decision(Child(aces, kind).value, c, o, b) ==
            Decision(if kind.ForDir? then DirAces(aces) else FileAces(aces), c, o, b)
  {
    DecisionConcat(InheritAll(aces, kind), Blanks(Strays(aces, kind)), c, o, b);
    BlanksDecideNothing(Strays(aces, kind), c, o, b);
    OnlyEffectiveDecide(InheritAll(aces, kind), c, o, b);
    EffectiveOfChild(aces);
  }

  lemma {:induction false} DirsConcat(s: seq<Ace>, t: seq<Ace>)
    ensures DirAces(s + t) == DirAces(s) + DirAces(t)
  {
    if |s| == 0 {
      assert s + t == t;
    } else {
      assert (s + t)[0] == s[0] && (s + t)[1..] == s[1..] + t;
      DirsConcat(s[1..], t);
    }
  }

  lemma {:induction false} FilesConcat(s: seq<Ace>, t: seq<Ace>)
    ensures FileAces(s + t) == FileAces(s) + FileAces(t)
  {
    if |s| == 0 {
      assert s + t == t;
    } else {
      FilesConcat(s[1..], t);
      FirstOfBoth(s, t);
      ThreeParts(ForFiles(s[0]), FileAces(s[1..]), FileAces(t));
    }
  }

  lemma DirConcat(s: seq<Ace>, t: seq<Ace>)
    ensures DirAces(s + t) == DirAces(s) + DirAces(t) && FileAces(s + t) == FileAces(s) + FileAces(t)
  {
    DirsConcat(s, t);
    FilesConcat(s, t);
  }

  /** What an ACE of the directory gives to a new object, on whom: its own permissions, to whom it is for. */
  predicate Gives(a: Ace, c: Creds, o: Obj, b: nat) {
    && b in a.perm && (a.kind.Allow? || (a.kind.Deny? && !c.root)) && (c.root || Matches(a, c, o))
    && (if o.dir then DIR_INHERIT in a.flag && EXCLUDE_DIRS !in a.iflag
        else && FILE_INHERIT in a.flag && EXCLUDE_FILES !in a.iflag
             && (INHERIT_ONLY in a.flag ==> NO_PROPAGATE in a.flag))
  }

  ghost predicate GivesFirst(aces: seq<Ace>, c: Creds, o: Obj, b: nat, i: nat) {
    i < |aces| && Gives(aces[i], c, o, b) && forall j :: 0 <= j < i ==> !Gives(aces[j], c, o, b)
  }

  function ForKind(aces: seq<Ace>, dir: bool): seq<Ace> {
    if dir then DirAces(aces) else FileAces(aces)
  }

  lemma OneGives(a: Ace, c: Creds, o: Obj, b: nat)
    ensures Decision(ForKind([a], o.dir), c, o, b) == if Gives(a, c, o, b) then Settled(a) else Undecided
  {
    assert [a][0] == a && [a][1..] == [];
    OneDecision(a, c, o, b);
    OneDecision(Clean(a), c, o, b);
    assert Matches(Clean(a), c, o) <==> Matches(a, c, o);
    if o.dir {
      assert DirAces([a]) == if IsPerm(a) && DIR_INHERIT in a.flag then [Clean(a)] else [];
    } else {
      assert FileAces([a]) == if !IsPerm(a) || FILE_INHERIT !in a.flag then []
                              else if NO_PROPAGATE in a.flag then [Clean(a)]
                              else if INHERIT_ONLY in a.flag then [] else [a];
    }
  }

  lemma ForKindFirst(aces: seq<Ace>, o: Obj)
    requires aces != []
    ensures ForKind(aces, o.dir) == ForKind([aces[0]], o.dir) + ForKind(aces[1..], o.dir)
  {
    assert aces == [aces[0]] + aces[1..];
    DirConcat([aces[0]], aces[1..]);
  }

  /** Whatever a new object's ACL decides, it is what the first of the directory's ACEs decides that gives
      the bit to that caller on such an object, and it decides nothing only if none does. */
  lemma {:induction false} GivenByFirst(aces: seq<Ace>, c: Creds, o: Obj, b: nat)
    ensures Decision(ForKind(aces, o.dir), c, o, b) == Undecided <==>
            forall i :: 0 <= i < |aces| ==> !Gives(aces[i], c, o, b)
    ensures forall i: nat :: GivesFirst(aces, c, o, b, i) ==>
            Decision(ForKind(aces, o.dir), c, o, b) == Settled(aces[i])
  {
    if |aces| != 0 {
      var a, rest := aces[0], aces[1..];
      GivenByFirst(rest, c, o, b);
      ForKindFirst(aces, o);
      DecisionConcat(ForKind([a], o.dir), ForKind(rest, o.dir), c, o, b);
      OneGives(a, c, o, b);
      assert forall i :: 0 < i < |aces| ==> aces[i] == rest[i - 1];
      assert forall i :: 0 <= i < |rest| ==> rest[i] == aces[i + 1];
      forall i: nat | GivesFirst(aces, c, o, b, i)
        ensures Decision(ForKind(aces, o.dir), c, o, b) == Settled(aces[i])
      {
        if i > 0 {
          assert GivesFirst(rest, c, o, b, i - 1);
        }
      }
    }
  }

  /** So for the ACL of a new object. */
  lemma ChildGivenByFirst(aces: seq<Ace>, c: Creds, o: Obj, b: nat, i: nat)
    requires var kind := if o.dir then ForDir else ForFile; Child(aces, kind).Some?
    ensures var d := Decision(Child(aces, if o.dir then ForDir else ForFile).value, c, o, b);
      && (d == Undecided <==> forall j :: 0 <= j < |aces| ==> !Gives(aces[j], c, o, b))
      && (GivesFirst(aces, c, o, b, i) ==> d == Settled(aces[i]))
  {
    ChildMeaning(aces, c, o, b, if o.dir then ForDir else ForFile);
    GivenByFirst(aces, c, o, b);
  }

  /** An allow or deny ACE that a new directory has got is to be inherited further, and then not for the
      directory itself, or it is for the directory itself, and then has no flag of inheritance left. */
  lemma {:induction false} FlagsOfNewDir(aces: seq<Ace>, a: Ace)
    requires a in InheritAll(aces, ForDir) && IsPerm(a)
    ensures if INHERIT_ONLY in a.flag then DIR_INHERIT in a.flag && NO_PROPAGATE !in a.flag
            else DIR_INHERIT !in a.flag && FILE_INHERIT !in a.flag && NO_PROPAGATE !in a.flag
  {
    if a in Inherited(aces[0], ForDir) {
      assert DIR_INHERIT in aces[0].flag ==> DIR_INHERIT in aces[0].flag * INHERIT;
    } else {
      FlagsOfNewDir(aces[1..], a);
    }
  }

  // ----- after the mode of the directory was set -------------------------------------------------------

  /** A mode gives nothing to children. */
  lemma ModeGivesNothing(mode: Mask)
    ensures DirAces(ModeAces(mode)) == [] && FileAces(ModeAces(mode)) == []
  {
    NothingForChildren(ModeAces(mode));
  }

  lemma {:induction false} NothingForChildren(aces: seq<Ace>)
    requires forall i :: 0 <= i < |aces| ==> DIR_INHERIT !in aces[i].flag && FILE_INHERIT !in aces[i].flag
    ensures DirAces(aces) == [] && FileAces(aces) == []
  {
    if |aces| != 0 {
      NothingForChildren(aces[1..]);
    }
  }

  /** An ACE for the directory and for new files: the copy that is inherit-only is for no file. */
  predicate LostToFiles(a: Ace) {
    IsPerm(a) && FILE_INHERIT in a.flag && NO_PROPAGATE !in a.flag && INHERIT_ONLY !in a.flag
  }

  lemma CopiedForChildren(a: Ace)
    requires MODE_GEN !in a.iflag
    ensures DirAces(Copied(a)) == DirAces([a])
    ensures FileAces(Copied(a)) == if LostToFiles(a) then [] else FileAces([a])
  {
    var p := Copied(a);
    assert [a][0] == a && [a][1..] == [];
    assert DIR_INHERIT in a.flag ==> DIR_INHERIT in a.flag * INHERIT;
    assert FILE_INHERIT in a.flag ==> FILE_INHERIT in a.flag * INHERIT;
    if |p| == 2 {
      assert p == [p[0]] + [p[1]];
      DirConcat([p[0]], [p[1]]);
      assert [p[0]][1..] == [] && [p[1]][1..] == [];
      assert DIR_INHERIT !in p[1].flag && FILE_INHERIT !in p[1].flag;
      assert Clean(p[0]).flag == Clean(a).flag;
    } else {
      assert p == [p[0]] && p[1..] == [];
    }
  }

  /** What of an ACL is still for new files after its directory's mode was set. */
  function LeftToFiles(aces: seq<Ace>): seq<Ace> {
    if |aces| == 0 then []
    else (if LostToFiles(aces[0]) then [] else [aces[0]]) + LeftToFiles(aces[1..])
  }

  lemma {:induction false} CopiesForDirs(aces: seq<Ace>)
    ensures DirAces(CopyAll(aces)) == DirAces(Kept(aces))
  {
    if |aces| != 0 {
      var a, rest := aces[0], aces[1..];
      CopiesForDirs(rest);
      DirConcat(Copied(a), CopyAll(rest));
      if MODE_GEN in a.iflag {
        assert [] + Kept(rest) == Kept(rest);
      } else {
        CopiedForChildren(a);
        DirConcat([a], Kept(rest));
      }
    }
  }

  lemma {:induction false} CopiesForFiles(aces: seq<Ace>)
    ensures FileAces(CopyAll(aces)) == FileAces(LeftToFiles(Kept(aces)))
  {
    if |aces| != 0 {
      var a, rest := aces[0], aces[1..];
      CopiesForFiles(rest);
      DirConcat(Copied(a), CopyAll(rest));
      if MODE_GEN in a.iflag {
        assert [] + Kept(rest) == Kept(rest);
      } else {
        CopiedForChildren(a);
        LeftOfFirst(a, Kept(rest));
      }
    }
  }

  lemma LeftOfFirst(a: Ace, rest: seq<Ace>)
    ensures FileAces(LeftToFiles([a] + rest)) ==
            (if LostToFiles(a) then [] else FileAces([a])) + FileAces(LeftToFiles(rest))
  {
    assert ([a] + rest)[1..] == rest;
    DirConcat(if LostToFiles(a) then [] else [a], LeftToFiles(rest));
  }

  lemma {:induction false} LeftIsAllIff(aces: seq<Ace>)
    ensures |FileAces(LeftToFiles(aces))| <= |FileAces(aces)|
    ensures FileAces(LeftToFiles(aces)) == FileAces(aces) <==>
            forall i :: 0 <= i < |aces| ==> !LostToFiles(aces[i])
  {
    if |aces| != 0 {
      var a, rest := aces[0], aces[1..];
      LeftIsAllIff(rest);
      assert aces == [a] + rest;
      LeftOfFirst(a, rest);
      DirConcat([a], rest);
      assert forall i :: 0 < i < |aces| ==> aces[i] == rest[i - 1];
      assert forall i :: 0 <= i < |rest| ==> rest[i] == aces[i + 1];
      assert LostToFiles(a) ==> |FileAces([a])| == 1;
      var h, x, y := FileAces([a]), FileAces(LeftToFiles(rest)), FileAces(rest);
      assert x == (h + x)[|h|..] && y == (h + y)[|h|..];
    }
  }

  /** For every source and mode: setting a directory's mode takes nothing from new directories but what came
      from a mode, and from new files nothing else iff no ACE was both for the directory itself and for new
      files and theirs. */
  lemma ModeKeepsInheritance(aces: seq<Ace>, mode: Mask)
    ensures DirAces(CopyAll(aces) + ModeAces(mode)) == DirAces(Kept(aces))
    ensures FileAces(CopyAll(aces) + ModeAces(mode)) == FileAces(Kept(aces)) <==>
            forall i :: 0 <= i < |Kept(aces)| ==> !LostToFiles(Kept(aces)[i])
  {
    ModeGivesNothing(mode);
    DirConcat(CopyAll(aces), ModeAces(mode));
    CopiesForDirs(aces);
    CopiesForFiles(aces);
    LeftIsAllIff(Kept(aces));
  }

  lemma OneAfterMode(a: Ace, mode: Mask, dir: bool)
    requires MODE_GEN !in a.iflag
    ensures ForKind(CopyAll([a]) + ModeAces(mode), dir) == if !dir && LostToFiles(a) then [] else ForKind([a], dir)
  {
    assert [a][0] == a && [a][1..] == [] && Copied(a) + [] == Copied(a);
    ModeGivesNothing(mode);
    DirConcat(Copied(a), ModeAces(mode));
    CopiedForChildren(a);
  }

  /** User 7 may read what is made in the directory by an ACE for it, and, once the mode was set, new
      directories still, but no new files. */
  lemma NewFilesLoseRead(dir: bool)
    ensures var a := Ace(Allow, {READ_DATA}, {DIR_INHERIT, FILE_INHERIT}, {}, 7);
      var c, o := Creds(7, 100, [], false), Obj(0, 0, dir, {});
      && Decision(ForKind([a], dir), c, o, READ_DATA) == Allowed
      && Decision(ForKind(CopyAll([a]) + ModeAces({}), dir), c, o, READ_DATA) == if dir then Allowed else Undecided
  {
    var a := Ace(Allow, {READ_DATA}, {DIR_INHERIT, FILE_INHERIT}, {}, 7);
    var c, o := Creds(7, 100, [], false), Obj(0, 0, dir, {});
    OneGives(a, c, o, READ_DATA);
    OneAfterMode(a, {}, dir);
  }

  // ----- down a chain of directories -----------------------------------------------------------------

  function Next(acl: Option<seq<Ace>>): Option<seq<Ace>> {
    if acl.None? then None else Child(acl.value, ForDir)
  }

  /** The ACL of the n-th directory below one that has `acl`. */
  function Generation(acl: Option<seq<Ace>>, n: nat): Option<seq<Ace>> {
    if n == 0 then acl else Next(Generation(acl, n - 1))
  }

  /** What a directory's ACE leaves to its grandchildren: what it leaves to its children, unless it
      is not to go further. */
  function Lasting(aces: seq<Ace>): seq<Ace> {
    if |aces| == 0 then []
    else (if NO_PROPAGATE in aces[0].flag then [] else Inherited(aces[0], ForDir)) + Lasting(aces[1..])
  }

  lemma InheritedTwice(a: Ace)
    ensures InheritAll(Inherited(a, ForDir), ForDir) ==
            if NO_PROPAGATE in a.flag then [] else Inherited(a, ForDir)
    ensures Strays(Inherited(a, ForDir), ForDir) == 0
  {
    var d := Inherited(a, ForDir);
    if |d| == 2 {
      InheritConcat([d[0]], [d[1]], ForDir);
      assert d == [d[0]] + [d[1]];
      assert d[0].flag + {INHERIT_ONLY} == d[0].flag && INHERIT_ONLY in d[0].flag * INHERIT;
      assert d[0].flag - ALL_INHERIT == d[1].flag;
      assert Inherited(d[0], ForDir) == d;
      assert InheritAll([d[0]], ForDir) == d && InheritAll([d[1]], ForDir) == [];
    } else if |d| == 1 {
      assert InheritAll(d, ForDir) == Inherited(d[0], ForDir) + [];
    }
  }

  lemma {:induction false} GrandchildLasting(aces: seq<Ace>)
    ensures InheritAll(InheritAll(aces, ForDir), ForDir) == Lasting(aces)
    ensures Strays(InheritAll(aces, ForDir), ForDir) == 0
  {
    if |aces| != 0 {
      var a, rest := aces[0], aces[1..];
      InheritConcat(Inherited(a, ForDir), InheritAll(rest, ForDir), ForDir);
      InheritedTwice(a);
      GrandchildLasting(rest);
    }
  }

  lemma {:induction false} LastingLasts(aces: seq<Ace>)
    ensures InheritAll(Lasting(aces), ForDir) == Lasting(aces) && Strays(Lasting(aces), ForDir) == 0
  {
    if |aces| != 0 {
      var a, rest := aces[0], aces[1..];
      var first := if NO_PROPAGATE in a.flag then [] else Inherited(a, ForDir);
      InheritConcat(first, Lasting(rest), ForDir);
      InheritedTwice(a);
      LastingLasts(rest);
    }
  }

  lemma BlanksGiveNothing(n: nat)
    ensures InheritAll(Blanks(n), ForDir) == [] && Strays(Blanks(n), ForDir) == 0
  {
    if n != 0 {
      BlanksGiveNothing(n - 1);
      assert Blanks(n)[1..] == Blanks(n - 1);
    }
  }

  /** The grandchildren's ACL. */
  lemma SecondGeneration(aces: seq<Ace>)
    ensures Generation(Some(aces), 2) == if Lasting(aces) == [] then None else Some(Lasting(aces))
  {
    var first := Child(aces, ForDir);
    assert Generation(Some(aces), 1) == Next(Generation(Some(aces), 0)) == first;
    GrandchildLasting(aces);
    if first.Some? {
      var n := Strays(aces, ForDir);
      InheritConcat(InheritAll(aces, ForDir), Blanks(n), ForDir);
      BlanksGiveNothing(n);
      assert Lasting(aces) + [] == Lasting(aces);
      assert Lasting(aces) + Blanks(0) == Lasting(aces);
    }
  }

  /** Down any chain of directories the ACL is unchanged from the second generation on. */
  lemma {:induction false} StableFromSecondGeneration(acl: Option<seq<Ace>>, n: nat)
    requires n >= 2
    ensures Generation(acl, n) == Generation(acl, 2)
  {
    if acl.None? {
      NoAclBelow(n);
      NoAclBelow(2);
    } else {
      var aces := acl.value;
      SecondGeneration(aces);
      if n > 2 {
        StableFromSecondGeneration(acl, n - 1);
        LastingLasts(aces);
        assert Lasting(aces) + Blanks(0) == Lasting(aces);
      }
    }
  }

  lemma {:induction false} NoAclBelow(n: nat)
    ensures Generation(None, n) == None
  {
    if n != 0 {
      NoAclBelow(n - 1);
    }
  }

  /** It is already unchanged from the first iff nothing for directories stops after one level and
      nothing was counted that is not copied. */
  lemma StableFromFirstGeneration(aces: seq<Ace>)
    ensures Generation(Some(aces), 1) == Generation(Some(aces), 2) <==>
            forall i :: 0 <= i < |aces| ==>
              !Stray(aces[i], ForDir) && !(DIR_INHERIT in aces[i].flag && NO_PROPAGATE in aces[i].flag)
  {
    SecondGeneration(aces);
    assert Generation(Some(aces), 1) == Next(Generation(Some(aces), 0)) == Child(aces, ForDir);
    LastingShorter(aces);
    assert InheritAll(aces, ForDir) + Blanks(0) == InheritAll(aces, ForDir);
  }

  lemma {:induction false} LastingShorter(aces: seq<Ace>)
    ensures |Lasting(aces)| <= |InheritAll(aces, ForDir)|
    ensures |Lasting(aces)| == |InheritAll(aces, ForDir)| <==>
            forall i :: 0 <= i < |aces| ==> !(DIR_INHERIT in aces[i].flag && NO_PROPAGATE in aces[i].flag)
    ensures |Lasting(aces)| == |InheritAll(aces, ForDir)| ==> Lasting(aces) == InheritAll(aces, ForDir)
  {
    if |aces| != 0 {
      LastingShorter(aces[1..]);
      assert forall i :: 0 < i < |aces| ==> aces[i] == aces[1..][i - 1];
    }
  }
}
