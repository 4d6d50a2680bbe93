/** Which filesystems release_posix_file_system takes out of the tree. */
module Releases {
  import opened Claims
  import opened Options

  predicate Owning(s: Forest, g: nat) {
    g in s.acct && s.acct[g].fsal.Some?
  }

  /** Some filesystem at or below `f` is claimed. */
  ghost predicate HasClaimed(s: Forest, f: nat) {
    exists h :: Below(s.tree, h, f) && Owning(s, h)
  }

  ghost predicate SomeClaimed(s: Forest, fs: set<nat>) {
    exists c :: c in fs && HasClaimed(s, c)
  }

  lemma OneMoreClaimed(s: Forest, fs: set<nat>, todo: set<nat>, c: nat)
    requires c in todo && todo <= fs
    ensures SomeClaimed(s, fs - (todo - {c})) <==> SomeClaimed(s, fs - todo) || HasClaimed(s, c)
  {
    assert fs - (todo - {c}) == fs - todo + {c};
  }

  /** Part of the filesystems are left, as they were; those that went were at or below `f` and had
      nothing claimed at or below them. */
  ghost predicate Trimmed(s0: Forest, s: Forest, f: nat) {
    && s.maps == s0.maps && s.next == s0.next && s.tree.Keys == s.acct.Keys
    && (forall g :: g in s.tree ==>
          g in s0.tree && g in s0.acct && s.tree[g] == s0.tree[g] && s.acct[g] == s0.acct[g])
    && (forall g {:trigger HasClaimed(s0, g)} :: g in s0.tree && g !in s.tree ==>
          Below(s0.tree, g, f) && !HasClaimed(s0, g))
  }

  /** All that could go from `c` down has gone. */
  ghost predicate NoneIdle(s0: Forest, s: Forest, c: nat) {
    forall g {:trigger HasClaimed(s0, g)} :: Below(s0.tree, g, c) && !HasClaimed(s0, g) ==> g !in s.tree
  }

  /** Nothing has gone from `c` down. */
  ghost predicate Intact(s0: Forest, s: Forest, c: nat) {
    forall g :: Below(s0.tree, g, c) ==> g in s.tree
  }

  /** In a tree that has lost nothing from `c` down, what is below `c` is the same. */
  lemma {:induction false} BelowSame(s0: Forest, s: Forest, f: nat, c: nat, g: nat)
    requires Trimmed(s0, s, f) && Intact(s0, s, c)
    ensures Below(s.tree, g, c) <==> Below(s0.tree, g, c)
    decreases if g in s0.tree then |s0.tree[g].path| else 0
  {
    if g in s0.tree && g != c && s0.tree[g].parent.Some? && s0.tree[g].parent.value in s0.tree
       && |s0.tree[s0.tree[g].parent.value].path| < |s0.tree[g].path|
    {
      BelowSame(s0, s, f, c, s0.tree[g].parent.value);
    }
  }

  lemma ClaimedSame(s0: Forest, s: Forest, f: nat, c: nat, g: nat)
    requires Trimmed(s0, s, f) && Intact(s0, s, c) && Below(s0.tree, g, c)
    ensures HasClaimed(s, g) <==> HasClaimed(s0, g)
  {
    forall h | Below(s0.tree, h, g) ensures h in s.tree {
      BelowTwice(s0.tree, h, g, c);
    }
    assert Intact(s0, s, g);
    forall h ensures Below(s.tree, h, g) <==> Below(s0.tree, h, g) {
      BelowSame(s0, s, f, g, h);
    }
    if HasClaimed(s0, g) {
      var h :| Below(s0.tree, h, g) && Owning(s0, h);
      assert h in s.tree && Owning(s, h);
    }
  }

  /** A filesystem below which something is claimed has something claimed below its parent too. */
  lemma ClaimedUp(s: Forest, g: nat, f: nat)
    requires Below(s.tree, g, f) && HasClaimed(s, g)
    ensures HasClaimed(s, f)
  {
    var h :| Below(s.tree, h, g) && Owning(s, h);
    BelowTwice(s.tree, h, g, f);
  }

  lemma ClaimedIff(s: Forest, f: nat)
    requires f in s.tree && (forall c :: c in Children(s.tree, f) ==> Below(s.tree, c, f))
    ensures HasClaimed(s, f) <==> Owning(s, f) || SomeClaimed(s, Children(s.tree, f))
  {
    if HasClaimed(s, f) && !Owning(s, f) {
      var h :| Below(s.tree, h, f) && Owning(s, h);
      var c := ChildAbove(s.tree, h, f);
      assert HasClaimed(s, c);
    }
    forall c | c in Children(s.tree, f) && HasClaimed(s, c) ensures HasClaimed(s, f) {
      ClaimedUp(s, c, f);
    }
    assert Below(s.tree, f, f);
  }

  // ----- one child released -----

  /** Before and after one child of `f` is released, with the children released so far. */
  ghost predicate ChildReleased(s0: Forest, s1: Forest, s2: Forest, f: nat, c: nat, bound: nat) {
    && TreeOk(s0.tree, bound) && f in s0.tree && c in Children(s0.tree, f)
    && Trimmed(s0, s1, f) && Intact(s0, s1, c)
    && Trimmed(s1, s2, c) && NoneIdle(s1, s2, c)
  }

  lemma AfterChild(s0: Forest, s1: Forest, s2: Forest, f: nat, c: nat, bound: nat)
    requires ChildReleased(s0, s1, s2, f, c, bound) && f in s1.tree
    ensures Trimmed(s0, s2, f) && NoneIdle(s0, s2, c) && f in s2.tree
  {
    ChildBelow(s0.tree, f, c);
    forall g | g in s0.tree && g !in s2.tree ensures Below(s0.tree, g, f) && !HasClaimed(s0, g) && g != f {
      assert g !in s1.tree ==> !HasClaimed(s0, g);
      if g in s1.tree {
        assert !HasClaimed(s1, g);
        BelowSame(s0, s1, f, c, g);
        ClaimedSame(s0, s1, f, c, g);
        BelowTwice(s0.tree, g, c, f);
        BelowLonger(s0.tree, g, c);
      }
    }
    forall g | Below(s0.tree, g, c) && !HasClaimed(s0, g) ensures g !in s2.tree {
      BelowSame(s0, s1, f, c, g);
      ClaimedSame(s0, s1, f, c, g);
    }
  }

  lemma AfterChildOthers(s0: Forest, s1: Forest, s2: Forest, f: nat, c: nat, d: nat, bound: nat)
    requires ChildReleased(s0, s1, s2, f, c, bound) && d in Children(s0.tree, f) && d != c
    ensures NoneIdle(s0, s1, d) ==> NoneIdle(s0, s2, d)
    ensures Intact(s0, s1, d) ==> Intact(s0, s2, d)
  {
    forall g | Below(s0.tree, g, d) && g in s1.tree ensures g in s2.tree {
      if g !in s2.tree {
        assert !HasClaimed(s1, g);
        BelowSame(s0, s1, f, c, g);
        OneChildAbove(s0.tree, g, f, c, d);
      }
    }
    if NoneIdle(s0, s1, d) {
      forall g | Below(s0.tree, g, d) && !HasClaimed(s0, g) ensures g !in s2.tree {
        assert g !in s1.tree;
      }
    }
  }

  /** The children released so far have nothing left to release; the others, `todo`, are untouched. */
  ghost predicate ChildrenDone(s0: Forest, s: Forest, f: nat, todo: set<nat>) {
    && (forall c {:trigger NoneIdle(s0, s, c)} :: c in Children(s0.tree, f) - todo ==> NoneIdle(s0, s, c))
    && (forall c {:trigger Intact(s0, s, c)} :: c in todo ==> Intact(s0, s, c))
  }

  lemma AfterChildAll(s0: Forest, s1: Forest, s2: Forest, f: nat, c: nat, todo: set<nat>, bound: nat)
    requires ChildReleased(s0, s1, s2, f, c, bound) && c in todo && todo <= Children(s0.tree, f)
    requires ChildrenDone(s0, s1, f, todo) && NoneIdle(s0, s2, c)
    ensures ChildrenDone(s0, s2, f, todo - {c})
  {
    forall d | d in Children(s0.tree, f) - (todo - {c}) ensures NoneIdle(s0, s2, d) {
      if d != c {
        assert NoneIdle(s0, s1, d);
        AfterChildOthers(s0, s1, s2, f, c, d, bound);
      }
    }
    forall d | d in todo - {c} ensures Intact(s0, s2, d) {
      assert Intact(s0, s1, d);
      AfterChildOthers(s0, s1, s2, f, c, d, bound);
    }
  }

  /** A child that is still to be released is there, with all below it. */
  lemma ChildThere(s0: Forest, s1: Forest, f: nat, c: nat, bound: nat)
    requires TreeOk(s0.tree, bound) && f in s0.tree && c in Children(s0.tree, f) && Trimmed(s0, s1, f)
    requires Intact(s0, s1, c)
    ensures c in s1.tree && |s0.tree[f].path| < |s1.tree[c].path| && s1.tree[c] == s0.tree[c]
    ensures HasClaimed(s1, c) <==> HasClaimed(s0, c)
  {
    ChildBelow(s0.tree, f, c);
    assert Below(s0.tree, c, c);
    ClaimedSame(s0, s1, f, c, c);
  }

  lemma ChildrenClaimed(s0: Forest, s1: Forest, f: nat, bound: nat)
    requires TreeOk(s0.tree, bound) && f in s0.tree && Trimmed(s0, s1, f) && f in s1.tree
    requires ChildrenDone(s0, s1, f, {})
    ensures HasClaimed(s0, f) <==>
            s1.acct[f].fsal.Some? || SomeClaimed(s0, Children(s0.tree, f))
    ensures HasClaimed(s0, f) ==> NoneIdle(s0, s1, f)
    ensures !HasClaimed(s0, f) ==> ReleasedAll(s0, s1, f)
  {
    forall c | c in Children(s0.tree, f) ensures Below(s0.tree, c, f) {
      ChildBelow(s0.tree, f, c);
    }
    ClaimedIff(s0, f);
    forall g | Below(s0.tree, g, f) && g != f && !HasClaimed(s0, g) ensures g !in s1.tree {
      var c := ChildAbove(s0.tree, g, f);
      assert NoneIdle(s0, s1, c);
    }
    if !HasClaimed(s0, f) {
      forall g | Below(s0.tree, g, f) && g != f ensures g !in s1.tree {
        if HasClaimed(s0, g) {
          ClaimedUp(s0, g, f);
        }
      }
    }
  }

  /** Of what was at or below `f`, only `f` is left. */
  ghost predicate ReleasedAll(s0: Forest, s: Forest, f: nat) {
    forall g :: Below(s0.tree, g, f) && g != f ==> g !in s.tree
  }

  function Unmounted(s: Forest, f: nat): Forest {
    s.(tree := s.tree - {f}, acct := s.acct - {f})
  }

  lemma RemovedInv(s0: Forest, s1: Forest, f: nat, bound: nat)
    requires TreeOk(s0.tree, bound) && f in s0.tree && Trimmed(s0, s1, f) && f in s1.tree
    requires Inv(s1, {}, map[]) && TreeOk(s1.tree, bound)
    requires s1.acct[f].fsal.None? && ReleasedAll(s0, s1, f)
    ensures Inv(Unmounted(s1, f), {}, map[]) && TreeOk(Unmounted(s1, f).tree, bound)
  {
    var s2 := Unmounted(s1, f);
    RemovedTree(s0, s1, f, bound);
    assert AccountOk(s1, f, {});
    forall g | g in s2.acct ensures AccountOk(s2, g, {}) {
      assert AccountOk(s1, g, {});
      SameAccount(s1, s2, g, {}, {});
    }
    forall x | x in s2.maps ensures MapOk(s2, x, map[]) {
      assert MapOk(s1, x, map[]);
      RemovedMap(s1, f, x);
    }
  }

  lemma RemovedTree(s0: Forest, s1: Forest, f: nat, bound: nat)
    requires TreeOk(s0.tree, bound) && f in s0.tree && Trimmed(s0, s1, f) && f in s1.tree
    requires TreeOk(s1.tree, bound) && ReleasedAll(s0, s1, f)
    ensures TreeOk(Unmounted(s1, f).tree, bound)
  {
    var tree := Unmounted(s1, f).tree;
    forall g | g in tree ensures tree[g].parent != Some(f) {
      if tree[g].parent == Some(f) {
        ChildBelow(s0.tree, f, g);
      }
    }
  }

  lemma RemovedMap(s1: Forest, f: nat, x: nat)
    requires x in s1.maps && MapOk(s1, x, map[]) && f in s1.acct && AccountOk(s1, f, {}) && s1.acct[f].fsal.None?
    ensures MapOk(Unmounted(s1, f), x, map[])
  {
    if s1.maps[x].fs == f {
      NoneOfKind(s1, f, {}, x);
    }
  }

  lemma RemovedTrimmed(s0: Forest, s1: Forest, f: nat)
    requires Trimmed(s0, s1, f) && f in s0.tree && ReleasedAll(s0, s1, f) && !HasClaimed(s0, f)
    ensures Trimmed(s0, Unmounted(s1, f), f) && NoneIdle(s0, Unmounted(s1, f), f)
  {
    var s2 := Unmounted(s1, f);
    assert Below(s0.tree, f, f);
    forall g | g in s0.tree && g !in s2.tree ensures !HasClaimed(s0, g) && Below(s0.tree, g, f) {
      assert g != f ==> g !in s1.tree;
    }
    assert s2.tree.Keys == s1.tree.Keys - {f} && s2.acct.Keys == s1.acct.Keys - {f};
  }

  /** What release leaves at or below `f` is exactly what is claimed and all that it is mounted
      under; elsewhere everything. */
  lemma LeftExactlyClaimed(s0: Forest, s: Forest, f: nat)
    requires Trimmed(s0, s, f) && NoneIdle(s0, s, f)
    ensures forall g :: g in s0.tree ==> (g in s.tree <==> (Below(s0.tree, g, f) ==> HasClaimed(s0, g)))
  {
    forall g | g in s0.tree ensures g in s.tree <==> (Below(s0.tree, g, f) ==> HasClaimed(s0, g)) {
      assert HasClaimed(s0, g) || !HasClaimed(s0, g);
    }
  }

  /** What is left is just as claimed as it was. */
  lemma LeftStillClaimed(s0: Forest, s: Forest, f: nat)
    requires Trimmed(s0, s, f) && NoneIdle(s0, s, f)
    ensures forall g :: g in s0.tree ==> (g in s.tree <==> (Below(s0.tree, g, f) ==> HasClaimed(s, g)))
  {
    forall g | g in s0.tree ensures g in s.tree <==> (Below(s0.tree, g, f) ==> HasClaimed(s, g)) {
      LeftExactlyClaimed(s0, s, f);
      if g in s.tree && Below(s0.tree, g, f) {
        var h :| Below(s0.tree, h, g) && Owning(s0, h);
        assert Below(s0.tree, h, h) && HasClaimed(s0, h);
        StillBelow(s0, s, f, h, g);
        assert Owning(s, h);
      }
      if HasClaimed(s, g) {
        var h :| Below(s.tree, h, g) && Owning(s, h);
        BelowLonger(s.tree, h, g);
      }
    }
  }

  lemma {:induction false} StillBelow(s0: Forest, s: Forest, f: nat, h: nat, g: nat)
    requires Trimmed(s0, s, f) && NoneIdle(s0, s, f) && Below(s0.tree, h, g) && HasClaimed(s0, h) && g in s.tree
    ensures Below(s.tree, h, g)
    decreases if h in s0.tree then |s0.tree[h].path| else 0
  {
    LeftExactlyClaimed(s0, s, f);
    if h != g {
      var p := s0.tree[h].parent.value;
      assert Below(s0.tree, p, p);
      assert Below(s0.tree, h, p);
      ClaimedUp(s0, h, p);
      StillBelow(s0, s, f, p, g);
    }
  }
}
