/** Exports that claim and unclaim, one after the other: when every export's root_fs stays mounted. */
module ClaimRuns {
  import opened ClaimEffects
  import opened ClaimEnds
  import opened Claims
  import opened Options
  import opened Releases

  /** The claims, and root_fs of each export that has one. */
  datatype Claimants = Claimants(s: Forest, roots: map<Export, nat>)

  /** A claim that was made on `f`: exactly the claims that it ends have gone, and `f` is the export's
      root_fs, whatever kind of claim it is. */
  ghost predicate ClaimStep(w: Claimants, w': Claimants, f: nat, path: string, exp: Export) {
    && f in w.s.tree && f in w.s.acct && w'.s.tree == w.s.tree && w'.roots == w.roots[exp := f]
    && (w.s.acct[f].fsal == Some(exp.fsal) || (w.s.acct[f].root == 0 && w.s.acct[f].subtree == 0))
    && var kind := KindOf(Some(path), w.s.tree[f].path);
       && w.s.next in w'.s.maps && w'.s.maps[w.s.next] == ClaimMap(exp, f, kind, None) && SameMaps(w.s, w'.s)
       && (forall x :: x in w'.s.maps && x !in w.s.maps ==> w'.s.maps[x].exp == exp)
       && OnFilesystem(w.s, w'.s, f, Ousts(w.s.acct[f], kind, exp.fsal), w.s.next)
       && GoneExactly(w.s, w'.s, Ends(w.s, w'.s, f, kind, Some(path), exp))
  }

  /** What release leaves of the tree. */
  ghost predicate LeftOf(s0: Forest, s: Forest, f: nat) {
    && s.maps == s0.maps && s.next == s0.next
    && (forall g :: g in s.tree ==> g in s0.tree && s.tree[g] == s0.tree[g])
    && (forall g :: g in s0.tree ==> (g in s.tree <==> (Below(s0.tree, g, f) ==> HasClaimed(s, g))))
  }

  /** All claims of an export go, and then all filesystems at or below its root_fs with nothing claimed
      at or below them. */
  ghost predicate UnclaimStep(w: Claimants, w': Claimants, exp: Export) {
    && w'.roots == w.roots - {exp}
    && w'.s.maps.Keys == (set x | x in w.s.maps && w.s.maps[x].exp != exp)
    && (forall x :: x in w'.s.maps ==> w'.s.maps[x] == w.s.maps[x])
    && (forall g :: g in w'.s.tree ==> g in w.s.tree && w'.s.tree[g] == w.s.tree[g])
    && (if exp in w.roots && w.roots[exp] in w.s.tree
        then forall g :: g in w.s.tree ==>
               (g in w'.s.tree <==> (Below(w.s.tree, g, w.roots[exp]) ==> HasClaimed(w'.s, g)))
        else w'.s.tree == w.s.tree)
  }

  /** The claim takes another export's root_fs from under it. */
  ghost predicate StripsAt(w: Claimants, f: nat, path: string, exp: Export) {
    && f in w.s.acct && f in w.s.tree
    && Strips(w.s, w.roots, f, KindOf(Some(path), w.s.tree[f].path), exp)
  }

  /** A claim keeps every export's claim on its root_fs iff it strips none. */
  lemma ClaimKeepsIff(w: Claimants, w': Claimants, f: nat, path: string, exp: Export)
    requires Inv(w.s, {}, map[]) && RootsOk(w.s, w.roots) && ClaimStep(w, w', f, path, exp)
    ensures RootsOk(w'.s, w'.roots) <==> !StripsAt(w, f, path, exp)
    ensures StripsAt(w, f, path, exp) ==>
      && KindOf(Some(path), w.s.tree[f].path) == RootClaim && w.s.acct[f].child > 0 && w.s.acct[f].subtree > 0
  {
    var kind := KindOf(Some(path), w.s.tree[f].path);
    RootsKeptIff(w.s, w'.s, w.roots, f, kind, Some(path), exp, w.s.next);
    if StripsAt(w, f, path, exp) {
      StripsMeans(w.s, w.roots, f, kind, exp);
    }
  }

  lemma UnclaimKeeps(w: Claimants, w': Claimants, exp: Export)
    requires RootsOk(w.s, w.roots) && UnclaimStep(w, w', exp)
    ensures RootsOk(w'.s, w'.roots)
  {
    RootsLeft(w.s, w'.s, w.roots, exp);
  }

  // ----- runs ---------------------------------------------------------------------------------------------

  ghost predicate ClaimsWell(w: Claimants, w': Claimants) {
    exists f: nat, path: string, exp: Export :: ClaimStep(w, w', f, path, exp) && !StripsAt(w, f, path, exp)
  }

  ghost predicate Unclaims(w: Claimants, w': Claimants) {
    exists exp: Export :: UnclaimStep(w, w', exp)
  }

  /** A step: nothing, because a claim was refused; a claim that strips nobody; or an export that goes. */
  ghost predicate GoodStep(w: Claimants, w': Claimants) {
    Inv(w'.s, {}, map[]) && (w' == w || ClaimsWell(w, w') || Unclaims(w, w'))
  }

  ghost predicate GoodRun(r: seq<Claimants>) {
    && |r| > 0 && Rooted(r[0].s.tree) && r[0] == Claimants(Unclaimed(r[0].s.tree), map[])
    && forall k :: 0 <= k < |r| - 1 ==> GoodStep(r[k], r[k + 1])
  }

  /** In every run in which no claim strips an export of its root_fs, every export's root_fs is mounted
      in every state: no claim of one export, and no release for another, ever takes it away. */
  lemma {:induction false} RootFsMounted(r: seq<Claimants>, k: nat)
    requires GoodRun(r) && k < |r|
    ensures Inv(r[k].s, {}, map[]) && RootsOk(r[k].s, r[k].roots) && Mounted(r[k].s, r[k].roots)
  {
    if k == 0 {
      UnclaimedInv(r[0].s.tree);
    } else {
      RootFsMounted(r, k - 1);
      var w, w' := r[k - 1], r[k];
      assert GoodStep(w, w');
      if ClaimsWell(w, w') {
        var f: nat, path: string, exp: Export :| ClaimStep(w, w', f, path, exp) && !StripsAt(w, f, path, exp);
        ClaimKeepsIff(w, w', f, path, exp);
      } else if Unclaims(w, w') {
        var exp: Export :| UnclaimStep(w, w', exp);
        UnclaimKeeps(w, w', exp);
      }
      RootsMounted(w'.s, w'.roots);
    }
  }

  // ----- after an export has been stripped ------------------------------------------------------------------

  /** The export has no claim at or below its root_fs. */
  ghost predicate Bare(w: Claimants, e: Export) {
    e in w.roots && forall x :: x in w.s.maps && w.s.maps[x].exp == e ==> !Below(w.s.tree, w.s.maps[x].fs, w.roots[e])
  }

  /** Every claim at or below `f` goes back to one on `f`, or to one of its export's own strictly below. */
  lemma {:induction false} GoesBack(s: Forest, x: nat, f: nat) returns (t: nat)
    requires Inv(s, {}, map[]) && x in s.maps && Below(s.tree, s.maps[x].fs, f)
    ensures t in s.maps && s.maps[t].exp == s.maps[x].exp && Below(s.tree, s.maps[t].fs, f)
    ensures s.maps[t].fs == f || s.maps[t].parent.None?
    decreases x
  {
    assert MapOk(s, x, map[]);
    if s.maps[x].fs == f || s.maps[x].parent.None? {
      t := x;
    } else {
      t := GoesBack(s, s.maps[x].parent.value, f);
    }
  }

  /** A claim that strips an export leaves it bare, unless it has a claim of its own strictly below. */
  lemma StrippedIsBare(w: Claimants, w': Claimants, f: nat, path: string, exp: Export, e: Export)
    requires Inv(w'.s, {}, map[]) && ClaimStep(w, w', f, path, exp) && StripsAt(w, f, path, exp)
    requires e in w.roots && e != exp && w.roots[e] == f
    requires forall x :: x in w.s.maps && w.s.maps[x].exp == e && w.s.maps[x].parent.None? ==>
               w.s.maps[x].fs == f || !Below(w.s.tree, w.s.maps[x].fs, f)
    ensures Bare(w', e) && exp in w'.roots && w'.roots[exp] == w'.roots[e]
  {
    forall x | x in w'.s.maps && w'.s.maps[x].exp == e ensures !Below(w'.s.tree, w'.s.maps[x].fs, f) {
      if Below(w'.s.tree, w'.s.maps[x].fs, f) {
        var t := GoesBack(w'.s, x, f);
      }
    }
  }

  lemma {:induction false} BelowLess(small: map<nat, Mount>, big: map<nat, Mount>, g: nat, f: nat)
    requires (forall h :: h in small ==> h in big && small[h] == big[h]) && Below(small, g, f)
    ensures Below(big, g, f)
    decreases if g in small then |small[g].path| else 0
  {
    if g != f {
      BelowLess(small, big, small[g].parent.value, f);
    }
  }

  /** It has none after another export has gone either. */
  lemma StillBare(w: Claimants, w': Claimants, e: Export, exp: Export)
    requires Bare(w, e) && UnclaimStep(w, w', exp) && exp != e
    ensures Bare(w', e)
  {
    forall x | x in w'.s.maps && w'.s.maps[x].exp == e ensures !Below(w'.s.tree, w'.s.maps[x].fs, w'.roots[e]) {
      assert x in w.s.maps;
      if Below(w'.s.tree, w'.s.maps[x].fs, w'.roots[e]) {
        BelowLess(w'.s.tree, w.s.tree, w'.s.maps[x].fs, w'.roots[e]);
      }
    }
  }

  /** When the last other claim at or below goes, by an export with the same root_fs, it is not mounted
      any more. */
  lemma BareDangles(w: Claimants, w': Claimants, e: Export, l: Export)
    requires Inv(w'.s, {}, map[]) && Bare(w, e) && e != l && l in w.roots && w.roots[l] == w.roots[e]
    requires UnclaimStep(w, w', l) && w.roots[e] in w.s.tree
    requires forall x :: x in w.s.maps ==> w.s.maps[x].exp == e || w.s.maps[x].exp == l
    ensures e in w'.roots && w'.roots[e] !in w'.s.tree
  {
    var f := w.roots[e];
    StillBare(w, w', e, l);
    assert Below(w.s.tree, f, f);
    if HasClaimed(w'.s, f) {
      var h :| Below(w'.s.tree, h, f) && Owning(w'.s, h);
      BetweenOperations(w'.s, h);
    }
  }
}
