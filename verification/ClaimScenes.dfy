/** Runs of exports, from nothing claimed, that end as the comments in process_claim say they do not. */
module ClaimScenes {
  import opened ClaimEffects
  import opened ClaimEnds
  import opened ClaimForests
  import opened ClaimRuns
  import opened Claims
  import opened Options
  import opened Releases

  /** Two filesystems and a third, each mounted below the one before. */
  const TWO: map<nat, Mount> := map[0 := Mount("/a", 10, None), 1 := Mount("/a/b", 11, Some(0))]
  const THREE: map<nat, Mount> := TWO[2 := Mount("/a/b/c", 12, Some(1))]

  // Exports of one FSAL: twice of the uppermost filesystem, of a directory in the second, and of the
  // second itself.
  const UPPER: Export := Export(1, 9, "/a")
  const AGAIN: Export := Export(4, 9, "/a")
  const INNER: Export := Export(2, 9, "/a/b/c")
  const LOWER: Export := Export(3, 9, "/a/b")

  function Willing(f: nat): Answer {
    Claimed
  }

  ghost predicate Ready(c: ClaimForest, mounts: map<nat, Mount>)
    reads c
  {
    Inv(c.State(), {}, map[]) && c.tree == mounts && TreeOk(mounts, 6)
  }

  /** The claim of an export on filesystem `f`, which no other FSAL has. */
  method Exporting(c: ClaimForest, mounts: map<nat, Mount>, f: nat, exp: Export)
    requires Ready(c, mounts) && f in mounts
    requires forall g :: g in mounts && mounts[g].dev == mounts[f].dev ==> g == f
    requires c.acct[f].fsal.None? || c.acct[f].fsal == Some(exp.fsal)
    modifies c
    ensures Ready(c, mounts) && NewTreated(old(c.State()), c.State(), exp, Some(exp.path), Willing)
    ensures NewSole(old(c.State()), c.State(), map[]) && Confined(old(c.State()), c.State(), f, false, exp)
    ensures ClaimStep(old(c.World()), c.World(), f, exp.path, exp) && old(c.next) !in old(c.maps)
  {
    ghost var s0 := c.State();
    assert AccountOk(s0, f, {});
    Dated(s0, {}, map[]);
    var rc, root := c.ClaimFilesystems(exp.path, mounts[f].dev, exp, Willing, 6);
  }

  /** With nothing in the way a child filesystem of a new claim gets a claim of its own. */
  lemma ChildClaimed(s0: Forest, s: Forest, exp: Export, x: nat, c: nat) returns (y: nat)
    requires NewTreated(s0, s, exp, Some(exp.path), Willing) && x in s.maps && x !in s0.maps && s.tree == s0.tree
    requires c in Children(s.tree, s.maps[x].fs) && s.maps[x].kind != SubtreeClaim
    requires forall z :: z in s0.maps && s0.maps[z].fs == c ==>
      s0.maps[z].exp.fsal == exp.fsal && s0.maps[z].kind != RootClaim
      && (s0.maps[z].kind == ChildClaim ==> s0.maps[z].exp.path == exp.path && s.maps[x].kind != ChildClaim)
    requires Same(s0, s)
    ensures y in s.maps && y !in s0.maps && s.maps[y] == ClaimMap(exp, c, ChildClaim, Some(x))
  {
    var path := if s.maps[x].kind == ChildClaim then None else Some(exp.path);
    assert AllTreated(s0, s, exp, Some(exp.path), Willing, x);
    assert Treated(s0, s, exp, path, s.maps[x].kind, Willing, x, c);
    y :| y in s.maps && y !in s0.maps && s.maps[y] == ClaimMap(exp, c, ChildClaim, Some(x));
  }

  // ----- a root claim ends a subtree claim ---------------------------------------------------------------

  lemma TwoReady()
    ensures TreeOk(TWO, 6) && 1 in Children(TWO, 0)
  {}

  method UpperExported() returns (c: ClaimForest, ghost y: nat)
    ensures fresh(c) && Ready(c, TWO) && y in c.maps && c.maps[y] == ClaimMap(UPPER, 1, ChildClaim, Some(0))
    ensures 1 in c.acct && c.acct[1].fsal == Some(9)
  {
    TwoReady();
    c := new ClaimForest(TWO);
    ghost var s0 := c.State();
    Exporting(c, TWO, 0, UPPER);
    y := ChildClaimed(s0, c.State(), UPPER, 0, 1);
    assert MapOk(c.State(), y, map[]);
  }

  /** A subtree claim and a child claim of one FSAL on the lower filesystem. */
  method InnerExported() returns (c: ClaimForest, m: nat)
    ensures fresh(c) && Ready(c, TWO) && m in c.maps && c.maps[m] == ClaimMap(INNER, 1, SubtreeClaim, None)
    ensures 1 in c.acct && c.acct[1].fsal == Some(9) && c.acct[1].child > 0
    ensures INNER in c.roots && c.roots[INNER] == 1
  {
    ghost var y;
    c, y := UpperExported();
    m := c.next;
    ghost var s1 := c.State();
    Exporting(c, TWO, 1, INNER);
    assert MapStays(s1, c.State(), y, 1, false);
    ChildCounted(c.State(), y);
  }

  lemma ChildCounted(s: Forest, y: nat)
    requires Inv(s, {}, map[]) && y in s.maps && s.maps[y].fs == 1 && s.maps[y].kind == ChildClaim
    requires s.maps[y].exp.fsal == 9
    ensures 1 in s.acct && s.acct[1].fsal == Some(9) && s.acct[1].child > 0
  {
    assert MapOk(s, y, map[]) && AccountOk(s, 1, {});
    NoneOfKind(s, 1, {}, y);
  }

  /** The lower filesystem is root_fs of two exports, and only one of them has claims there. */
  ghost predicate LowerHas(w: Claimants) {
    && LOWER in w.roots && w.roots[LOWER] == 1 && INNER in w.roots && w.roots[INNER] == 1
    && forall x :: x in w.s.maps && w.s.maps[x].fs == 1 ==> w.s.maps[x].exp == LOWER
  }

  /** In `before`, which is reached from nothing, the lower filesystem has the subtree claim `m` and a
      child claim, both of FSAL 9. In `after` an export of FSAL 9 has made its root claim there, and
      the subtree claim is gone. */
  method RootClaimEndsSubtree() returns (before: Claimants, after: Claimants, m: nat, c: ClaimForest)
    ensures fresh(c) && after == c.World() && Ready(c, TWO)
    ensures Inv(before.s, {}, map[]) && ClaimStep(before, after, 1, LOWER.path, LOWER)
    ensures m in before.s.maps && before.s.maps[m] == ClaimMap(INNER, 1, SubtreeClaim, None)
    ensures before.s.acct[1].fsal == Some(LOWER.fsal) && before.s.acct[1].child > 0
    ensures m !in after.s.maps && StripsAt(before, 1, LOWER.path, LOWER)
    ensures LowerHas(after)
  {
    c, m := InnerExported();
    before := Claimants(Forest(c.tree, c.acct, c.maps, c.next), c.roots);
    Exporting(c, TWO, 1, LOWER);
    after := Claimants(Forest(c.tree, c.acct, c.maps, c.next), c.roots);
    assert KindOf(Some(LOWER.path), TWO[1].path) == RootClaim;
    assert Ousts(before.s.acct[1], RootClaim, 9) && INNER != LOWER;
  }

  /** ... and when that export goes again, the lower filesystem goes with it. It still is root_fs of the
      export of the subtree, which is live. */
  method RootFsDangles() returns (w: Claimants)
    ensures Inv(w.s, {}, map[]) && INNER in w.roots && w.roots[INNER] !in w.s.tree
  {
    var before, after, m, c := RootClaimEndsSubtree();
    var freed := c.UnclaimAll(LOWER, 6);
    w := Claimants(Forest(c.tree, c.acct, c.maps, c.next), c.roots);
    LowerGone(after, w);
  }

  lemma LowerGone(after: Claimants, w: Claimants)
    requires Inv(w.s, {}, map[]) && UnclaimStep(after, w, LOWER) && after.s.tree == TWO
    requires LowerHas(after)
    ensures INNER in w.roots && w.roots[INNER] == 1 && 1 !in w.s.tree
  {
    assert INNER != LOWER;
    assert Below(TWO, 1, 1);
    if HasClaimed(w.s, 1) {
      var h :| Below(w.s.tree, h, 1) && Owning(w.s, h);
      BetweenOperations(w.s, h);
    }
  }

  /** From any state in which export `e` has been stripped of its root_fs, and another export has the
      same root_fs, a continuation in which some live export's root_fs is not mounted: the other exports
      go, one after the other. */
  method DriveToDangling(c: ClaimForest, e: Export, l: Export, ghost bound: nat) returns (who: Export)
    requires Inv(c.State(), {}, map[]) && TreeOk(c.tree, bound) && Bare(c.World(), e)
    requires e != l && l in c.roots && c.roots[l] == c.roots[e]
    modifies c
    ensures Inv(c.State(), {}, map[]) && who in c.roots && c.roots[who] !in c.tree
  {
    while exists x :: x in c.maps && c.maps[x].exp != e && c.maps[x].exp != l
      invariant Inv(c.State(), {}, map[]) && TreeOk(c.tree, bound) && Bare(c.World(), e)
      invariant l in c.roots && c.roots[l] == c.roots[e]
      decreases |c.maps.Keys|
    {
      var x :| x in c.maps && c.maps[x].exp != e && c.maps[x].exp != l;
      var other := c.maps[x].exp;
      if other in c.roots && c.roots[other] !in c.tree {
        return other;
      }
      ghost var w := c.World();
      var _ := c.UnclaimAll(other, bound);
      StillBare(w, c.World(), e, other);
      FewerKeys(c.maps.Keys, w.s.maps.Keys);
    }
    if c.roots[e] !in c.tree {
      return e;
    }
    ghost var w := c.World();
    var _ := c.UnclaimAll(l, bound);
    BareDangles(w, c.World(), e, l);
    return e;
  }

  // ----- a second export of the same path ------------------------------------------------------------------

  lemma ThreeReady()
    ensures TreeOk(THREE, 6) && 1 in Children(THREE, 0) && 2 in Children(THREE, 1)
  {}

  /** The claims of the first export, on all three filesystems. */
  ghost predicate FirstHas(s: Forest, y: nat, z: nat) {
    && s.tree == THREE && 0 in s.maps && s.maps[0] == ClaimMap(UPPER, 0, RootClaim, None)
    && y in s.maps && s.maps[y] == ClaimMap(UPPER, 1, ChildClaim, Some(0))
    && z in s.maps && s.maps[z] == ClaimMap(UPPER, 2, ChildClaim, Some(y))
    && forall x :: x in s.maps ==> s.maps[x].exp == UPPER && (x == 0 || s.maps[x].kind == ChildClaim)
  }

  method FirstExported() returns (c: ClaimForest, ghost y: nat, ghost z: nat)
    ensures fresh(c) && Ready(c, THREE) && FirstHas(c.State(), y, z)
  {
    ThreeReady();
    c := new ClaimForest(THREE);
    ghost var s0 := c.State();
    Exporting(c, THREE, 0, UPPER);
    ghost var s := c.State();
    y := ChildClaimed(s0, s, UPPER, 0, 1);
    z := ChildClaimed(s0, s, UPPER, y, 2);
    forall x | x in s.maps ensures s.maps[x].exp == UPPER && (x == 0 || s.maps[x].kind == ChildClaim) {
      assert MapNew(s0, s, x, 0, false, UPPER) && AllTreated(s0, s, UPPER, Some(UPPER.path), Willing, x);
    }
  }

  /** Two exports of the uppermost filesystem with the same path and FSAL. The first keeps its claims on
      all three filesystems, and the second gets the upper two only. */
  method SecondGetsTwo() returns (before: Forest, after: Forest, m: nat, ghost y: nat, ghost z: nat)
    ensures Inv(before, {}, map[]) && Inv(after, {}, map[]) && FirstHas(before, y, z)
    ensures forall k :: k in before.maps ==> k in after.maps && after.maps[k] == before.maps[k]
    ensures m in after.maps && after.maps[m] == ClaimMap(AGAIN, 0, RootClaim, None)
    ensures exists k :: k in after.maps && after.maps[k] == ClaimMap(AGAIN, 1, ChildClaim, Some(m))
    ensures forall k :: k in after.maps && after.maps[k].exp == AGAIN ==> after.maps[k].fs != 2
  {
    var c;
    c, y, z := FirstExported();
    before := Forest(c.tree, c.acct, c.maps, c.next);
    m := c.next;
    OwnersNine(before);
    Exporting(c, THREE, 0, AGAIN);
    after := Forest(c.tree, c.acct, c.maps, c.next);
    FirstKeeps(before, after, y, z);
    ThreeReady();
    var _ := ChildClaimed(before, after, AGAIN, m, 1);
    forall k | k in after.maps && after.maps[k].exp == AGAIN ensures after.maps[k].fs != 2 {
      SecondHasNot(before, after, y, z, k);
    }
  }

  lemma OwnersNine(s: Forest)
    requires Inv(s, {}, map[]) && 0 in s.maps && s.maps[0].fs == 0 && s.maps[0].exp.fsal == 9
    ensures 0 in s.acct && s.acct[0].fsal == Some(9)
  {
    assert MapOk(s, 0, map[]);
  }

  /** Nothing is in the way of the second export, so nothing is ended. */
  lemma FirstKeeps(s0: Forest, s: Forest, y: nat, z: nat)
    requires Inv(s0, {}, map[]) && FirstHas(s0, y, z) && SameMaps(s0, s) && 0 in s0.acct
    requires GoneExactly(s0, s, Ends(s0, s, 0, RootClaim, Some(AGAIN.path), AGAIN))
    ensures forall k :: k in s0.maps ==> k in s.maps && s.maps[k] == s0.maps[k]
  {
    var base := Ends(s0, s, 0, RootClaim, Some(AGAIN.path), AGAIN);
    assert AccountOk(s0, 0, {});
    NoneOfKind(s0, 0, {}, 0);
    assert base == {};
    forall k | k in s0.maps ensures k in s.maps {
      assert !UnderSome(s0.maps, k, base);
    }
  }

  lemma SecondHasNot(s0: Forest, s: Forest, y: nat, z: nat, k: nat)
    requires Inv(s, {}, map[]) && FirstHas(s0, y, z) && s.tree == THREE
    requires NewTreated(s0, s, AGAIN, Some(AGAIN.path), Willing) && NewSole(s0, s, map[])
    requires z in s.maps && s.maps[z] == s0.maps[z] && s0.next in s.maps && s.maps[s0.next].fs == 0
    requires (forall x :: x in s0.maps && x in s.maps ==> s.maps[x] == s0.maps[x])
    requires k in s.maps && s.maps[k].exp == AGAIN
    ensures s.maps[k].fs != 2
  {
    assert UPPER != AGAIN;
    assert MapOk(s, k, map[]) && AllTreated(s0, s, AGAIN, Some(AGAIN.path), Willing, k);
    if s.maps[k].fs == 2 {
      var p := s.maps[k].parent.value;
      assert AllTreated(s0, s, AGAIN, Some(AGAIN.path), Willing, p);
      SecondExportGetsNone(s0, s, z, k);
    }
  }
}
