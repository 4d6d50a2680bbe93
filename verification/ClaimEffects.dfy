/** What the operations on claims may touch, and which child filesystems a claim deals with. */
module ClaimEffects {
  import opened Claims
  import opened Options

  // ----- what an operation may touch -------------------------------------------------------------------

  /** At or below `f`, or strictly below it. */
  predicate Inside(tree: map<nat, Mount>, g: nat, f: nat, strict: bool) {
    Below(tree, g, f) && (strict ==> g != f)
  }

  /** Outside, accounts are as they were and no map has gone; no map has changed. */
  ghost predicate Local(s0: Forest, s: Forest, f: nat, strict: bool) {
    && s.tree == s0.tree && s.acct.Keys == s0.acct.Keys && Numbered(s0, s)
    && (forall g {:trigger Inside(s0.tree, g, f, strict)} :: g in s0.acct && !Inside(s0.tree, g, f, strict) ==>
          s.acct[g] == s0.acct[g])
    && (forall x {:trigger MapStays(s0, s, x, f, strict)} :: x in s0.maps ==> MapStays(s0, s, x, f, strict))
  }

  /** Maps are numbered in the order they are made. */
  ghost predicate Numbered(s0: Forest, s: Forest) {
    && s.next >= s0.next && (forall x :: x in s0.maps ==> x < s0.next)
    && (forall x :: x in s.maps ==> x < s.next && (x !in s0.maps ==> x >= s0.next))
  }

  predicate MapStays(s0: Forest, s: Forest, x: nat, f: nat, strict: bool)
    requires x in s0.maps
  {
    if x in s.maps then s.maps[x] == s0.maps[x] else Inside(s0.tree, s0.maps[x].fs, f, strict)
  }

  /** New maps are of the export, and inside. */
  ghost predicate Added(s0: Forest, s: Forest, f: nat, strict: bool, exp: Export) {
    forall x {:trigger MapNew(s0, s, x, f, strict, exp)} :: x in s.maps && x !in s0.maps ==>
      MapNew(s0, s, x, f, strict, exp)
  }

  predicate MapNew(s0: Forest, s: Forest, x: nat, f: nat, strict: bool, exp: Export)
    requires x in s.maps
  {
    s.maps[x].exp == exp && Inside(s0.tree, s.maps[x].fs, f, strict)
  }

  /** A claim at `f` changes nothing outside the tree below `f`. */
  ghost predicate Confined(s0: Forest, s: Forest, f: nat, strict: bool, exp: Export) {
    Local(s0, s, f, strict) && Added(s0, s, f, strict, exp)
  }

  lemma LocalTwice(s0: Forest, s1: Forest, s2: Forest, f: nat, strict: bool)
    requires Local(s0, s1, f, strict) && Local(s1, s2, f, strict)
    ensures Local(s0, s2, f, strict)
  {
    forall x | x in s0.maps ensures MapStays(s0, s2, x, f, strict) {
      assert MapStays(s0, s1, x, f, strict);
      if x in s1.maps {
        assert MapStays(s1, s2, x, f, strict);
      }
    }
  }

  lemma ConfinedTwice(s0: Forest, s1: Forest, s2: Forest, f: nat, strict: bool, exp: Export)
    requires Confined(s0, s1, f, strict, exp) && Confined(s1, s2, f, strict, exp)
    ensures Confined(s0, s2, f, strict, exp)
  {
    LocalTwice(s0, s1, s2, f, strict);
    forall x | x in s2.maps && x !in s0.maps ensures MapNew(s0, s2, x, f, strict, exp) {
      if x in s1.maps {
        assert MapNew(s0, s1, x, f, strict, exp) && MapStays(s1, s2, x, f, strict);
      } else {
        assert MapNew(s1, s2, x, f, strict, exp);
      }
    }
  }

  lemma ConfinedSame(s: Forest, f: nat, strict: bool, exp: Export)
    requires forall x :: x in s.maps ==> x < s.next
    ensures Confined(s, s, f, strict, exp)
  {}

  /** Where `inner` is inside, what is inside `inner` is inside. */
  lemma LocalWider(s0: Forest, s: Forest, inner: nat, f: nat, strict: bool)
    requires Local(s0, s, inner, false)
    requires forall g :: Below(s0.tree, g, inner) ==> Inside(s0.tree, g, f, strict)
    ensures Local(s0, s, f, strict)
  {
    forall g | g in s0.acct && !Inside(s0.tree, g, f, strict) ensures s.acct[g] == s0.acct[g] {
      assert !Inside(s0.tree, g, inner, false);
    }
    forall x | x in s0.maps ensures MapStays(s0, s, x, f, strict) {
      assert MapStays(s0, s, x, inner, false);
    }
  }

  lemma ConfinedWider(s0: Forest, s: Forest, inner: nat, f: nat, strict: bool, exp: Export)
    requires Confined(s0, s, inner, false, exp)
    requires forall g :: Below(s0.tree, g, inner) ==> Inside(s0.tree, g, f, strict)
    ensures Confined(s0, s, f, strict, exp)
  {
    LocalWider(s0, s, inner, f, strict);
    forall x | x in s.maps && x !in s0.maps ensures MapNew(s0, s, x, f, strict, exp) {
      assert MapNew(s0, s, x, inner, false, exp);
    }
  }

  lemma InsideChild(tree: map<nat, Mount>, c: nat, f: nat)
    requires Rooted(tree) && f in tree && c in Children(tree, f)
    ensures forall g :: Below(tree, g, c) ==> Inside(tree, g, f, true)
  {
    ChildBelow(tree, f, c);
    forall g | Below(tree, g, c) ensures Inside(tree, g, f, true) {
      BelowTwice(tree, g, c, f);
      BelowLonger(tree, g, c);
    }
  }

  lemma InsideBelow(tree: map<nat, Mount>, c: nat, f: nat)
    requires Below(tree, c, f)
    ensures forall g :: Below(tree, g, c) ==> Inside(tree, g, f, false)
  {
    forall g | Below(tree, g, c) ensures Inside(tree, g, f, false) {
      BelowTwice(tree, g, c, f);
    }
  }

  lemma WithoutLocal(s: Forest, m: nat)
    requires m in s.maps && s.maps[m].fs in s.acct && s.maps[m].fs in s.tree
    requires forall x :: x in s.maps ==> x < s.next
    ensures Local(s, Without(s, m), s.maps[m].fs, false)
  {
    var f := s.maps[m].fs;
    assert Inside(s.tree, f, f, false);
    forall x | x in s.maps ensures MapStays(s, Without(s, m), x, f, false) {
    }
  }

  /** A map made under another is of the same export, on a filesystem below. */
  lemma {:induction false} UnderBelow(s: Forest, x: nat, m: nat, busy: set<nat>, pend: map<nat, ClaimMap>)
    requires Inv(s, busy, pend) && m in s.maps && x in s.maps && Under(s.maps, x, m)
    ensures s.maps[x].fs in s.tree && s.maps[m].fs in s.tree
    ensures Below(s.tree, s.maps[x].fs, s.maps[m].fs) && s.maps[x].exp == s.maps[m].exp
    decreases x
  {
    assert MapOk(s, x, pend);
    if x != m {
      var p := s.maps[x].parent.value;
      assert MapOk(s, p, pend);
      UnderBelow(s, p, m, busy, pend);
    }
  }

  lemma Dated(s: Forest, busy: set<nat>, pend: map<nat, ClaimMap>)
    requires Inv(s, busy, pend)
    ensures forall x :: x in s.maps ==> x < s.next && s.maps[x].fs in s.tree && s.maps[x].fs in s.acct
  {
    forall x | x in s.maps ensures x < s.next && s.maps[x].fs in s.tree && s.maps[x].fs in s.acct {
      assert MapOk(s, x, pend);
    }
  }

  // ----- which child filesystems are claimed -------------------------------------------------------

  /** The claims on filesystem `c`. */
  ghost function Here(s: Forest, c: nat): map<nat, ClaimMap> {
    map x | x in s.maps && s.maps[x].fs == c :: s.maps[x]
  }

  /** Of the claims on a filesystem, one that was there before and still is, and keeps an export from
      claiming it: the filesystem is exported itself, it has a subtree export of another FSAL, or the first
      child claim on it is of an export with another path than `path`. */
  ghost predicate InTheWay(was: map<nat, ClaimMap>, now: map<nat, ClaimMap>, exp: Export, path: Option<string>, z: nat) {
    && z in was && z in now
    && match now[z].kind
       case RootClaim => true
       case SubtreeClaim => now[z].exp.fsal != exp.fsal
       case ChildClaim =>
         Some(now[z].exp.path) != path && forall y :: y in now && now[y].kind == ChildClaim ==> z <= y
  }

  /** A filesystem with mount path `at` is to be left alone: it is outside the subtree claimed, or a claim
      on it is in the way. */
  ghost predicate Barred(was: map<nat, ClaimMap>, now: map<nat, ClaimMap>, exp: Export, path: Option<string>, kind: Kind,
                         at: string) {
    || (kind == SubtreeClaim && path.Some? && !PathChild(at, path.value))
    || exists z :: InTheWay(was, now, exp, path, z)
  }

  /** There is a new child claim under `m`. */
  ghost predicate NewUnder(was: map<nat, ClaimMap>, now: map<nat, ClaimMap>, c: ClaimMap) {
    exists y :: y in now && y !in was && now[y] == c
  }

  /** Child filesystem `c` has been dealt with by the claim with map `m`: it has a new child claim under `m`
      iff the FSAL will have it and it is not to be left alone. */
  ghost predicate Treated(s0: Forest, s: Forest, exp: Export, path: Option<string>, kind: Kind,
                          claimfs: nat -> Answer, m: nat, c: nat) {
    && c in s0.tree
    && (NewUnder(Here(s0, c), Here(s, c), ClaimMap(exp, c, ChildClaim, Some(m))) <==>
        claimfs(c) == Claimed && !Barred(Here(s0, c), Here(s, c), exp, path, kind, s0.tree[c].path))
  }

  /** Nothing has been claimed anew on `c`. */
  ghost predicate NoneNewOn(s0: Forest, s: Forest, c: nat) {
    forall x :: x in s.maps && s.maps[x].fs == c ==> x in s0.maps && s.maps[x] == s0.maps[x]
  }

  /** Claims that are in both have not changed. */
  ghost predicate Same(s0: Forest, s: Forest) {
    forall x :: x in s0.maps && x in s.maps ==> s.maps[x] == s0.maps[x]
  }

  lemma LocalIsSame(s0: Forest, s: Forest, f: nat, strict: bool)
    requires Local(s0, s, f, strict)
    ensures Same(s0, s)
  {
    forall x | x in s0.maps && x in s.maps ensures s.maps[x] == s0.maps[x] {
      assert MapStays(s0, s, x, f, strict);
    }
  }

  /** Between `s0` and `s1` claims on `c` only went. */
  lemma TreatedBefore(s0: Forest, s1: Forest, s2: Forest, exp: Export, path: Option<string>, kind: Kind,
                      claimfs: nat -> Answer, m: nat, c: nat)
    requires s1.tree == s0.tree && NoneNewOn(s0, s1, c) && Same(s0, s1) && Numbered(s0, s1) && Numbered(s1, s2)
    requires Treated(s1, s2, exp, path, kind, claimfs, m, c)
    ensures Treated(s0, s2, exp, path, kind, claimfs, m, c)
  {
    var w0, w1, now := Here(s0, c), Here(s1, c), Here(s2, c);
    forall x | x in now ensures x in w0 <==> x in w1 {
      assert x in s0.maps ==> x < s0.next <= s1.next;
    }
    assert forall z :: InTheWay(w0, now, exp, path, z) <==> InTheWay(w1, now, exp, path, z);
  }

  lemma TreatedKept(s0: Forest, s1: Forest, s2: Forest, d: nat, exp: Export, path: Option<string>, kind: Kind,
                    claimfs: nat -> Answer, m: nat, c: nat)
    requires Confined(s1, s2, d, false, exp) && !Below(s1.tree, c, d)
    requires Treated(s0, s1, exp, path, kind, claimfs, m, c)
    ensures Treated(s0, s2, exp, path, kind, claimfs, m, c)
  {
    assert !Inside(s1.tree, c, d, false);
    forall x | x in s1.maps && s1.maps[x].fs == c ensures x in s2.maps && s2.maps[x] == s1.maps[x] {
      assert MapStays(s1, s2, x, d, false);
    }
    forall x | x in s2.maps && s2.maps[x].fs == c ensures x in s1.maps && s2.maps[x] == s1.maps[x] {
      assert x in s1.maps ==> MapStays(s1, s2, x, d, false);
      assert x !in s1.maps ==> MapNew(s1, s2, x, d, false, exp);
    }
    assert Here(s2, c) == Here(s1, c);
  }

  lemma TreatedWith(s0: Forest, s: Forest, k: nat, cm: ClaimMap, exp: Export, path: Option<string>, kind: Kind,
                    claimfs: nat -> Answer, m: nat, c: nat)
    requires cm.fs in s.acct && k !in s.maps && c != cm.fs && Treated(s0, s, exp, path, kind, claimfs, m, c)
    ensures Treated(s0, With(s, k, cm), exp, path, kind, claimfs, m, c)
  {
    assert Here(With(s, k, cm), c) == Here(s, c);
  }

  /** All the child filesystems of map `x`'s filesystem have been dealt with. */
  ghost predicate AllTreated(s0: Forest, s: Forest, exp: Export, path: Option<string>, claimfs: nat -> Answer, x: nat)
    requires x in s.maps
  {
    var k := s.maps[x].kind;
    forall c :: c in Children(s.tree, s.maps[x].fs) ==>
      Treated(s0, s, exp, if k == ChildClaim then None else path, k, claimfs, x, c)
  }

  /** ... for every new map; all but the first are child claims. */
  ghost predicate NewTreated(s0: Forest, s: Forest, exp: Export, path: Option<string>, claimfs: nat -> Answer) {
    forall x {:trigger AllTreated(s0, s, exp, path, claimfs, x)} :: x in s.maps && x !in s0.maps ==>
      && (path.None? || x != s0.next ==> s.maps[x].kind == ChildClaim)
      && AllTreated(s0, s, exp, path, claimfs, x)
  }

  ghost predicate Visited(s0: Forest, s: Forest, exp: Export, path: Option<string>, kind: Kind,
                          claimfs: nat -> Answer, m: nat, vs: set<nat>) {
    forall c :: c in vs ==> Treated(s0, s, exp, path, kind, claimfs, m, c)
  }

  ghost predicate BelowSome(tree: map<nat, Mount>, g: nat, vs: set<nat>) {
    exists v :: v in vs && Below(tree, g, v)
  }

  /** The maps made while the children `vs` were visited. */
  ghost predicate NewBelow(s0: Forest, s: Forest, exp: Export, claimfs: nat -> Answer, vs: set<nat>) {
    forall x {:trigger AllTreated(s0, s, exp, None, claimfs, x)} :: x in s.maps && x !in s0.maps ==>
      && s.maps[x].kind == ChildClaim && BelowSome(s.tree, s.maps[x].fs, vs)
      && AllTreated(s0, s, exp, None, claimfs, x)
  }

  /** Visiting the children `vs` has put no new claim on anything at or below another child. */
  lemma NoneNewYet(s0: Forest, s1: Forest, f: nat, d: nat, vs: set<nat>, exp: Export, claimfs: nat -> Answer, c: nat)
    requires Rooted(s1.tree) && f in s1.tree && vs <= Children(s1.tree, f)
    requires d in Children(s1.tree, f) && d !in vs && Below(s1.tree, c, d)
    requires NewBelow(s0, s1, exp, claimfs, vs) && Confined(s0, s1, f, true, exp)
    ensures NoneNewOn(s0, s1, c)
  {
    forall x | x in s1.maps && s1.maps[x].fs == c ensures x in s0.maps && s1.maps[x] == s0.maps[x] {
      if x in s0.maps {
        assert MapStays(s0, s1, x, f, true);
      } else {
        assert AllTreated(s0, s1, exp, None, claimfs, x);
        var v :| v in vs && Below(s1.tree, c, v);
        NotBelowSibling(s1.tree, c, f, v, d);
      }
    }
  }

  /** One more child visited: what was dealt with before is not disturbed. */
  lemma VisitMore(s0: Forest, s1: Forest, s2: Forest, f: nat, d: nat, vs: set<nat>, exp: Export,
                  path: Option<string>, kind: Kind, claimfs: nat -> Answer, m: nat)
    requires Rooted(s1.tree) && f in s1.tree && vs <= Children(s1.tree, f)
    requires d in Children(s1.tree, f) && d !in vs && Confined(s1, s2, d, false, exp)
    requires Visited(s0, s1, exp, path, kind, claimfs, m, vs)
    requires Treated(s0, s2, exp, path, kind, claimfs, m, d)
    ensures Visited(s0, s2, exp, path, kind, claimfs, m, vs + {d})
  {
    forall c | c in vs ensures Treated(s0, s2, exp, path, kind, claimfs, m, c) {
      NotBelowSibling(s1.tree, c, f, c, d);
      TreatedKept(s0, s1, s2, d, exp, path, kind, claimfs, m, c);
    }
  }

  lemma NotBelowSibling(tree: map<nat, Mount>, g: nat, f: nat, c: nat, d: nat)
    requires Rooted(tree) && f in tree && c in Children(tree, f) && d in Children(tree, f) && c != d
    requires Below(tree, g, c)
    ensures !Below(tree, g, d)
  {
    if Below(tree, g, d) {
      OneChildAbove(tree, g, f, c, d);
    }
  }

  lemma NewBelowMore(s0: Forest, s1: Forest, s2: Forest, f: nat, d: nat, vs: set<nat>, exp: Export,
                     claimfs: nat -> Answer)
    requires Rooted(s1.tree) && f in s1.tree && vs <= Children(s1.tree, f)
    requires d in Children(s1.tree, f) && d !in vs && Confined(s1, s2, d, false, exp)
    requires NewBelow(s0, s1, exp, claimfs, vs) && NewTreated(s1, s2, exp, None, claimfs)
    requires Confined(s0, s1, f, true, exp)
    ensures NewBelow(s0, s2, exp, claimfs, vs + {d})
  {
    forall x | x in s2.maps && x !in s0.maps
      ensures s2.maps[x].kind == ChildClaim && BelowSome(s2.tree, s2.maps[x].fs, vs + {d})
      ensures AllTreated(s0, s2, exp, None, claimfs, x)
    {
      if x in s1.maps {
        OldTreated(s1, s2, f, d, vs, exp, claimfs, x, s0);
      } else {
        assert MapNew(s1, s2, x, d, false, exp);
        NewTreatedBefore(s0, s1, s2, f, d, vs, exp, claimfs, x);
      }
    }
  }

  /** What was made while child `d` was visited, seen from before the first visit. */
  lemma NewTreatedBefore(s0: Forest, s1: Forest, s2: Forest, f: nat, d: nat, vs: set<nat>, exp: Export,
                         claimfs: nat -> Answer, x: nat)
    requires Rooted(s1.tree) && f in s1.tree && vs <= Children(s1.tree, f)
    requires d in Children(s1.tree, f) && d !in vs && Confined(s1, s2, d, false, exp)
    requires NewBelow(s0, s1, exp, claimfs, vs) && NewTreated(s1, s2, exp, None, claimfs)
    requires Confined(s0, s1, f, true, exp)
    requires x in s2.maps && x !in s1.maps && Below(s1.tree, s2.maps[x].fs, d)
    ensures s2.maps[x].kind == ChildClaim && AllTreated(s0, s2, exp, None, claimfs, x)
  {
    assert AllTreated(s1, s2, exp, None, claimfs, x);
    LocalIsSame(s0, s1, f, true);
    var g := s2.maps[x].fs;
    forall c | c in Children(s2.tree, g) ensures Treated(s0, s2, exp, None, ChildClaim, claimfs, x, c) {
      ChildBelow(s1.tree, g, c);
      BelowTwice(s1.tree, c, g, d);
      NoneNewYet(s0, s1, f, d, vs, exp, claimfs, c);
      TreatedBefore(s0, s1, s2, exp, None, ChildClaim, claimfs, x, c);
    }
  }

  lemma OldTreated(s1: Forest, s2: Forest, f: nat, d: nat, vs: set<nat>, exp: Export, claimfs: nat -> Answer,
                   x: nat, s0: Forest)
    requires Rooted(s1.tree) && f in s1.tree && vs <= Children(s1.tree, f)
    requires d in Children(s1.tree, f) && d !in vs && Confined(s1, s2, d, false, exp)
    requires NewBelow(s0, s1, exp, claimfs, vs) && x in s1.maps && x !in s0.maps && x in s2.maps
    ensures s2.maps[x] == s1.maps[x] && s1.maps[x].kind == ChildClaim
    ensures BelowSome(s2.tree, s2.maps[x].fs, vs) && AllTreated(s0, s2, exp, None, claimfs, x)
  {
    assert MapStays(s1, s2, x, d, false) && AllTreated(s0, s1, exp, None, claimfs, x);
    var g := s1.maps[x].fs;
    var v :| v in vs && Below(s1.tree, g, v);
    forall c | c in Children(s2.tree, g) ensures Treated(s0, s2, exp, None, ChildClaim, claimfs, x, c) {
      ChildBelow(s1.tree, g, c);
      BelowTwice(s1.tree, c, g, v);
      NotBelowSibling(s1.tree, c, f, v, d);
      TreatedKept(s0, s1, s2, d, exp, None, ChildClaim, claimfs, x, c);
    }
  }

  /** The whole claim: once its own map is in place, all that was made has been dealt with. */
  lemma ClaimTreated(s0: Forest, s3: Forest, m: nat, cm: ClaimMap, exp: Export, path: Option<string>,
                     claimfs: nat -> Answer)
    requires Rooted(s3.tree) && cm.fs in s3.tree && cm.fs in s3.acct && m !in s3.maps && m == s0.next
    requires cm.kind == ChildClaim <==> path.None?
    requires Visited(s0, s3, exp, path, cm.kind, claimfs, m, Children(s3.tree, cm.fs))
    requires NewBelow(s0, s3, exp, claimfs, Children(s3.tree, cm.fs))
    ensures NewTreated(s0, With(s3, m, cm), exp, path, claimfs)
  {
    var s4 := With(s3, m, cm);
    forall x | x in s4.maps && x !in s0.maps
      ensures path.None? || x != s0.next ==> s4.maps[x].kind == ChildClaim
      ensures AllTreated(s0, s4, exp, path, claimfs, x)
    {
      if x == m {
        forall c | c in Children(s4.tree, cm.fs) ensures Treated(s0, s4, exp, path, cm.kind, claimfs, m, c) {
          ChildBelow(s3.tree, cm.fs, c);
          TreatedWith(s0, s3, m, cm, exp, path, cm.kind, claimfs, m, c);
        }
      } else {
        BelowTreated(s0, s3, m, cm, exp, claimfs, x);
      }
    }
  }

  lemma BelowTreated(s0: Forest, s3: Forest, m: nat, cm: ClaimMap, exp: Export, claimfs: nat -> Answer, x: nat)
    requires Rooted(s3.tree) && cm.fs in s3.tree && cm.fs in s3.acct && m !in s3.maps
    requires NewBelow(s0, s3, exp, claimfs, Children(s3.tree, cm.fs))
    requires x in s3.maps && x !in s0.maps
    ensures s3.maps[x].kind == ChildClaim
    ensures x in With(s3, m, cm).maps && With(s3, m, cm).maps[x] == s3.maps[x]
    ensures forall path: Option<string> :: AllTreated(s0, With(s3, m, cm), exp, path, claimfs, x)
  {
    assert AllTreated(s0, s3, exp, None, claimfs, x);
    var g := s3.maps[x].fs;
    var v :| v in Children(s3.tree, cm.fs) && Below(s3.tree, g, v);
    ChildBelow(s3.tree, cm.fs, v);
    BelowLonger(s3.tree, g, v);
    forall c | c in Children(s3.tree, g) ensures Treated(s0, With(s3, m, cm), exp, None, ChildClaim, claimfs, x, c) {
      TreatedWith(s0, s3, m, cm, exp, None, ChildClaim, claimfs, x, c);
    }
  }

  // ----- claims two or more levels down ---------------------------------------------------------------

  /** A map made under a child claim, which may still be being made. */
  predicate Nested(s: Forest, pend: map<nat, ClaimMap>, y: nat)
    requires y in s.maps
  {
    s.maps[y].parent.Some? &&
    var p := s.maps[y].parent.value;
    (p in s.maps && s.maps[p].kind == ChildClaim) || (p in pend && pend[p].kind == ChildClaim)
  }

  /** The only child claim on its filesystem. */
  ghost predicate Sole(s: Forest, y: nat)
    requires y in s.maps
  {
    forall z :: z in s.maps && s.maps[z].fs == s.maps[y].fs && s.maps[z].kind == ChildClaim ==> z == y
  }

  ghost predicate SoleIfNested(s: Forest, pend: map<nat, ClaimMap>, y: nat)
    requires y in s.maps
  {
    Nested(s, pend, y) ==> Sole(s, y)
  }

  ghost predicate NewSole(s0: Forest, s: Forest, pend: map<nat, ClaimMap>) {
    forall y {:trigger SoleIfNested(s, pend, y)} :: y in s.maps && y !in s0.maps ==> SoleIfNested(s, pend, y)
  }

  lemma SoleKept(s1: Forest, s2: Forest, d: nat, exp: Export, y: nat, busy: set<nat>, pend: map<nat, ClaimMap>)
    requires Inv(s1, busy, pend) && Confined(s1, s2, d, false, exp)
    requires y in s1.maps && !Below(s1.tree, s1.maps[y].fs, d) && SoleIfNested(s1, pend, y)
    ensures y in s2.maps && SoleIfNested(s2, pend, y)
  {
    assert MapStays(s1, s2, y, d, false) && MapOk(s1, y, pend);
    var g := s1.maps[y].fs;
    if Nested(s2, pend, y) {
      var p := s2.maps[y].parent.value;
      assert p in s2.maps ==> p in s1.maps && MapStays(s1, s2, p, d, false);
      forall z | z in s2.maps && s2.maps[z].fs == g && s2.maps[z].kind == ChildClaim ensures z == y {
        assert z !in s1.maps ==> MapNew(s1, s2, z, d, false, exp);
        assert z in s1.maps ==> MapStays(s1, s2, z, d, false);
      }
    }
  }

  lemma NewSoleMore(s0: Forest, s1: Forest, s2: Forest, f: nat, d: nat, vs: set<nat>, exp: Export,
                    claimfs: nat -> Answer, busy: set<nat>, pend: map<nat, ClaimMap>)
    requires Inv(s1, busy, pend) && f in s1.tree && vs <= Children(s1.tree, f)
    requires d in Children(s1.tree, f) && d !in vs && Confined(s1, s2, d, false, exp)
    requires NewBelow(s0, s1, exp, claimfs, vs) && NewSole(s0, s1, pend) && NewSole(s1, s2, pend)
    ensures NewSole(s0, s2, pend)
  {
    forall y | y in s2.maps && y !in s0.maps ensures SoleIfNested(s2, pend, y) {
      if y in s1.maps {
        assert SoleIfNested(s1, pend, y) && AllTreated(s0, s1, exp, None, claimfs, y);
        var v :| v in vs && Below(s1.tree, s1.maps[y].fs, v);
        NotBelowSibling(s1.tree, s1.maps[y].fs, f, v, d);
        SoleKept(s1, s2, d, exp, y, busy, pend);
      }
    }
  }

  /** Once the map itself is in place. */
  lemma SoleEntered(s0: Forest, s3: Forest, m: nat, c: ClaimMap, claimfs: nat -> Answer, busy: set<nat>,
                    pend: map<nat, ClaimMap>)
    requires Inv(s3, busy, pend[m := c]) && m !in s3.maps && m !in pend && c.fs in s3.acct && c.fs in s3.tree
    requires Rooted(s3.tree) && NewBelow(s0, s3, c.exp, claimfs, Children(s3.tree, c.fs))
    requires NewSole(s0, s3, pend[m := c])
    requires ParentReady(s3.tree, c, m, pend)
    requires c.parent.Some? && pend[c.parent.value].kind == ChildClaim ==>
             forall x :: x in s3.maps && s3.maps[x].fs == c.fs ==> s3.maps[x].kind != ChildClaim
    ensures NewSole(s0, With(s3, m, c), pend)
  {
    var s4 := With(s3, m, c);
    forall y | y in s4.maps && y !in s0.maps ensures SoleIfNested(s4, pend, y) {
      if y == m {
        assert c.parent.Some? && c.parent.value in s3.maps ==> MapOk(s3, c.parent.value, pend[m := c]);
      } else {
        assert SoleIfNested(s3, pend[m := c], y) && AllTreated(s0, s3, c.exp, None, claimfs, y);
        var v :| v in Children(s3.tree, c.fs) && Below(s3.tree, s3.maps[y].fs, v);
        ChildBelow(s3.tree, c.fs, v);
        BelowLonger(s3.tree, s3.maps[y].fs, v);
        assert s3.maps[y].fs != c.fs;
        assert Nested(s4, pend, y) ==> Nested(s3, pend[m := c], y);
      }
    }
  }

  /** A second export of a path gets none of the filesystems two or more levels below that the first
      one has claimed: no new claim under a child claim joins a child claim that was there and is
      still there. The comment in process_claim says that exports of the same path share them. */
  lemma SecondExportGetsNone(s0: Forest, s: Forest, z: nat, y: nat)
    requires NewSole(s0, s, map[]) && z in s0.maps && z in s.maps && s.maps[z].kind == ChildClaim
    requires y in s.maps && y !in s0.maps && s.maps[y].parent.Some?
    requires s.maps[y].parent.value in s.maps && s.maps[s.maps[y].parent.value].kind == ChildClaim
    ensures s.maps[y].fs != s.maps[z].fs
  {
    assert SoleIfNested(s, map[], y);
  }

  // ----- what the new claims hang from ---------------------------------------------------------------

  predicate HangsFrom(s0: Forest, s: Forest, m: nat, x: nat)
    requires x in s.maps
  {
    s.maps[x].parent.Some? && (s.maps[x].parent.value == m || s.maps[x].parent.value >= s0.next)
  }

  /** The claims made below map `m`, which is still to come: each hangs from `m` or from another of them, and
      no filesystem has got two. */
  ghost predicate Orderly(s0: Forest, s: Forest, m: nat) {
    && (forall x {:trigger HangsFrom(s0, s, m, x)} :: x in s.maps && x !in s0.maps ==> HangsFrom(s0, s, m, x))
    && forall x, y :: x in s.maps && x !in s0.maps && y in s.maps && y !in s0.maps && s.maps[x].fs == s.maps[y].fs ==>
         x == y
  }

  /** ... and with the first of them. */
  ghost predicate OrderlyClaim(s0: Forest, s: Forest) {
    && (forall x {:trigger HangsFrom(s0, s, s0.next, x)} :: x in s.maps && x !in s0.maps && x != s0.next ==>
          HangsFrom(s0, s, s0.next, x))
    && forall x, y :: x in s.maps && x !in s0.maps && y in s.maps && y !in s0.maps && s.maps[x].fs == s.maps[y].fs ==>
         x == y
  }

  lemma OrderlyNone(s: Forest, m: nat)
    ensures Orderly(s, s, m)
  {}

  /** Claims only went between `s0` and `s1`. */
  lemma OrderlySince(s0: Forest, s1: Forest, s2: Forest, m: nat)
    requires s0.next <= s1.next && Orderly(s1, s2, m) && forall x :: x in s1.maps ==> x in s0.maps
    ensures Orderly(s0, s2, m)
  {
    forall x | x in s2.maps && x !in s0.maps ensures HangsFrom(s0, s2, m, x) {
      assert HangsFrom(s1, s2, m, x);
    }
  }

  lemma OrderlyNumbered(s0: Forest, s: Forest, m: nat)
    requires m == s0.next && Orderly(s0.(next := m + 1), s, m)
    ensures Orderly(s0, s, m)
  {
    forall x | x in s.maps && x !in s0.maps ensures HangsFrom(s0, s, m, x) {
      assert HangsFrom(s0.(next := m + 1), s, m, x);
    }
  }

  lemma OrderlyChild(s0: Forest, s: Forest, m: nat)
    requires OrderlyClaim(s0, s) && (s0.next in s.maps ==> s.maps[s0.next].parent == Some(m))
    ensures Orderly(s0, s, m)
  {
    forall x | x in s.maps && x !in s0.maps ensures HangsFrom(s0, s, m, x) {
      assert x != s0.next ==> HangsFrom(s0, s, s0.next, x);
    }
  }

  lemma OrderlyMore(s0: Forest, s1: Forest, s2: Forest, m: nat, f: nat, d: nat, vs: set<nat>, exp: Export,
                    claimfs: nat -> Answer)
    requires Rooted(s1.tree) && f in s1.tree && vs <= Children(s1.tree, f)
    requires d in Children(s1.tree, f) && d !in vs && Confined(s1, s2, d, false, exp)
    requires NewBelow(s0, s1, exp, claimfs, vs) && Numbered(s0, s1) && Orderly(s0, s1, m) && Orderly(s1, s2, m)
    ensures Orderly(s0, s2, m)
  {
    LocalIsSame(s1, s2, d, false);
    forall x | x in s2.maps && x !in s0.maps ensures HangsFrom(s0, s2, m, x) {
      assert x in s1.maps ==> HangsFrom(s0, s1, m, x);
      assert x !in s1.maps ==> HangsFrom(s1, s2, m, x);
    }
    forall x, y | x in s2.maps && x !in s0.maps && y in s2.maps && y !in s0.maps && s2.maps[x].fs == s2.maps[y].fs
      ensures x == y
    {
      if x in s1.maps && y !in s1.maps {
        NewApart(s0, s1, s2, f, d, vs, exp, claimfs, x, y);
      } else if x !in s1.maps && y in s1.maps {
        NewApart(s0, s1, s2, f, d, vs, exp, claimfs, y, x);
      }
    }
  }

  /** What was made for one child is not where something was made for another. */
  lemma NewApart(s0: Forest, s1: Forest, s2: Forest, f: nat, d: nat, vs: set<nat>, exp: Export,
                 claimfs: nat -> Answer, x: nat, y: nat)
    requires Rooted(s1.tree) && f in s1.tree && vs <= Children(s1.tree, f)
    requires d in Children(s1.tree, f) && d !in vs && Confined(s1, s2, d, false, exp)
    requires NewBelow(s0, s1, exp, claimfs, vs)
    requires x in s1.maps && x !in s0.maps && y in s2.maps && y !in s1.maps
    ensures s1.maps[x].fs != s2.maps[y].fs
  {
    assert MapNew(s1, s2, y, d, false, exp) && AllTreated(s0, s1, exp, None, claimfs, x);
    var v :| v in vs && Below(s1.tree, s1.maps[x].fs, v);
    NotBelowSibling(s1.tree, s1.maps[x].fs, f, v, d);
  }

  lemma OrderlyEntered(s0: Forest, s3: Forest, m: nat, c: ClaimMap, claimfs: nat -> Answer)
    requires Rooted(s3.tree) && c.fs in s3.tree && c.fs in s3.acct && m !in s3.maps && m == s0.next
    requires NewBelow(s0, s3, c.exp, claimfs, Children(s3.tree, c.fs)) && Orderly(s0, s3, m)
    ensures OrderlyClaim(s0, With(s3, m, c))
  {
    var s4 := With(s3, m, c);
    forall x | x in s4.maps && x !in s0.maps && x != m
      ensures HangsFrom(s0, s4, m, x) && s4.maps[x].fs != c.fs && x in s3.maps && s4.maps[x] == s3.maps[x]
    {
      assert HangsFrom(s0, s3, m, x) && AllTreated(s0, s3, c.exp, None, claimfs, x);
      var v :| v in Children(s3.tree, c.fs) && Below(s3.tree, s3.maps[x].fs, v);
      ChildBelow(s3.tree, c.fs, v);
      BelowLonger(s3.tree, s3.maps[x].fs, v);
    }
  }

  // ----- exactly which filesystems are claimed ---------------------------------------------------------

  /** For every map that a claim has made, a child filesystem of its filesystem has got one under it iff the
      FSAL will have it, it is below the path of a subtree claim, and of the claims that were on it and still
      are none is a root claim, none a subtree claim of another FSAL, and the first child claim, if there is
      one, is of an export with the same path, and not if the map is itself a child claim. */
  lemma ClaimedIff(s0: Forest, s: Forest, exp: Export, path: Option<string>, claimfs: nat -> Answer, x: nat, c: nat)
    requires NewTreated(s0, s, exp, path, claimfs) && Numbered(s0, s) && Same(s0, s)
    requires x in s.maps && x !in s0.maps && c in Children(s.tree, s.maps[x].fs) && c in s0.tree
    ensures (exists y :: y in s.maps && y !in s0.maps && s.maps[y] == ClaimMap(exp, c, ChildClaim, Some(x))) <==>
      && claimfs(c) == Claimed
      && (s.maps[x].kind == SubtreeClaim && path.Some? ==> PathChild(s0.tree[c].path, path.value))
      && forall z :: z in s0.maps && z in s.maps && s.maps[z].fs == c ==>
           && s.maps[z].kind != RootClaim
           && (s.maps[z].kind == SubtreeClaim ==> s.maps[z].exp.fsal == exp.fsal)
           && (FirstChild(s.maps, c, z) ==> s.maps[x].kind != ChildClaim && Some(s.maps[z].exp.path) == path)
  {
    assert AllTreated(s0, s, exp, path, claimfs, x);
    var k := s.maps[x].kind;
    var p := if k == ChildClaim then None else path;
    assert Treated(s0, s, exp, p, k, claimfs, x, c);
    var was, now := Here(s0, c), Here(s, c);
    forall y | y in now ensures y in was <==> y in s0.maps {}
    forall z | z in was && z in now
      ensures InTheWay(was, now, exp, p, z) <==>
        || s.maps[z].kind == RootClaim || (s.maps[z].kind == SubtreeClaim && s.maps[z].exp.fsal != exp.fsal)
        || (FirstChild(s.maps, c, z) && Some(s.maps[z].exp.path) != p)
    {
      FirstHere(s, c, z);
    }
  }

  /** Mount points lie below their parents', as paths. */
  ghost predicate PathsNest(tree: map<nat, Mount>) {
    forall f :: f in tree && tree[f].parent.Some? && tree[f].parent.value in tree ==>
      tree[tree[f].parent.value].path <= tree[f].path
  }

  /** Whatever a subtree claim has claimed lies below its path. */
  lemma {:induction false} StaysInSubtree(s0: Forest, s: Forest, exp: Export, path: string, claimfs: nat -> Answer, f: nat,
                                          busy: set<nat>, pend: map<nat, ClaimMap>, x: nat)
    requires Inv(s, busy, pend) && NewTreated(s0, s, exp, Some(path), claimfs) && OrderlyClaim(s0, s)
    requires Confined(s0, s, f, false, exp) && PathsNest(s.tree) && (forall p :: p in pend ==> p < s0.next)
    requires s0.next in s.maps && s0.next !in s0.maps && s.maps[s0.next].kind == SubtreeClaim
    requires x in s.maps && x !in s0.maps && x != s0.next
    ensures s.maps[x].fs in s.tree && PathChild(s.tree[s.maps[x].fs].path, path)
    decreases x
  {
    assert MapOk(s, x, pend) && HangsFrom(s0, s, s0.next, x) && MapNew(s0, s, x, f, false, exp);
    assert AllTreated(s0, s, exp, Some(path), claimfs, x);
    var p, c := s.maps[x].parent.value, s.maps[x].fs;
    LocalIsSame(s0, s, f, false);
    if p == s0.next {
      ClaimedIff(s0, s, exp, Some(path), claimfs, p, c);
    } else {
      StaysInSubtree(s0, s, exp, path, claimfs, f, busy, pend, p);
    }
  }

  // ----- steps of the operations --------------------------------------------------------------------

  lemma ChildOfMap(s: Forest, c: nat, m: nat, busy: set<nat>, pend: map<nat, ClaimMap>)
    requires Inv(s, busy, pend) && c in s.maps && m in s.maps && s.maps[c].parent == Some(m)
    ensures m < c < s.next
    ensures forall g :: Below(s.tree, g, s.maps[c].fs) ==> Inside(s.tree, g, s.maps[m].fs, false)
  {
    assert MapOk(s, c, pend) && MapOk(s, m, pend);
    assert Under(s.maps, c, m);
    UnderBelow(s, c, m, busy, pend);
    InsideBelow(s.tree, s.maps[c].fs, s.maps[m].fs);
  }

  lemma OtherExportsStay(s1: Forest, s2: Forest, x: nat, busy: set<nat>, pend: map<nat, ClaimMap>)
    requires Inv(s1, busy, pend) && x in s1.maps && GoneUnder(s1, s2, x)
    ensures forall y :: y in s1.maps && s1.maps[y].exp != s1.maps[x].exp ==> y in s2.maps
  {
    forall y | y in s1.maps && s1.maps[y].exp != s1.maps[x].exp ensures y in s2.maps {
      if Under(s1.maps, y, x) {
        UnderBelow(s1, y, x, busy, pend);
      }
    }
  }

  lemma OverlappedBelow(s: Forest, x: nat, f: nat, path: string, busy: set<nat>, pend: map<nat, ClaimMap>)
    requires Inv(s, busy, pend) && x in s.maps && Overlapped(s, x, f, path) && f in s.tree
    ensures forall g :: Below(s.tree, g, s.maps[x].fs) ==> Inside(s.tree, g, f, true)
    ensures s.maps[x].kind == ChildClaim
  {
    assert MapOk(s, x, pend) && MapOk(s, s.maps[x].parent.value, pend);
    InsideChild(s.tree, s.maps[x].fs, f);
  }

  lemma TakeConfined(s0: Forest, s1: Forest, s2: Forest, s3: Forest, f: nat, exp: Export, busy: set<nat>)
    requires f in s0.acct && f in s0.tree && s1 == Marked(s0, f) && Shrunk(s1, s2, busy) && Local(s1, s2, f, false)
    requires f in s2.acct && s3 == Owned(s2, f, exp.fsal)
    ensures Confined(s0, s3, f, false, exp)
  {
    assert Inside(s0.tree, f, f, false);
    forall x | x in s0.maps ensures MapStays(s0, s3, x, f, false) {
      assert MapStays(s1, s2, x, f, false);
    }
  }

  lemma ShrunkConfined(s0: Forest, s: Forest, f: nat, exp: Export, busy: set<nat>)
    requires s == s0 || (Shrunk(s0, s, busy) && Local(s0, s, f, true))
    requires forall x :: x in s0.maps ==> x < s0.next
    ensures Confined(s0, s, f, true, exp)
  {}

  /** The child filesystems `vs` of map `m`'s filesystem have been dealt with, and so have those of all
      the maps made on the way. */
  ghost predicate Dealt(s0: Forest, s: Forest, m: nat, c: ClaimMap, path: Option<string>, claimfs: nat -> Answer,
                        vs: set<nat>, pend: map<nat, ClaimMap>) {
    && Visited(s0, s, c.exp, path, c.kind, claimfs, m, vs)
    && NewBelow(s0, s, c.exp, claimfs, vs) && NewSole(s0, s, pend) && Orderly(s0, s, m)
  }

  lemma DealtNone(s: Forest, m: nat, c: ClaimMap, path: Option<string>, claimfs: nat -> Answer,
                  pend: map<nat, ClaimMap>)
    ensures Dealt(s, s, m, c, path, claimfs, {}, pend)
  {
    OrderlyNone(s, m);
  }

  lemma DealtNumbered(s0: Forest, k: nat, s: Forest, m: nat, c: ClaimMap, path: Option<string>,
                      claimfs: nat -> Answer, vs: set<nat>, pend: map<nat, ClaimMap>)
    requires m == s0.next && k == m + 1 && Dealt(s0.(next := k), s, m, c, path, claimfs, vs, pend)
    ensures Dealt(s0, s, m, c, path, claimfs, vs, pend)
  {
    var s1 := s0.(next := k);
    OrderlyNumbered(s0, s, m);
    forall x | x in s.maps && x !in s0.maps
      ensures s.maps[x].kind == ChildClaim && BelowSome(s.tree, s.maps[x].fs, vs)
      ensures AllTreated(s0, s, c.exp, None, claimfs, x)
    {
      assert AllTreated(s1, s, c.exp, None, claimfs, x);
      forall d | d in Children(s.tree, s.maps[x].fs) ensures Treated(s0, s, c.exp, None, ChildClaim, claimfs, x, d) {
        assert Treated(s1, s, c.exp, None, ChildClaim, claimfs, x, d);
      }
    }
    forall d | d in vs ensures Treated(s0, s, c.exp, path, c.kind, claimfs, m, d) {
      assert Treated(s1, s, c.exp, path, c.kind, claimfs, m, d);
    }
  }

  lemma DealtSince(s0: Forest, s1: Forest, s2: Forest, m: nat, c: ClaimMap, path: Option<string>,
                   claimfs: nat -> Answer, vs: set<nat>, pend: map<nat, ClaimMap>)
    requires s1.tree == s0.tree && Numbered(s0, s1) && Numbered(s1, s2)
    requires forall x :: x in s1.maps ==> x in s0.maps && s1.maps[x] == s0.maps[x]
    requires Dealt(s1, s2, m, c, path, claimfs, vs, pend)
    ensures Dealt(s0, s2, m, c, path, claimfs, vs, pend)
  {
    NewSince(s0, s1, s2, c.exp, path, c.kind, claimfs, m, vs);
    OrderlySince(s0, s1, s2, m);
    forall y | y in s2.maps && y !in s0.maps ensures SoleIfNested(s2, pend, y) {
      assert y !in s1.maps;
    }
  }

  /** Claims only went before the first visit. */
  lemma NewSince(s0: Forest, s1: Forest, s2: Forest, exp: Export, path: Option<string>, kind: Kind,
                 claimfs: nat -> Answer, m: nat, vs: set<nat>)
    requires s1.tree == s0.tree && Numbered(s0, s1) && Numbered(s1, s2)
    requires forall x :: x in s1.maps ==> x in s0.maps && s1.maps[x] == s0.maps[x]
    requires NewBelow(s1, s2, exp, claimfs, vs) && Visited(s1, s2, exp, path, kind, claimfs, m, vs)
    ensures NewBelow(s0, s2, exp, claimfs, vs) && Visited(s0, s2, exp, path, kind, claimfs, m, vs)
  {
    forall x | x in s2.maps && x !in s0.maps
      ensures s2.maps[x].kind == ChildClaim && BelowSome(s2.tree, s2.maps[x].fs, vs)
      ensures AllTreated(s0, s2, exp, None, claimfs, x)
    {
      assert x !in s1.maps && AllTreated(s1, s2, exp, None, claimfs, x);
      forall c | c in Children(s2.tree, s2.maps[x].fs)
        ensures Treated(s0, s2, exp, None, ChildClaim, claimfs, x, c)
      {
        TreatedBefore(s0, s1, s2, exp, None, ChildClaim, claimfs, x, c);
      }
    }
    forall c | c in vs ensures Treated(s0, s2, exp, path, kind, claimfs, m, c) {
      TreatedBefore(s0, s1, s2, exp, path, kind, claimfs, m, c);
    }
  }

  lemma AfterVisit(s0: Forest, s1: Forest, s2: Forest, d: nat, vs: set<nat>, m: nat, path: Option<string>,
                   c: ClaimMap, claimfs: nat -> Answer)
    requires Rooted(s1.tree) && c.fs in s1.tree && vs <= Children(s1.tree, c.fs)
    requires d in Children(s1.tree, c.fs) && d !in vs && Confined(s1, s2, d, false, c.exp)
    requires Confined(s0, s1, c.fs, true, c.exp)
    requires Visited(s0, s1, c.exp, path, c.kind, claimfs, m, vs)
    requires Treated(s1, s2, c.exp, path, c.kind, claimfs, m, d)
    requires NewBelow(s0, s1, c.exp, claimfs, vs) && NewTreated(s1, s2, c.exp, None, claimfs)
    ensures Confined(s0, s2, c.fs, true, c.exp)
    ensures Visited(s0, s2, c.exp, path, c.kind, claimfs, m, vs + {d})
    ensures NewBelow(s0, s2, c.exp, claimfs, vs + {d})
  {
    InsideChild(s1.tree, d, c.fs);
    ConfinedWider(s1, s2, d, c.fs, true, c.exp);
    ConfinedTwice(s0, s1, s2, c.fs, true, c.exp);
    assert Below(s1.tree, d, d);
    NoneNewYet(s0, s1, c.fs, d, vs, c.exp, claimfs, d);
    LocalIsSame(s0, s1, c.fs, true);
    TreatedBefore(s0, s1, s2, c.exp, path, c.kind, claimfs, m, d);
    VisitMore(s0, s1, s2, c.fs, d, vs, c.exp, path, c.kind, claimfs, m);
    NewBelowMore(s0, s1, s2, c.fs, d, vs, c.exp, claimfs);
  }

  lemma OneVisited(s0: Forest, s1: Forest, s2: Forest, d: nat, vs: set<nat>, m: nat, path: Option<string>,
                   c: ClaimMap, claimfs: nat -> Answer, busy: set<nat>, pend: map<nat, ClaimMap>)
    requires Inv(s1, busy, pend) && c.fs in s1.tree && vs <= Children(s1.tree, c.fs)
    requires d in Children(s1.tree, c.fs) && d !in vs && Confined(s1, s2, d, false, c.exp)
    requires Confined(s0, s1, c.fs, true, c.exp) && Dealt(s0, s1, m, c, path, claimfs, vs, pend)
    requires Treated(s1, s2, c.exp, path, c.kind, claimfs, m, d)
    requires NewTreated(s1, s2, c.exp, None, claimfs) && NewSole(s1, s2, pend) && Orderly(s1, s2, m)
    ensures Confined(s0, s2, c.fs, true, c.exp) && Dealt(s0, s2, m, c, path, claimfs, vs + {d}, pend)
  {
    AfterVisit(s0, s1, s2, d, vs, m, path, c, claimfs);
    OrderlyMore(s0, s1, s2, m, c.fs, d, vs, c.exp, claimfs);
    NewSoleMore(s0, s1, s2, c.fs, d, vs, c.exp, claimfs, busy, pend);
  }

  lemma DealtEntered(s0: Forest, s3: Forest, m: nat, c: ClaimMap, path: Option<string>, claimfs: nat -> Answer,
                     busy: set<nat>, pend: map<nat, ClaimMap>)
    requires Inv(s3, busy, pend[m := c]) && m !in s3.maps && m !in pend && c.fs in s3.acct && c.fs in s3.tree
    requires m == s0.next && ParentReady(s3.tree, c, m, pend) && (c.kind == ChildClaim <==> path.None?)
    requires Dealt(s0, s3, m, c, path, claimfs, Children(s3.tree, c.fs), pend[m := c])
    requires c.parent.Some? && pend[c.parent.value].kind == ChildClaim ==>
             forall x :: x in s3.maps && s3.maps[x].fs == c.fs ==> s3.maps[x].kind != ChildClaim
    ensures NewTreated(s0, With(s3, m, c), c.exp, path, claimfs) && NewSole(s0, With(s3, m, c), pend)
    ensures OrderlyClaim(s0, With(s3, m, c))
  {
    OrderlyEntered(s0, s3, m, c, claimfs);
    SoleEntered(s0, s3, m, c, claimfs, busy, pend);
    ClaimTreated(s0, s3, m, c, c.exp, path, claimfs);
  }

  lemma ClaimConfined(s0: Forest, s1: Forest, s3: Forest, m: nat, c: ClaimMap)
    requires Confined(s0, s1, c.fs, false, c.exp) && s1.next == s0.next == m
    requires Confined(s1.(next := m + 1), s3, c.fs, true, c.exp)
    requires c.fs in s0.tree && c.fs in s3.acct && m !in s3.maps && m !in s0.maps
    ensures Confined(s0, With(s3, m, c), c.fs, false, c.exp)
  {
    var s2, s4 := s1.(next := m + 1), With(s3, m, c);
    assert Inside(s0.tree, c.fs, c.fs, false);
    forall g | g in s0.acct && !Inside(s0.tree, g, c.fs, false) ensures s4.acct[g] == s0.acct[g] {
      assert !Inside(s1.tree, g, c.fs, true);
    }
    forall x | x in s0.maps ensures MapStays(s0, s4, x, c.fs, false) {
      assert MapStays(s0, s1, x, c.fs, false);
      if x in s1.maps {
        assert MapStays(s2, s3, x, c.fs, true);
      }
    }
    forall x | x in s4.maps && x !in s0.maps ensures MapNew(s0, s4, x, c.fs, false, c.exp) {
      if x != m {
        assert x in s3.maps && x !in s2.maps;
        assert MapNew(s2, s3, x, c.fs, true, c.exp);
      }
    }
  }

  /** What goes on strictly below a filesystem leaves its own account alone. */
  lemma OwnAccountSame(s0: Forest, s: Forest, f: nat)
    requires Local(s0, s, f, true) && f in s0.acct
    ensures s.acct[f] == s0.acct[f]
  {
    assert !Inside(s0.tree, f, f, true);
  }

  lemma Fresh(s: Forest, m: nat, pend: map<nat, ClaimMap>, busy: set<nat>)
    requires Inv(s, busy, pend) && m == s.next
    ensures m !in pend
  {}

  // ----- which claims on a filesystem a new claim ends ----------------------------------------------

  /** A claim ends all claims on its filesystem when there are child claims of another FSAL there, or
      any child claims at all and it is a root claim. */
  predicate Ousts(a: Account, kind: Kind, fsal: nat) {
    a.child != 0 && (a.fsal != Some(fsal) || kind == RootClaim)
  }

  /** The claims on `f` have all gone, or none has; `m` is the only new one. */
  ghost predicate OnFilesystem(s0: Forest, s: Forest, f: nat, gone: bool, m: nat) {
    && (forall x :: x in s0.maps && s0.maps[x].fs == f ==> (x in s.maps <==> !gone))
    && (forall x :: x in s.maps && s.maps[x].fs == f ==> x in s0.maps || x == m)
  }

  /** What happens strictly below leaves the claims on `f` alone. */
  lemma OnFilesystemWith(s0: Forest, s1: Forest, s3: Forest, gone: bool, m: nat, c: ClaimMap, busy: set<nat>)
    requires Numbered(s0, s1) && s1.next == s0.next == m && Local(s0, s1, c.fs, false)
    requires OnFilesystem(s0, s1, c.fs, gone, m) && (forall x :: x in s1.maps ==> x in s0.maps)
    requires Confined(s1.(next := m + 1), s3, c.fs, true, c.exp) && c.fs in s3.acct && m !in s3.maps
    ensures OnFilesystem(s0, With(s3, m, c), c.fs, gone, m)
    ensures forall x :: x in s3.maps && s3.maps[x].fs == c.fs ==> x in s0.maps && s0.maps[x] == s3.maps[x]
  {
    var s2 := s1.(next := m + 1);
    forall x | x in s3.maps && s3.maps[x].fs == c.fs ensures x in s1.maps && s1.maps[x] == s3.maps[x] {
      assert x !in s2.maps ==> MapNew(s2, s3, x, c.fs, true, c.exp);
      assert x in s2.maps ==> MapStays(s2, s3, x, c.fs, true);
    }
    forall x | x in s0.maps && s0.maps[x].fs == c.fs
      ensures x in s3.maps <==> !gone
      ensures x in s3.maps ==> s3.maps[x] == s0.maps[x]
    {
      assert MapStays(s0, s1, x, c.fs, false);
      if x in s1.maps {
        assert MapStays(s2, s3, x, c.fs, true);
      }
    }
    forall x | x in s3.maps && s3.maps[x].fs == c.fs ensures s0.maps[x] == s3.maps[x] {
      assert MapStays(s0, s1, x, c.fs, false);
    }
  }

  /** What the counters of a filesystem and its first child claim say. */
  ghost predicate CountedOut(s: Forest, c: nat, exp: Export, path: Option<string>)
    requires c in s.acct
  {
    || s.acct[c].root != 0 || (s.acct[c].subtree != 0 && s.acct[c].fsal != Some(exp.fsal))
    || exists x :: FirstChild(s.maps, c, x) && Some(s.maps[x].exp.path) != path
  }

  lemma CountedIsInTheWay(s: Forest, c: nat, exp: Export, path: Option<string>, busy: set<nat>, pend: map<nat, ClaimMap>)
    requires Inv(s, busy, pend) && c in s.acct && CountedOut(s, c, exp, path)
    ensures exists z :: InTheWay(Here(s, c), Here(s, c), exp, path, z)
  {
    assert AccountOk(s, c, busy);
    var h := Here(s, c);
    if s.acct[c].root != 0 {
      var x :| x in On(s.maps, c, RootClaim);
      assert InTheWay(h, h, exp, path, x);
    } else if s.acct[c].subtree != 0 && s.acct[c].fsal != Some(exp.fsal) {
      var x :| x in On(s.maps, c, SubtreeClaim);
      assert MapOk(s, x, pend);
      assert InTheWay(h, h, exp, path, x);
    } else {
      var x :| FirstChild(s.maps, c, x) && Some(s.maps[x].exp.path) != path;
      FirstHere(s, c, x);
      assert InTheWay(h, h, exp, path, x);
    }
  }

  lemma FirstHere(s: Forest, c: nat, x: nat)
    requires x in s.maps
    ensures FirstChild(s.maps, c, x) <==>
      var h := Here(s, c);
      x in h && h[x].kind == ChildClaim && forall y :: y in h && h[y].kind == ChildClaim ==> x <= y
  {
    var h := Here(s, c);
    assert forall y :: y in On(s.maps, c, ChildClaim) <==> y in h && h[y].kind == ChildClaim;
  }

  lemma BarredIff(s: Forest, c: nat, exp: Export, path: Option<string>, kind: Kind, busy: set<nat>,
                  pend: map<nat, ClaimMap>)
    requires Inv(s, busy, pend) && c in s.acct && (kind == SubtreeClaim ==> path.Some?)
    ensures Barred(Here(s, c), Here(s, c), exp, path, kind, s.tree[c].path) <==>
      (kind == SubtreeClaim && !PathChild(s.tree[c].path, path.value)) || CountedOut(s, c, exp, path)
    ensures s.acct[c].child != 0 <==> On(s.maps, c, ChildClaim) != {}
  {
    assert AccountOk(s, c, busy);
    var h := Here(s, c);
    if CountedOut(s, c, exp, path) {
      CountedIsInTheWay(s, c, exp, path, busy, pend);
    } else if z :| InTheWay(h, h, exp, path, z) {
      NoneOfKind(s, c, busy, z);
      assert MapOk(s, z, pend);
      FirstHere(s, c, z);
    }
  }

  /** A child filesystem that was not to be left alone, once the claim on it has been tried. */
  lemma ChildTreated(s0: Forest, s: Forest, exp: Export, path: Option<string>, kind: Kind, claimfs: nat -> Answer,
                     m: nat, d: nat)
    requires d in s0.tree && d in s0.acct && Local(s0, s, d, false) && s0.next !in s0.maps
    requires !Barred(Here(s0, d), Here(s0, d), exp, path, kind, s0.tree[d].path)
    requires if claimfs(d) != Claimed then s == s0
             else && s0.next in s.maps && s.maps[s0.next] == ClaimMap(exp, d, ChildClaim, Some(m))
                  && OnFilesystem(s0, s, d, Ousts(s0.acct[d], ChildClaim, exp.fsal), s0.next)
    ensures Treated(s0, s, exp, path, kind, claimfs, m, d)
  {
    LocalIsSame(s0, s, d, false);
    var was, now := Here(s0, d), Here(s, d);
    if claimfs(d) == Claimed {
      assert s0.next in now && s0.next !in was;
      if z :| InTheWay(was, now, exp, path, z) {
        assert forall y :: y in was ==> y in now && now[y] == was[y];
        assert InTheWay(was, was, exp, path, z);
      }
    }
  }

  lemma NoChildOn(s0: Forest, s3: Forest, f: nat, busy: set<nat>)
    requires f in s0.acct && AccountOk(s0, f, busy)
    requires forall x :: x in s3.maps && s3.maps[x].fs == f ==> x in s0.maps && s0.maps[x] == s3.maps[x]
    ensures s0.acct[f].child == 0 ==>
            forall x :: x in s3.maps && s3.maps[x].fs == f ==> s3.maps[x].kind != ChildClaim
  {
    if s0.acct[f].child == 0 {
      forall x | x in s3.maps && s3.maps[x].fs == f ensures s3.maps[x].kind != ChildClaim {
        NoneOfKind(s0, f, busy, x);
      }
    }
  }
}
