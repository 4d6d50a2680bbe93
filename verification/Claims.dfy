/** Claims by exports on the tree of mounted filesystems: each claim is a map from an export to
    a filesystem, and each filesystem counts the claims on it and belongs to one FSAL. */
module Claims {
  import opened Options

  datatype Kind = RootClaim | SubtreeClaim | ChildClaim

  /** An export, its FSAL, and its full path. */
  datatype Export = Export(id: nat, fsal: nat, path: string)

  /** struct fsal_filesystem_export_map; `parent` is the map on the parent filesystem that a child
      claim was made under. */
  datatype ClaimMap = ClaimMap(exp: Export, fs: nat, kind: Kind, parent: Option<nat>)

  /** Where a filesystem is mounted, and its device number. */
  datatype Mount = Mount(path: string, dev: nat, parent: Option<nat>)

  /** The claim side of struct fsal_filesystem. */
  datatype Account = Account(fsal: Option<nat>, root: int, subtree: int, child: int, all: int, temp: int)

  function Of(a: Account, k: Kind): int {
    match k case RootClaim => a.root case SubtreeClaim => a.subtree case ChildClaim => a.child
  }

  /** The mounts, the accounts, the maps and the number of the next map. */
  datatype Forest = Forest(tree: map<nat, Mount>, acct: map<nat, Account>, maps: map<nat, ClaimMap>, next: nat)

  /** The maps of one kind on filesystem `f`. */
  function On(maps: map<nat, ClaimMap>, f: nat, k: Kind): set<nat> {
    set m | m in maps && maps[m].fs == f && maps[m].kind == k
  }

  // ----- the tree of mounts ------------------------------------------------------------------------

  /** Mount points lie below their parents'. */
  ghost predicate Rooted(tree: map<nat, Mount>) {
    forall f :: f in tree && tree[f].parent.Some? ==>
      tree[f].parent.value in tree && |tree[tree[f].parent.value].path| < |tree[f].path|
  }

  ghost predicate TreeOk(tree: map<nat, Mount>, bound: nat) {
    Rooted(tree) && forall f :: f in tree ==> |tree[f].path| <= bound
  }

  function Children(tree: map<nat, Mount>, f: nat): set<nat> {
    set c | c in tree && tree[c].parent == Some(f)
  }

  /** Whether filesystem `g` is `f` or is mounted, directly or not, below it. */
  predicate Below(tree: map<nat, Mount>, g: nat, f: nat)
    decreases if g in tree then |tree[g].path| else 0
  {
    g in tree &&
    (g == f || (tree[g].parent.Some? && tree[g].parent.value in tree
                && |tree[tree[g].parent.value].path| < |tree[g].path|
                && Below(tree, tree[g].parent.value, f)))
  }

  lemma {:induction false} BelowTwice(tree: map<nat, Mount>, h: nat, g: nat, f: nat)
    requires Below(tree, h, g) && Below(tree, g, f)
    ensures Below(tree, h, f)
    decreases if h in tree then |tree[h].path| else 0
  {
    if h != g {
      BelowTwice(tree, tree[h].parent.value, g, f);
    }
  }

  lemma {:induction false} BelowLonger(tree: map<nat, Mount>, g: nat, f: nat)
    requires Below(tree, g, f)
    ensures f in tree && (g == f || |tree[f].path| < |tree[g].path|)
    decreases if g in tree then |tree[g].path| else 0
  {
    if g != f {
      BelowLonger(tree, tree[g].parent.value, f);
    }
  }

  /** A filesystem strictly below `f` is below exactly one child of `f`. */
  lemma {:induction false} ChildAbove(tree: map<nat, Mount>, g: nat, f: nat) returns (c: nat)
    requires Below(tree, g, f) && g != f
    ensures c in Children(tree, f) && Below(tree, g, c)
    decreases if g in tree then |tree[g].path| else 0
  {
    var p := tree[g].parent.value;
    if p == f {
      c := g;
    } else {
      c := ChildAbove(tree, p, f);
    }
  }

  lemma {:induction false} OneChildAbove(tree: map<nat, Mount>, g: nat, f: nat, c: nat, d: nat)
    requires Rooted(tree) && c in Children(tree, f) && d in Children(tree, f) && f in tree
    requires Below(tree, g, c) && Below(tree, g, d)
    ensures c == d
    decreases if g in tree then |tree[g].path| else 0
  {
    if g == c && c != d {
      BelowLonger(tree, f, d);
    } else if g == d && c != d {
      BelowLonger(tree, f, c);
    } else if c != d {
      OneChildAbove(tree, tree[g].parent.value, f, c, d);
    }
  }

  lemma ChildBelow(tree: map<nat, Mount>, f: nat, c: nat)
    requires Rooted(tree) && f in tree && c in Children(tree, f)
    ensures Below(tree, c, f) && c != f && |tree[f].path| < |tree[c].path|
  {
    assert Below(tree, f, f);
  }

  /** No mounted filesystem has this device number. */
  predicate NoDevice(tree: map<nat, Mount>, dev: nat) {
    forall f :: f in tree ==> tree[f].dev != dev
  }

  // ----- what holds of the claims ---------------------------------------------------------------

  /** The counters of `f`, and its owner, are right; `busy` are the filesystems with a claim being
      made on them. */
  ghost predicate AccountOk(s: Forest, f: nat, busy: set<nat>)
    requires f in s.acct
  {
    var a := s.acct[f];
    && a.root == |On(s.maps, f, RootClaim)| && a.subtree == |On(s.maps, f, SubtreeClaim)|
    && a.child == |On(s.maps, f, ChildClaim)|
    && a.all == a.root + a.subtree + a.child
    && a.temp == (if f in busy then 1 else 0)
    && (a.fsal.None? ==> a.all == 0) && (a.fsal.Some? ==> a.all > 0 || f in busy)
    && (a.root == 0 || a.child == 0)
  }

  /** A child claim hangs from a claim of the same export on the parent filesystem. */
  predicate Hangs(tree: map<nat, Mount>, c: ClaimMap, p: ClaimMap) {
    c.exp == p.exp && c.fs in tree && tree[c.fs].parent == Some(p.fs)
  }

  /** ... which is there, or is one being made (`pend`). */
  predicate ParentOk(s: Forest, c: ClaimMap, pend: map<nat, ClaimMap>)
    requires c.parent.Some?
  {
    var p := c.parent.value;
    (p in s.maps && Hangs(s.tree, c, s.maps[p])) || (p in pend && Hangs(s.tree, c, pend[p]))
  }

  /** A map is on a mounted filesystem that its FSAL owns; the child claims, and no others, have a
      parent, which is older. */
  ghost predicate MapOk(s: Forest, m: nat, pend: map<nat, ClaimMap>)
    requires m in s.maps
  {
    var c := s.maps[m];
    && m < s.next && m !in pend
    && c.fs in s.acct && s.acct[c.fs].fsal == Some(c.exp.fsal)
    && (c.kind == ChildClaim <==> c.parent.Some?)
    && (c.parent.Some? ==> c.parent.value < m && ParentOk(s, c, pend))
  }

  ghost predicate Inv(s: Forest, busy: set<nat>, pend: map<nat, ClaimMap>) {
    && s.tree.Keys == s.acct.Keys && Rooted(s.tree)
    && (forall p :: p in pend ==> p < s.next)
    && (forall f {:trigger AccountOk(s, f, busy)} :: f in s.acct ==> AccountOk(s, f, busy))
    && (forall m {:trigger MapOk(s, m, pend)} :: m in s.maps ==> MapOk(s, m, pend))
  }

  /** Nothing claimed. */
  function Unclaimed(tree: map<nat, Mount>): Forest {
    Forest(tree, map f | f in tree :: Account(None, 0, 0, 0, 0, 0), map[], 0)
  }

  lemma UnclaimedInv(tree: map<nat, Mount>)
    requires Rooted(tree)
    ensures Inv(Unclaimed(tree), {}, map[])
  {
    var s := Unclaimed(tree);
    forall f | f in s.acct ensures AccountOk(s, f, {}) {
      assert On(s.maps, f, RootClaim) == {} && On(s.maps, f, SubtreeClaim) == {};
      assert On(s.maps, f, ChildClaim) == {};
    }
  }

  /** Every export's root_fs is a filesystem on which it has a claim of its own, not a child claim. */
  ghost predicate RootsOk(s: Forest, roots: map<Export, nat>) {
    forall e :: e in roots ==> HasTop(s, e, roots[e])
  }

  ghost predicate HasTop(s: Forest, e: Export, f: nat) {
    exists x :: x in s.maps && s.maps[x].exp == e && s.maps[x].fs == f && s.maps[x].parent.None?
  }

  /** No root_fs dangles. */
  ghost predicate Mounted(s: Forest, roots: map<Export, nat>) {
    forall e :: e in roots ==> roots[e] in s.tree
  }

  lemma RootsMounted(s: Forest, roots: map<Export, nat>)
    requires Inv(s, {}, map[]) && RootsOk(s, roots)
    ensures Mounted(s, roots)
  {
    forall e | e in roots ensures roots[e] in s.tree {
      assert HasTop(s, e, roots[e]);
      var x :| x in s.maps && s.maps[x].exp == e && s.maps[x].fs == roots[e] && s.maps[x].parent.None?;
      assert MapOk(s, x, map[]);
    }
  }

  /** The first child claim in the list of claims on `f`. Claims on one filesystem are made one after
      the other, so they are in its list in the order of their numbers. */
  predicate FirstChild(maps: map<nat, ClaimMap>, f: nat, x: nat) {
    x in On(maps, f, ChildClaim) && forall y :: y in On(maps, f, ChildClaim) ==> x <= y
  }

  lemma FirstChildThere(maps: map<nat, ClaimMap>, f: nat)
    requires On(maps, f, ChildClaim) != {}
    ensures exists x :: FirstChild(maps, f, x)
  {
    var x := Least(On(maps, f, ChildClaim));
    assert FirstChild(maps, f, x);
  }

  lemma {:induction false} Least(s: set<nat>) returns (x: nat)
    requires s != {}
    ensures x in s && forall y :: y in s ==> x <= y
    decreases |s|
  {
    x :| x in s;
    var rest := s - {x};
    assert s == rest + {x};
    if rest != {} {
      var z := Least(rest);
      x := if z < x then z else x;
    }
  }

  // ----- taking out and putting in one map ---------------------------------------------------------

  function Count(a: Account, k: Kind, n: int): Account {
    var b := match k
      case RootClaim => a.(root := a.root + n)
      case SubtreeClaim => a.(subtree := a.subtree + n)
      case ChildClaim => a.(child := a.child + n);
    b.(all := a.all + n)
  }

  /** The account once the map is out: when the last claim goes, and none is being made, the FSAL
      lets go. */
  function Dropped(a: Account, k: Kind): Account {
    var b := Count(a, k, -1);
    if b.all == 0 && b.temp == 0 then b.(fsal := None) else b
  }

  function Without(s: Forest, m: nat): Forest
    requires m in s.maps && s.maps[m].fs in s.acct
  {
    var f := s.maps[m].fs;
    s.(maps := s.maps - {m}, acct := s.acct[f := Dropped(s.acct[f], s.maps[m].kind)])
  }

  predicate Leaf(s: Forest, m: nat) {
    forall c :: c in s.maps ==> s.maps[c].parent != Some(m)
  }

  lemma OnWithout(s: Forest, m: nat, f: nat, k: Kind)
    requires m in s.maps
    ensures var c := s.maps[m];
      |On(s.maps - {m}, f, k)| == |On(s.maps, f, k)| - if c.fs == f && c.kind == k then 1 else 0
  {
    var c := s.maps[m];
    if c.fs == f && c.kind == k {
      assert On(s.maps - {m}, f, k) == On(s.maps, f, k) - {m};
    } else {
      assert On(s.maps - {m}, f, k) == On(s.maps, f, k);
    }
  }

  lemma WithoutAccount(s: Forest, m: nat, f: nat, busy: set<nat>)
    requires m in s.maps && s.maps[m].fs in s.acct && f in s.acct && AccountOk(s, f, busy)
    ensures AccountOk(Without(s, m), f, busy)
  {
    OnWithout(s, m, f, RootClaim);
    OnWithout(s, m, f, SubtreeClaim);
    OnWithout(s, m, f, ChildClaim);
    assert m in On(s.maps, s.maps[m].fs, s.maps[m].kind);
  }

  /** If nothing is left on a filesystem, no map is. */
  lemma NoneLeft(s: Forest, m: nat, busy: set<nat>, pend: map<nat, ClaimMap>)
    requires Inv(s, busy, pend) && m in s.maps
    ensures s.maps[m].fs in s.acct && s.acct[s.maps[m].fs].all > 0
    ensures Of(s.acct[s.maps[m].fs], s.maps[m].kind) > 0
  {
    assert MapOk(s, m, pend);
    assert AccountOk(s, s.maps[m].fs, busy);
    assert m in On(s.maps, s.maps[m].fs, s.maps[m].kind);
  }

  lemma WithoutInv(s: Forest, m: nat, busy: set<nat>, pend: map<nat, ClaimMap>)
    requires Inv(s, busy, pend) && m in s.maps && Leaf(s, m)
    ensures s.maps[m].fs in s.acct && Inv(Without(s, m), busy, pend)
  {
    assert MapOk(s, m, pend);
    var s' := Without(s, m);
    forall f | f in s'.acct ensures AccountOk(s', f, busy) {
      assert AccountOk(s, f, busy);
      WithoutAccount(s, m, f, busy);
    }
    forall x | x in s'.maps ensures MapOk(s', x, pend) {
      assert MapOk(s, x, pend) && AccountOk(s', s.maps[x].fs, busy);
      StillThere(s, m, x, busy, pend);
    }
  }

  /** Another map on the same filesystem keeps its owner. */
  lemma StillThere(s: Forest, m: nat, x: nat, busy: set<nat>, pend: map<nat, ClaimMap>)
    requires m in s.maps && MapOk(s, m, pend) && x in s.maps && MapOk(s, x, pend) && x != m && Leaf(s, m)
    requires AccountOk(Without(s, m), s.maps[x].fs, busy)
    ensures MapOk(Without(s, m), x, pend)
  {
    assert x in On(s.maps - {m}, s.maps[x].fs, s.maps[x].kind);
  }

  /** The account once a new claim is made by `fsal`. */
  function With(s: Forest, m: nat, c: ClaimMap): Forest
    requires c.fs in s.acct
  {
    s.(maps := s.maps[m := c],
       acct := s.acct[c.fs := Count(s.acct[c.fs], c.kind, 1).(temp := s.acct[c.fs].temp - 1)])
  }

  lemma OnWith(s: Forest, m: nat, c: ClaimMap, f: nat, k: Kind)
    requires m !in s.maps
    ensures |On(s.maps[m := c], f, k)| == |On(s.maps, f, k)| + if c.fs == f && c.kind == k then 1 else 0
  {
    if c.fs == f && c.kind == k {
      assert On(s.maps[m := c], f, k) == On(s.maps, f, k) + {m};
    } else {
      assert On(s.maps[m := c], f, k) == On(s.maps, f, k);
    }
  }

  lemma WithAccount(s: Forest, m: nat, c: ClaimMap, f: nat, busy: set<nat>)
    requires f in s.acct && AccountOk(s, f, busy) && m !in s.maps
    requires c.fs in s.acct && c.fs in busy && s.acct[c.fs].fsal.Some?
    requires c.kind == RootClaim ==> s.acct[c.fs].child == 0
    requires c.kind == ChildClaim ==> s.acct[c.fs].root == 0
    ensures AccountOk(With(s, m, c), f, busy - {c.fs})
  {
    OnWith(s, m, c, f, RootClaim);
    OnWith(s, m, c, f, SubtreeClaim);
    OnWith(s, m, c, f, ChildClaim);
  }

  lemma WithInv(s: Forest, m: nat, c: ClaimMap, busy: set<nat>, pend: map<nat, ClaimMap>)
    requires Inv(s, busy, pend) && m in pend && m !in s.maps && c == pend[m]
    requires c.fs in s.acct && c.fs in busy && s.acct[c.fs].fsal == Some(c.exp.fsal)
    requires c.kind == RootClaim ==> s.acct[c.fs].child == 0
    requires c.kind == ChildClaim ==> s.acct[c.fs].root == 0
    requires ParentReady(s.tree, c, m, pend)
    ensures Inv(With(s, m, c), busy - {c.fs}, pend - {m})
  {
    var s' := With(s, m, c);
    forall f | f in s'.acct ensures AccountOk(s', f, busy - {c.fs}) {
      assert AccountOk(s, f, busy);
      WithAccount(s, m, c, f, busy);
    }
    forall x | x in s'.maps ensures MapOk(s', x, pend - {m}) {
      if x != m {
        assert MapOk(s, x, pend);
        WithMap(s, m, c, x, pend);
      }
    }
  }

  /** The claim that a child claim is to be made under is being made. */
  predicate ParentReady(tree: map<nat, Mount>, c: ClaimMap, m: nat, pend: map<nat, ClaimMap>) {
    && (c.kind == ChildClaim <==> c.parent.Some?)
    && (c.parent.Some? ==> c.parent.value < m && c.parent.value in pend && Hangs(tree, c, pend[c.parent.value]))
  }

  lemma WithMap(s: Forest, m: nat, c: ClaimMap, x: nat, pend: map<nat, ClaimMap>)
    requires x in s.maps && MapOk(s, x, pend) && m !in s.maps && c.fs in s.acct && x != m
    requires m in pend && c == pend[m]
    ensures MapOk(With(s, m, c), x, pend - {m})
  {}

  // ----- the maps under a map --------------------------------------------------------------------------

  /** Whether map `x` is `m` or was made, directly or not, under it. */
  predicate Under(maps: map<nat, ClaimMap>, x: nat, m: nat)
    decreases x
  {
    x == m || (x in maps && maps[x].parent.Some? && maps[x].parent.value < x
               && Under(maps, maps[x].parent.value, m))
  }

  lemma {:induction false} UnderMono(small: map<nat, ClaimMap>, big: map<nat, ClaimMap>, x: nat, c: nat, m: nat)
    requires forall y :: y in small ==> y in big && small[y] == big[y]
    requires Under(small, x, c) && Under(big, c, m)
    ensures Under(big, x, m)
    decreases x
  {
    if x != c {
      UnderMono(small, big, small[x].parent.value, c, m);
    }
  }

  /** Every parent link leads to an older map that is there, or that was not there before. */
  ghost predicate Linked(maps: map<nat, ClaimMap>, before: map<nat, ClaimMap>) {
    && (forall y :: y in maps ==> y in before && maps[y] == before[y])
    && (forall y :: y in maps && maps[y].parent.Some? ==>
          maps[y].parent.value < y && (maps[y].parent.value in maps || maps[y].parent.value !in before))
  }

  lemma InvLinked(s: Forest, s0: Forest, busy: set<nat>, pend: map<nat, ClaimMap>)
    requires Inv(s, busy, pend) && Inv(s0, busy, pend)
    requires forall y :: y in s.maps ==> y in s0.maps && s.maps[y] == s0.maps[y]
    ensures Linked(s.maps, s0.maps)
  {
    forall y | y in s.maps && s.maps[y].parent.Some?
      ensures s.maps[y].parent.value < y
      ensures s.maps[y].parent.value in s.maps || s.maps[y].parent.value !in s0.maps
    {
      assert MapOk(s, y, pend);
      var p := s.maps[y].parent.value;
      if p in s0.maps {
        assert MapOk(s0, p, pend);
      }
    }
  }

  /** Once none of the maps directly under `m` is left, none at all under it is. */
  lemma {:induction false} NoneUnder(maps: map<nat, ClaimMap>, before: map<nat, ClaimMap>, m: nat, x: nat)
    requires Linked(maps, before) && m in maps && x in maps && x != m
    requires forall c :: c in maps ==> maps[c].parent != Some(m)
    ensures !Under(before, x, m)
    decreases x
  {
    if Under(before, x, m) {
      var p := maps[x].parent.value;
      if p in maps {
        NoneUnder(maps, before, m, p);
      }
    }
  }

  lemma {:induction false} FewerKeys(a: set<nat>, b: set<nat>)
    requires a < b
    ensures |a| < |b|
  {
    assert b == a + (b - a);
  }

  /** What unclaiming leaves: some of the maps, as they were; and an owner, unless nothing is left
      and no claim is being made. */
  ghost predicate Shrunk(s0: Forest, s: Forest, busy: set<nat>) {
    && s.tree == s0.tree && s.next == s0.next && s.acct.Keys == s0.acct.Keys
    && (forall x :: x in s.maps ==> x in s0.maps && s.maps[x] == s0.maps[x])
    && (forall f :: f in s.acct ==>
          s.acct[f].fsal == s0.acct[f].fsal || (s.acct[f].fsal.None? && f !in busy))
  }

  lemma ShrunkTwice(s0: Forest, s1: Forest, s2: Forest, busy: set<nat>)
    requires Shrunk(s0, s1, busy) && Shrunk(s1, s2, busy)
    ensures Shrunk(s0, s2, busy)
  {}

  lemma WithoutShrunk(s: Forest, m: nat, busy: set<nat>, pend: map<nat, ClaimMap>)
    requires Inv(s, busy, pend) && m in s.maps && MapOk(s, m, pend)
    ensures Shrunk(s, Without(s, m), busy)
  {
    assert AccountOk(s, s.maps[m].fs, busy);
  }

  lemma UnclaimProgress(s0: Forest, s1: Forest, s2: Forest, x: nat, busy: set<nat>)
    requires Shrunk(s0, s1, busy) && Shrunk(s1, s2, busy) && x in s1.maps && GoneUnder(s1, s2, x)
    ensures Shrunk(s0, s2, busy) && |s2.maps.Keys| < |s1.maps.Keys|
  {
    ShrunkTwice(s0, s1, s2, busy);
    assert Under(s1.maps, x, x);
    FewerKeys(s2.maps.Keys, s1.maps.Keys);
  }

  /** Of the maps there were, those under `m` are gone and the others are not. */
  ghost predicate GoneUnder(s0: Forest, s: Forest, m: nat) {
    forall x :: x in s0.maps ==> (x in s.maps <==> !Under(s0.maps, x, m))
  }

  ghost predicate OnlyUnder(s0: Forest, s: Forest, m: nat) {
    forall x :: x in s0.maps && x !in s.maps ==> Under(s0.maps, x, m)
  }

  lemma AllGone(s0: Forest, s: Forest, m: nat)
    requires Linked(s.maps, s0.maps) && OnlyUnder(s0, s, m)
    requires m in s.maps && Leaf(s, m)
    ensures GoneUnder(s0, s.(maps := s.maps - {m}), m)
  {
    forall x | x in s.maps && x != m ensures !Under(s0.maps, x, m) {
      NoneUnder(s.maps, s0.maps, m, x);
    }
  }

  /** A map that went with one made under `m` was itself under `m`, and `m` did not go. */
  lemma RemovedUnder(s0: Forest, s1: Forest, s2: Forest, c: nat, m: nat, busy: set<nat>)
    requires Shrunk(s0, s1, busy) && Shrunk(s1, s2, busy) && m in s1.maps && m < c
    requires c in s1.maps && s1.maps[c].parent == Some(m)
    requires OnlyUnder(s0, s1, m) && GoneUnder(s1, s2, c)
    ensures Shrunk(s0, s2, busy) && m in s2.maps && s2.maps.Keys < s1.maps.Keys
    ensures OnlyUnder(s0, s2, m)
  {
    ShrunkTwice(s0, s1, s2, busy);
    UnderIsNewer(s1.maps, m, c);
    assert Under(s0.maps, c, m);
    forall x | x in s0.maps && x !in s2.maps ensures Under(s0.maps, x, m) {
      if x in s1.maps {
        UnderMono(s1.maps, s0.maps, x, c, m);
      }
    }
  }

  lemma {:induction false} UnderIsNewer(maps: map<nat, ClaimMap>, x: nat, m: nat)
    ensures Under(maps, x, m) ==> x >= m
    decreases x
  {
    if x != m && x in maps && maps[x].parent.Some? && maps[x].parent.value < x {
      UnderIsNewer(maps, maps[x].parent.value, m);
    }
  }

  // ----- making a claim --------------------------------------------------------------------------------

  /** is_path_child. */
  predicate PathChild(path: string, above: string) {
    |path| > |above| && path[|above|] == '/' && path[..|above|] == above
  }

  /** The path goes on below the other. */
  ghost predicate GoesOn(path: string, above: string) {
    exists rest: string :: path == above + "/" + rest
  }

  lemma PathChildIff(path: string, above: string)
    ensures PathChild(path, above) <==> GoesOn(path, above)
  {
    if PathChild(path, above) {
      assert path == above + "/" + path[|above| + 1..];
    }
  }

  /** A child claim, under a claim on `f` of an export above `path`, on a filesystem below it. */
  predicate Overlapped(s: Forest, x: nat, f: nat, path: string)
    requires x in s.maps
  {
    var c := s.maps[x];
    && c.parent.Some? && c.parent.value in s.maps && s.maps[c.parent.value].fs == f
    && PathChild(path, s.maps[c.parent.value].exp.path)
    && c.fs in s.tree && PathChild(s.tree[c.fs].path, path)
  }

  /** Claims are being made on `f` and on filesystems above it only. */
  ghost predicate Ready(tree: map<nat, Mount>, bound: nat, f: nat, busy: set<nat>) {
    && TreeOk(tree, bound) && f in tree
    && forall g :: g in busy ==> g in tree && |tree[g].path| <= |tree[f].path|
  }

  /** A claim is being made on `f`. */
  function Marked(s: Forest, f: nat): Forest
    requires f in s.acct
  {
    s.(acct := s.acct[f := s.acct[f].(temp := s.acct[f].temp + 1)])
  }

  /** An account is as right as it was if nothing that it speaks of has changed. */
  lemma SameAccount(s: Forest, s': Forest, g: nat, busy: set<nat>, busy': set<nat>)
    requires g in s.acct && g in s'.acct && s'.acct[g] == s.acct[g] && s'.maps == s.maps
    requires (g in busy <==> g in busy') && AccountOk(s, g, busy)
    ensures AccountOk(s', g, busy')
  {}

  lemma MarkedInv(s: Forest, f: nat, busy: set<nat>, pend: map<nat, ClaimMap>)
    requires Inv(s, busy, pend) && f in s.acct && f !in busy
    ensures Inv(Marked(s, f), busy + {f}, pend)
  {
    var s' := Marked(s, f);
    forall g | g in s'.acct ensures AccountOk(s', g, busy + {f}) {
      assert AccountOk(s, g, busy);
      if g != f {
        SameAccount(s, s', g, busy, busy + {f});
      }
    }
    forall x | x in s'.maps ensures MapOk(s', x, pend) {
      assert MapOk(s, x, pend);
    }
  }

  function Owned(s: Forest, f: nat, fsal: nat): Forest
    requires f in s.acct
  {
    s.(acct := s.acct[f := s.acct[f].(fsal := Some(fsal))])
  }

  lemma OwnedInv(s: Forest, f: nat, fsal: nat, busy: set<nat>, pend: map<nat, ClaimMap>)
    requires Inv(s, busy, pend) && f in s.acct && f in busy
    requires s.acct[f].fsal == Some(fsal) || forall x :: x in s.maps ==> s.maps[x].fs != f
    ensures Inv(Owned(s, f, fsal), busy, pend)
  {
    var s' := Owned(s, f, fsal);
    forall g | g in s'.acct ensures AccountOk(s', g, busy) {
      assert AccountOk(s, g, busy);
      if g != f {
        SameAccount(s, s', g, busy, busy);
      }
    }
    forall x | x in s'.maps ensures MapOk(s', x, pend) {
      assert MapOk(s, x, pend);
      OwnedMap(s, f, fsal, x, pend);
    }
  }

  lemma OwnedMap(s: Forest, f: nat, fsal: nat, x: nat, pend: map<nat, ClaimMap>)
    requires f in s.acct && x in s.maps && MapOk(s, x, pend)
    requires s.acct[f].fsal == Some(fsal) || s.maps[x].fs != f
    ensures MapOk(Owned(s, f, fsal), x, pend)
  {}

  lemma NumberedInv(s: Forest, c: ClaimMap, busy: set<nat>, pend: map<nat, ClaimMap>)
    requires Inv(s, busy, pend)
    ensures s.next !in s.maps && Inv(s.(next := s.next + 1), busy, pend[s.next := c])
  {
    var s' := s.(next := s.next + 1);
    assert s.next in s.maps ==> MapOk(s, s.next, pend);
    forall g | g in s'.acct ensures AccountOk(s', g, busy) {
      assert AccountOk(s, g, busy);
      SameAccount(s, s', g, busy, busy);
    }
    forall x | x in s'.maps ensures MapOk(s', x, pend[s.next := c]) {
      assert MapOk(s, x, pend);
    }
  }

  /** No claim of the kind is on a filesystem whose counter is zero. */
  lemma NoneOfKind(s: Forest, f: nat, busy: set<nat>, x: nat)
    requires f in s.acct && AccountOk(s, f, busy) && x in s.maps && s.maps[x].fs == f
    ensures Of(s.acct[f], s.maps[x].kind) > 0 && s.acct[f].all > 0
  {
    assert x in On(s.maps, f, s.maps[x].kind);
  }

  /** After the claims that had to go have gone. */
  lemma Emptied(s1: Forest, s2: Forest, f: nat, kind: Kind, exp: Export, busy: set<nat>, pend: map<nat, ClaimMap>)
    requires Inv(s2, busy, pend) && f in s1.acct && f in busy
    requires s1.acct[f].fsal == Some(exp.fsal) || (s1.acct[f].root == 0 && s1.acct[f].subtree == 0)
    requires kind == ChildClaim ==> s1.acct[f].root == 0
    requires if s1.acct[f].child != 0 && (s1.acct[f].fsal != Some(exp.fsal) || kind == RootClaim)
             then Shrunk(s1, s2, busy) && forall x :: x in s2.maps ==> s2.maps[x].fs != f
             else s2 == s1
    ensures f in s2.acct
    ensures s2.acct[f].fsal == Some(exp.fsal) || forall x :: x in s2.maps ==> s2.maps[x].fs != f
    ensures kind == RootClaim ==> s2.acct[f].child == 0
    ensures kind == ChildClaim ==> s2.acct[f].root == 0
  {
    assert AccountOk(s2, f, busy);
    if forall x :: x in s2.maps ==> s2.maps[x].fs != f {
      assert On(s2.maps, f, ChildClaim) == {} && On(s2.maps, f, RootClaim) == {};
    } else {
      var x :| x in s2.maps && s2.maps[x].fs == f;
      NoneOfKind(s2, f, busy, x);
    }
  }

  /** What the FSAL answers when it is asked to claim a filesystem, and what process_claim does. */
  const ENOENT: int := 2

  datatype Answer = Claimed | Enxio | Failed(code: int)
  datatype Result = Zero | Einval | Errno(code: int)

  function KindOf(path: Option<string>, at: string): Kind {
    if path.None? then ChildClaim else if path.value == at then RootClaim else SubtreeClaim
  }

  /** The result: refused where another FSAL has a claim of its own; otherwise as the FSAL answers,
      except that a child filesystem it cannot claim is no error. */
  function Outcome(s: Forest, path: Option<string>, f: nat, exp: Export, claimfs: nat -> Answer): Result
    requires f in s.acct
  {
    if s.acct[f].fsal != Some(exp.fsal) && (s.acct[f].root != 0 || s.acct[f].subtree != 0) then Einval
    else match claimfs(f)
      case Claimed => Zero
      case Enxio => if path.None? then Zero else Einval
      case Failed(code) => Errno(code)
  }

  /** A claim is refused with EINVAL iff another FSAL has a claim of its own on the filesystem, or the FSAL says
      that the filesystem is not for it and the claim is no child claim; the FSAL's other errors are passed on;
      and there is no error in all other cases. */
  lemma OutcomeIff(s: Forest, path: Option<string>, f: nat, exp: Export, claimfs: nat -> Answer, busy: set<nat>,
                   pend: map<nat, ClaimMap>)
    requires Inv(s, busy, pend) && f in s.acct
    ensures var rc := Outcome(s, path, f, exp, claimfs);
      var taken := exists x :: x in s.maps && s.maps[x].fs == f && s.maps[x].kind != ChildClaim
                               && s.maps[x].exp.fsal != exp.fsal;
      && (rc == Einval <==> taken || (claimfs(f) == Enxio && path.Some?))
      && (rc.Errno? <==> !taken && claimfs(f).Failed?) && (rc.Errno? ==> rc.code == claimfs(f).code)
      && (rc == Zero <==> !taken && (claimfs(f) == Claimed || (claimfs(f) == Enxio && path.None?)))
  {
    assert AccountOk(s, f, busy);
    forall x | x in s.maps && s.maps[x].fs == f && s.maps[x].kind != ChildClaim
      ensures s.acct[f].fsal == Some(s.maps[x].exp.fsal) && (s.acct[f].root != 0 || s.acct[f].subtree != 0)
    {
      assert MapOk(s, x, pend) && x in On(s.maps, f, s.maps[x].kind);
    }
    if s.acct[f].root != 0 {
      var x :| x in On(s.maps, f, RootClaim);
      assert x in s.maps && s.maps[x].fs == f;
    } else if s.acct[f].subtree != 0 {
      var x :| x in On(s.maps, f, SubtreeClaim);
      assert x in s.maps && s.maps[x].fs == f;
    }
  }

  lemma NonePending(s: Forest, busy: set<nat>, pend: map<nat, ClaimMap>)
    requires Inv(s, busy, pend)
    ensures forall x :: x in s.maps ==> x !in pend
  {
    forall x | x in s.maps ensures x !in pend {
      assert MapOk(s, x, pend);
    }
  }

  /** Between operations: the counters count the maps, nothing is claimed temporarily, all maps on a
      filesystem are its one owner's, it has an owner exactly while it has maps, and root and child
      claims are never on it together. */
  lemma BetweenOperations(s: Forest, f: nat)
    requires Inv(s, {}, map[]) && f in s.acct
    ensures forall k: Kind :: Of(s.acct[f], k) == |On(s.maps, f, k)|
    ensures s.acct[f].all == |On(s.maps, f, RootClaim)| + |On(s.maps, f, SubtreeClaim)| + |On(s.maps, f, ChildClaim)|
    ensures s.acct[f].temp == 0 && (s.acct[f].fsal.Some? <==> exists x :: x in s.maps && s.maps[x].fs == f)
    ensures forall x :: x in s.maps && s.maps[x].fs == f ==> s.acct[f].fsal == Some(s.maps[x].exp.fsal)
    ensures On(s.maps, f, RootClaim) == {} || On(s.maps, f, ChildClaim) == {}
    ensures forall x :: x in s.maps && s.maps[x].parent.Some? ==> s.maps[x].parent.value in s.maps
  {
    assert AccountOk(s, f, {});
    forall x | x in s.maps
      ensures s.maps[x].fs == f ==> s.acct[f].fsal == Some(s.maps[x].exp.fsal)
      ensures s.maps[x].parent.Some? ==> s.maps[x].parent.value in s.maps
    {
      assert MapOk(s, x, map[]);
    }
    if s.acct[f].all > 0 {
      var k := if s.acct[f].root > 0 then RootClaim else if s.acct[f].subtree > 0 then SubtreeClaim else ChildClaim;
      var x :| x in On(s.maps, f, k);
    }
  }

  /** Putting a new map in place, seen from where its claim was not being made yet. */
  lemma EnteredInv(s: Forest, m: nat, c: ClaimMap, busy: set<nat>, pend: map<nat, ClaimMap>)
    requires Inv(s, busy + {c.fs}, pend[m := c]) && m !in s.maps && m !in pend && c.fs !in busy
    requires c.fs in s.acct && s.acct[c.fs].fsal == Some(c.exp.fsal)
    requires c.kind == RootClaim ==> s.acct[c.fs].child == 0
    requires c.kind == ChildClaim ==> s.acct[c.fs].root == 0
    requires ParentReady(s.tree, c, m, pend)
    ensures Inv(With(s, m, c), busy, pend)
  {
    WithInv(s, m, c, busy + {c.fs}, pend[m := c]);
    assert busy + {c.fs} - {c.fs} == busy && pend[m := c] - {m} == pend;
  }
}
