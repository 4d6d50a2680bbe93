/** Which claims a new claim ends. */
module ClaimEnds {
  import opened ClaimEffects
  import opened Claims
  import opened Options

  /** Map `x` is one of `base` or was made under one. */
  ghost predicate UnderSome(maps: map<nat, ClaimMap>, x: nat, base: set<nat>) {
    exists z :: z in base && Under(maps, x, z)
  }

  /** Only the maps `base` and those made under them have gone. */
  ghost predicate GoneOnly(s0: Forest, s: Forest, base: set<nat>) {
    forall x {:trigger UnderSome(s0.maps, x, base)} :: x in s0.maps && x !in s.maps ==> UnderSome(s0.maps, x, base)
  }

  /** ... and all of them have. */
  ghost predicate GoneExactly(s0: Forest, s: Forest, base: set<nat>) {
    forall x {:trigger UnderSome(s0.maps, x, base)} :: x in s0.maps ==> (x in s.maps <==> !UnderSome(s0.maps, x, base))
  }

  /** The maps that were there and still are have not changed. */
  ghost predicate SameMaps(s0: Forest, s: Forest) {
    Numbered(s0, s) && forall x :: x in s0.maps && x in s.maps ==> s.maps[x] == s0.maps[x]
  }

  lemma LocalSame(s0: Forest, s: Forest, f: nat, strict: bool)
    requires Local(s0, s, f, strict)
    ensures SameMaps(s0, s)
  {
    forall x | x in s0.maps && x in s.maps ensures s.maps[x] == s0.maps[x] {
      assert MapStays(s0, s, x, f, strict);
    }
  }

  lemma AddedOwn(s0: Forest, s: Forest, f: nat, exp: Export)
    requires Added(s0, s, f, false, exp)
    ensures forall x :: x in s.maps && x !in s0.maps ==> s.maps[x].exp == exp
  {
    forall x | x in s.maps && x !in s0.maps ensures s.maps[x].exp == exp {
      assert MapNew(s0, s, x, f, false, exp);
    }
  }

  lemma GoneMore(s0: Forest, s: Forest, base: set<nat>, more: set<nat>)
    requires GoneOnly(s0, s, base) && base <= more
    ensures GoneOnly(s0, s, more)
  {
    forall x | x in s0.maps && x !in s.maps ensures UnderSome(s0.maps, x, more) {
      assert UnderSome(s0.maps, x, base);
    }
  }

  /** What an old map was made under has not changed. */
  lemma {:induction false} UnderBefore(s0: Forest, s1: Forest, x: nat, z: nat)
    requires SameMaps(s0, s1) && x in s0.maps && Under(s1.maps, x, z)
    ensures Under(s0.maps, x, z)
    decreases x
  {
    if x != z {
      var p := s1.maps[x].parent.value;
      if p == z {
        assert Under(s0.maps, p, z);
      } else {
        assert p in s1.maps && p < s0.next;
        UnderBefore(s0, s1, p, z);
      }
    }
  }

  lemma GoneTwice(s0: Forest, s1: Forest, s2: Forest, base: set<nat>, more: set<nat>)
    requires SameMaps(s0, s1) && GoneOnly(s0, s1, base) && GoneOnly(s1, s2, more)
    ensures GoneOnly(s0, s2, base + more)
  {
    forall x | x in s0.maps && x !in s2.maps ensures UnderSome(s0.maps, x, base + more) {
      if x in s1.maps {
        assert UnderSome(s1.maps, x, more);
        var z :| z in more && Under(s1.maps, x, z);
        UnderBefore(s0, s1, x, z);
        assert z in base + more;
      } else {
        assert UnderSome(s0.maps, x, base);
        var z :| z in base && Under(s0.maps, x, z);
        assert z in base + more;
      }
    }
  }

  // ----- claims of another FSAL on a filesystem that is claimed -----------------------------------------

  ghost predicate NewOn(s0: Forest, s: Forest, g: nat) {
    exists y :: y in s.maps && y !in s0.maps && s.maps[y].fs == g
  }

  /** A child claim of another FSAL, on a filesystem that there is a new claim on. */
  ghost predicate Foreign(s0: Forest, s: Forest, exp: Export, z: nat) {
    && z in s0.maps && s0.maps[z].kind == ChildClaim && s0.maps[z].exp.fsal != exp.fsal
    && NewOn(s0, s, s0.maps[z].fs)
  }

  ghost function Foreigners(s0: Forest, s: Forest, exp: Export): set<nat> {
    set z | z in s0.maps && Foreign(s0, s, exp, z)
  }

  /** Only such claims, and those made under them, have gone. */
  ghost predicate OnlyForeign(s0: Forest, s: Forest, exp: Export) {
    GoneOnly(s0, s, Foreigners(s0, s, exp))
  }

  /** The claims of the FSAL itself all stay. */
  lemma OwnStay(s0: Forest, s: Forest, exp: Export, y: nat, busy: set<nat>, pend: map<nat, ClaimMap>)
    requires Inv(s0, busy, pend) && OnlyForeign(s0, s, exp) && y in s0.maps && s0.maps[y].exp.fsal == exp.fsal
    ensures y in s.maps
  {
    if y !in s.maps {
      var base := Foreigners(s0, s, exp);
      assert UnderSome(s0.maps, y, base);
      var z :| z in base && Under(s0.maps, y, z);
      UnderBelow(s0, y, z, busy, pend);
    }
  }

  lemma ForeignTwice(s0: Forest, s1: Forest, s2: Forest, f: nat, strict: bool, exp: Export, busy: set<nat>,
                     pend: map<nat, ClaimMap>)
    requires Inv(s1, busy, pend) && Confined(s0, s1, f, strict, exp) && SameMaps(s1, s2)
    requires OnlyForeign(s0, s1, exp) && OnlyForeign(s1, s2, exp)
    ensures OnlyForeign(s0, s2, exp)
  {
    LocalSame(s0, s1, f, strict);
    var b, c, all := Foreigners(s0, s1, exp), Foreigners(s1, s2, exp), Foreigners(s0, s2, exp);
    GoneTwice(s0, s1, s2, b, c);
    forall z | z in b ensures z in all {
      StillForeign(s0, s1, s2, f, strict, exp, z, busy, pend);
    }
    forall z | z in c ensures z in all {
      ForeignBefore(s0, s1, s2, f, strict, exp, z);
    }
    GoneMore(s0, s2, b + c, all);
  }

  lemma StillForeign(s0: Forest, s1: Forest, s2: Forest, f: nat, strict: bool, exp: Export, z: nat, busy: set<nat>,
                     pend: map<nat, ClaimMap>)
    requires Inv(s1, busy, pend) && Confined(s0, s1, f, strict, exp) && SameMaps(s1, s2)
    requires OnlyForeign(s1, s2, exp) && Foreign(s0, s1, exp, z)
    ensures Foreign(s0, s2, exp, z)
  {
    var y :| y in s1.maps && y !in s0.maps && s1.maps[y].fs == s0.maps[z].fs;
    assert MapNew(s0, s1, y, f, strict, exp);
    OwnStay(s1, s2, exp, y, busy, pend);
    assert y in s2.maps && s2.maps[y].fs == s0.maps[z].fs;
  }

  lemma ForeignBefore(s0: Forest, s1: Forest, s2: Forest, f: nat, strict: bool, exp: Export, z: nat)
    requires Confined(s0, s1, f, strict, exp) && SameMaps(s1, s2) && Foreign(s1, s2, exp, z)
    ensures Foreign(s0, s2, exp, z)
  {
    assert z !in s0.maps ==> MapNew(s0, s1, z, f, strict, exp);
    assert MapStays(s0, s1, z, f, strict);
    var y :| y in s2.maps && y !in s1.maps && s2.maps[y].fs == s1.maps[z].fs;
    assert y >= s1.next;
    assert y in s2.maps && y !in s0.maps;
  }

  // ----- the whole claim ------------------------------------------------------------------------------

  /** The claims on the filesystem itself that make way. */
  ghost function Ousted(s: Forest, f: nat, kind: Kind, fsal: nat): set<nat>
    requires f in s.acct
  {
    set x | x in s.maps && s.maps[x].fs == f && Ousts(s.acct[f], kind, fsal)
  }

  /** The child claims that a subtree claim takes over. */
  ghost function Cleaned(s: Forest, f: nat, kind: Kind, path: Option<string>): set<nat> {
    set x | x in s.maps && kind == SubtreeClaim && path.Some? && Overlapped(s, x, f, path.value)
  }

  /** All that a claim on `f` ends. */
  ghost function Ends(s0: Forest, s: Forest, f: nat, kind: Kind, path: Option<string>, exp: Export): set<nat>
    requires f in s0.acct
  {
    Ousted(s0, f, kind, exp.fsal) + Cleaned(s0, f, kind, path) + Foreigners(s0, s, exp)
  }

  /** What is ended, plainly. On the filesystem itself all claims, if one of them is a child claim and the claim
      is a root claim or of another FSAL; for a subtree claim, the child claims that hang from a claim on the
      filesystem of an export with a path above, where they lie below the claim's own path; and another FSAL's
      claims where a child claim is made. */
  lemma EndsPlainly(s0: Forest, s: Forest, f: nat, kind: Kind, path: Option<string>, exp: Export, busy: set<nat>,
                    pend: map<nat, ClaimMap>, x: nat)
    requires Inv(s0, busy, pend) && f in s0.acct && x in s0.maps
    requires kind == SubtreeClaim <==> path.Some? && kind != RootClaim
    ensures x in Ends(s0, s, f, kind, path, exp) <==>
      || (s0.maps[x].fs == f
          && exists z :: z in s0.maps && s0.maps[z].fs == f && s0.maps[z].kind == ChildClaim
                         && (kind == RootClaim || s0.maps[z].exp.fsal != exp.fsal))
      || (kind == SubtreeClaim && s0.maps[x].parent.Some? && s0.maps[x].parent.value in s0.maps
          && s0.maps[s0.maps[x].parent.value].fs == f && s0.maps[x].fs in s0.tree
          && GoesOn(path.value, s0.maps[s0.maps[x].parent.value].exp.path)
          && GoesOn(s0.tree[s0.maps[x].fs].path, path.value))
      || Foreign(s0, s, exp, x)
  {
    OustsIff(s0, f, kind, exp.fsal, busy, pend);
    if kind == SubtreeClaim && s0.maps[x].parent.Some? && s0.maps[x].parent.value in s0.maps && s0.maps[x].fs in s0.tree {
      PathChildIff(path.value, s0.maps[s0.maps[x].parent.value].exp.path);
      PathChildIff(s0.tree[s0.maps[x].fs].path, path.value);
    }
  }

  lemma OustsIff(s: Forest, f: nat, kind: Kind, fsal: nat, busy: set<nat>, pend: map<nat, ClaimMap>)
    requires Inv(s, busy, pend) && f in s.acct
    ensures Ousts(s.acct[f], kind, fsal) <==>
      exists z :: z in s.maps && s.maps[z].fs == f && s.maps[z].kind == ChildClaim
                  && (kind == RootClaim || s.maps[z].exp.fsal != fsal)
  {
    assert AccountOk(s, f, busy);
    if s.acct[f].child != 0 {
      var z :| z in On(s.maps, f, ChildClaim);
      assert MapOk(s, z, pend);
    }
    forall z | z in s.maps && s.maps[z].fs == f && s.maps[z].kind == ChildClaim
      ensures s.acct[f].child != 0 && s.acct[f].fsal == Some(s.maps[z].exp.fsal)
    {
      assert MapOk(s, z, pend) && z in On(s.maps, f, ChildClaim);
    }
  }

  lemma CleanedBefore(s0: Forest, s1: Forest, f: nat, kind: Kind, path: Option<string>)
    requires s1.tree == s0.tree && forall x :: x in s1.maps ==> x in s0.maps && s1.maps[x] == s0.maps[x]
    ensures Cleaned(s1, f, kind, path) <= Cleaned(s0, f, kind, path)
  {}

  lemma EndsSo(s0: Forest, s1: Forest, s3: Forest, m: nat, c: ClaimMap, path: Option<string>)
    requires c.fs in s0.acct && c.fs in s3.acct && m !in s3.maps && m !in s0.maps
    requires s1.tree == s0.tree && Numbered(s0, s1) && Numbered(s1, s3)
    requires forall x :: x in s1.maps ==> x in s0.maps && s1.maps[x] == s0.maps[x]
    requires GoneOnly(s0, s1, Ousted(s0, c.fs, c.kind, c.exp.fsal))
    requires GoneOnly(s1, s3, Cleaned(s1, c.fs, c.kind, path) + Foreigners(s1, s3, c.exp))
    ensures GoneOnly(s0, With(s3, m, c), Ends(s0, With(s3, m, c), c.fs, c.kind, path, c.exp))
  {
    var s4 := With(s3, m, c);
    var b, d := Ousted(s0, c.fs, c.kind, c.exp.fsal), Cleaned(s1, c.fs, c.kind, path) + Foreigners(s1, s3, c.exp);
    GoneTwice(s0, s1, s3, b, d);
    CleanedBefore(s0, s1, c.fs, c.kind, path);
    forall z | z in Foreigners(s1, s3, c.exp) ensures z in Foreigners(s0, s4, c.exp) {
      var y :| y in s3.maps && y !in s1.maps && s3.maps[y].fs == s1.maps[z].fs;
      assert y >= s1.next;
      assert y in s4.maps && y !in s0.maps && s4.maps[y].fs == s0.maps[z].fs;
    }
    GoneMore(s0, s3, b + d, Ends(s0, s4, c.fs, c.kind, path, c.exp));
    forall x | x in s0.maps && x !in s4.maps
      ensures UnderSome(s0.maps, x, Ends(s0, s4, c.fs, c.kind, path, c.exp))
    {
      assert x !in s3.maps;
    }
  }

  /** A child claim ends nothing but child claims of another FSAL. */
  lemma ChildEnds(s0: Forest, s: Forest, m: nat, c: ClaimMap, busy: set<nat>, pend: map<nat, ClaimMap>)
    requires Inv(s0, busy, pend) && c.fs in s0.acct && c.kind == ChildClaim
    requires s0.acct[c.fs].fsal == Some(c.exp.fsal) || (s0.acct[c.fs].root == 0 && s0.acct[c.fs].subtree == 0)
    requires m in s.maps && m !in s0.maps && s.maps[m].fs == c.fs
    requires GoneOnly(s0, s, Ends(s0, s, c.fs, ChildClaim, None, c.exp))
    ensures OnlyForeign(s0, s, c.exp)
  {
    forall z | z in Ousted(s0, c.fs, ChildClaim, c.exp.fsal) ensures z in Foreigners(s0, s, c.exp) {
      assert MapOk(s0, z, pend) && AccountOk(s0, c.fs, busy);
      NoneOfKind(s0, c.fs, busy, z);
      assert NewOn(s0, s, c.fs);
    }
    GoneMore(s0, s, Ends(s0, s, c.fs, ChildClaim, None, c.exp), Foreigners(s0, s, c.exp));
  }

  // ----- and all of it has gone ------------------------------------------------------------------------

  /** A map made under one that is gone is gone. */
  lemma {:induction false} GoneWith(s0: Forest, s: Forest, x: nat, z: nat, busy: set<nat>, pend: map<nat, ClaimMap>)
    requires Inv(s, busy, pend) && SameMaps(s0, s) && x in s0.maps && x in s.maps && Under(s0.maps, x, z)
    requires z in s0.maps && z !in s.maps && z !in pend
    requires forall p :: p in pend ==> p !in s0.maps
    ensures false
    decreases x
  {
    assert MapOk(s, x, pend);
    if x != z {
      var p := s0.maps[x].parent.value;
      if p in s.maps && p in s0.maps {
        GoneWith(s0, s, p, z, busy, pend);
      }
    }
  }

  /** What is ended, and all that was made under it, is gone. */
  lemma AllEnded(s0: Forest, s: Forest, base: set<nat>, busy: set<nat>, pend: map<nat, ClaimMap>)
    requires Inv(s, busy, pend) && SameMaps(s0, s) && GoneOnly(s0, s, base)
    requires forall p :: p in pend ==> p !in s0.maps
    requires forall z :: z in base ==> z in s0.maps && z !in s.maps
    ensures GoneExactly(s0, s, base)
  {
    forall x | x in s0.maps ensures x in s.maps <==> !UnderSome(s0.maps, x, base) {
      if x in s.maps && UnderSome(s0.maps, x, base) {
        var z :| z in base && Under(s0.maps, x, z);
        GoneWith(s0, s, x, z, busy, pend);
      }
    }
  }

  /** On a filesystem with a new claim no claim of another FSAL is left. */
  lemma ForeignGone(s0: Forest, s: Forest, f: nat, strict: bool, exp: Export, z: nat, busy: set<nat>,
                    pend: map<nat, ClaimMap>)
    requires Inv(s, busy, pend) && Confined(s0, s, f, strict, exp) && Foreign(s0, s, exp, z)
    ensures z !in s.maps
  {
    var y :| y in s.maps && y !in s0.maps && s.maps[y].fs == s0.maps[z].fs;
    assert MapNew(s0, s, y, f, strict, exp) && MapOk(s, y, pend);
    assert MapStays(s0, s, z, f, strict);
    assert z in s.maps ==> MapOk(s, z, pend);
  }

  // ----- steps of the operations ------------------------------------------------------------------------

  ghost function OnAll(s: Forest, f: nat): set<nat> {
    set x | x in s.maps && s.maps[x].fs == f
  }

  lemma NothingGone(s: Forest, base: set<nat>)
    ensures GoneOnly(s, s, base)
  {}

  lemma ShrunkSame(s0: Forest, s: Forest, busy: set<nat>)
    requires Shrunk(s0, s, busy) && forall x :: x in s0.maps ==> x < s0.next
    ensures SameMaps(s0, s)
  {}

  /** One more map unclaimed, of those that may go. */
  lemma OneMoreGone(s0: Forest, s1: Forest, s2: Forest, x: nat, base: set<nat>, busy: set<nat>)
    requires Shrunk(s0, s1, busy) && (forall y :: y in s0.maps ==> y < s0.next)
    requires GoneOnly(s0, s1, base) && x in base && x in s1.maps && GoneUnder(s1, s2, x)
    ensures GoneOnly(s0, s2, base)
  {
    ShrunkSame(s0, s1, busy);
    forall y | y in s1.maps && y !in s2.maps ensures UnderSome(s1.maps, y, {x}) {
      assert x in {x} && Under(s1.maps, y, x);
    }
    GoneTwice(s0, s1, s2, base, {x});
    assert base + {x} == base;
  }

  /** What is to be cleaned out later was to be cleaned out before. */
  lemma CleanedIn(s0: Forest, s1: Forest, f: nat, kind: Kind, path: Option<string>, x: nat, busy: set<nat>,
                  pend: map<nat, ClaimMap>)
    requires Inv(s1, busy, pend) && s1.tree == s0.tree && (forall p :: p in pend ==> p !in s0.maps)
    requires forall y :: y in s1.maps ==> y in s0.maps && s1.maps[y] == s0.maps[y]
    requires x in Cleaned(s0, f, kind, path) && x in s1.maps
    ensures x in Cleaned(s1, f, kind, path) && s1.maps[x].fs in Children(s1.tree, f)
  {
    assert MapOk(s1, x, pend);
  }

  /** None of the claims to be cleaned out is left. */
  ghost predicate CleanedGone(s0: Forest, s: Forest, f: nat, kind: Kind, path: Option<string>) {
    forall x :: x in Cleaned(s0, f, kind, path) ==> x !in s.maps
  }

  lemma CleanedGoneSince(s0: Forest, s1: Forest, s2: Forest, f: nat, kind: Kind, path: Option<string>, busy: set<nat>,
                         pend: map<nat, ClaimMap>)
    requires Inv(s1, busy, pend) && s1.tree == s0.tree && (forall p :: p in pend ==> p !in s0.maps)
    requires Numbered(s0, s1) && Numbered(s1, s2)
    requires forall y :: y in s1.maps ==> y in s0.maps && s1.maps[y] == s0.maps[y]
    requires CleanedGone(s1, s2, f, kind, path)
    ensures CleanedGone(s0, s2, f, kind, path)
  {
    forall x | x in Cleaned(s0, f, kind, path) ensures x !in s2.maps {
      if x in s1.maps {
        CleanedIn(s0, s1, f, kind, path, x, busy, pend);
      }
    }
  }

  lemma AllCleaned(s0: Forest, s1: Forest, f: nat, kind: Kind, path: Option<string>, busy: set<nat>,
                   pend: map<nat, ClaimMap>)
    requires Inv(s1, busy, pend) && s1.tree == s0.tree && (forall p :: p in pend ==> p !in s0.maps)
    requires forall y :: y in s1.maps ==> y in s0.maps && s1.maps[y] == s0.maps[y]
    requires Cleaned(s1, f, kind, path) == {}
    ensures CleanedGone(s0, s1, f, kind, path)
  {
    forall x | x in Cleaned(s0, f, kind, path) ensures x !in s1.maps {
      if x in s1.maps {
        CleanedIn(s0, s1, f, kind, path, x, busy, pend);
      }
    }
  }

  /** Without child filesystems there is nothing to clean out. */
  lemma NothingToClean(s: Forest, f: nat, kind: Kind, path: Option<string>, busy: set<nat>, pend: map<nat, ClaimMap>)
    requires Inv(s, busy, pend)
    ensures Children(s.tree, f) == {} ==> Cleaned(s, f, kind, path) == {}
  {
    NonePending(s, busy, pend);
    forall x | x in Cleaned(s, f, kind, path) ensures s.maps[x].fs in Children(s.tree, f) {
      CleanedIn(s, s, f, kind, path, x, busy, pend);
    }
  }

  /** What the claims below the filesystem have ended: the claims to be cleaned out, and child claims of
      another FSAL. */
  ghost predicate EndedBelow(s0: Forest, s: Forest, c: ClaimMap, path: Option<string>) {
    && GoneOnly(s0, s, Cleaned(s0, c.fs, c.kind, path) + Foreigners(s0, s, c.exp))
    && CleanedGone(s0, s, c.fs, c.kind, path)
  }

  lemma EndedNone(s: Forest, c: ClaimMap, path: Option<string>, busy: set<nat>, pend: map<nat, ClaimMap>)
    requires Inv(s, busy, pend)
    ensures Children(s.tree, c.fs) == {} ==> EndedBelow(s, s, c, path)
  {
    NothingToClean(s, c.fs, c.kind, path, busy, pend);
  }

  lemma EndedNumbered(s0: Forest, k: nat, s: Forest, c: ClaimMap, path: Option<string>)
    requires EndedBelow(s0.(next := k), s, c, path)
    ensures EndedBelow(s0, s, c, path)
  {
    var s1 := s0.(next := k);
    assert forall z :: Foreign(s1, s, c.exp, z) <==> Foreign(s0, s, c.exp, z);
    assert Foreigners(s1, s, c.exp) == Foreigners(s0, s, c.exp);
    assert Cleaned(s1, c.fs, c.kind, path) == Cleaned(s0, c.fs, c.kind, path);
    forall x | x in s0.maps && x !in s.maps
      ensures UnderSome(s0.maps, x, Cleaned(s0, c.fs, c.kind, path) + Foreigners(s0, s, c.exp))
    {
      assert UnderSome(s1.maps, x, Cleaned(s1, c.fs, c.kind, path) + Foreigners(s1, s, c.exp));
    }
  }

  /** The middle of process_claim: the claims on the filesystem that have to have made way, and it has
      its new owner. */
  ghost predicate Taken(s0: Forest, s: Forest, f: nat, kind: Kind, exp: Export) {
    && f in s0.acct && s.next == s0.next && Confined(s0, s, f, false, exp)
    && (forall x :: x in s.maps ==> x in s0.maps && s.maps[x] == s0.maps[x])
    && OnFilesystem(s0, s, f, Ousts(s0.acct[f], kind, exp.fsal), s0.next)
    && GoneOnly(s0, s, Ousted(s0, f, kind, exp.fsal))
  }

  lemma TakenSo(s0: Forest, s1: Forest, s2: Forest, s3: Forest, f: nat, kind: Kind, exp: Export, busy: set<nat>)
    requires f in s0.acct && f in s0.tree && s1 == Marked(s0, f) && Shrunk(s1, s2, busy) && Local(s1, s2, f, false)
    requires f in s2.acct && s3 == Owned(s2, f, exp.fsal)
    requires GoneOnly(s1, s2, Ousted(s1, f, kind, exp.fsal))
    requires if Ousts(s1.acct[f], kind, exp.fsal) then forall x :: x in s2.maps ==> s2.maps[x].fs != f else s2 == s1
    ensures Taken(s0, s3, f, kind, exp)
  {
    TakeConfined(s0, s1, s2, s3, f, exp, busy);
    assert Ousted(s1, f, kind, exp.fsal) == Ousted(s0, f, kind, exp.fsal);
    forall x | x in s0.maps && x !in s3.maps ensures UnderSome(s0.maps, x, Ousted(s0, f, kind, exp.fsal)) {
      assert UnderSome(s1.maps, x, Ousted(s1, f, kind, exp.fsal));
    }
  }

  /** The claims below a filesystem, while the claim on it with map `m` is being made. */
  ghost predicate Descended(s0: Forest, s: Forest, m: nat, c: ClaimMap, path: Option<string>, claimfs: nat -> Answer,
                            pend: map<nat, ClaimMap>) {
    && m == s0.next && Confined(s0.(next := m + 1), s, c.fs, true, c.exp)
    && Dealt(s0, s, m, c, path, claimfs, Children(s.tree, c.fs), pend) && EndedBelow(s0, s, c, path)
  }

  lemma DescendedSo(s0: Forest, s: Forest, m: nat, c: ClaimMap, path: Option<string>, claimfs: nat -> Answer,
                    pend: map<nat, ClaimMap>)
    requires m == s0.next && Confined(s0.(next := m + 1), s, c.fs, true, c.exp)
    requires Dealt(s0.(next := m + 1), s, m, c, path, claimfs, Children(s.tree, c.fs), pend)
    requires EndedBelow(s0.(next := m + 1), s, c, path)
    ensures Descended(s0, s, m, c, path, claimfs, pend)
  {
    DealtNumbered(s0, m + 1, s, m, c, path, claimfs, Children(s.tree, c.fs), pend);
    EndedNumbered(s0, m + 1, s, c, path);
  }

  lemma ChildOnlyForeign(s0: Forest, s: Forest, c: ClaimMap, busy: set<nat>, pend: map<nat, ClaimMap>)
    requires Inv(s0, busy, pend) && c.fs in s0.acct && c.kind == ChildClaim && s0.next !in s0.maps
    requires s0.acct[c.fs].root == 0 && (s0.acct[c.fs].subtree == 0 || s0.acct[c.fs].fsal == Some(c.exp.fsal))
    requires s0.next in s.maps && s.maps[s0.next] == c
    requires GoneExactly(s0, s, Ends(s0, s, c.fs, ChildClaim, None, c.exp))
    ensures OnlyForeign(s0, s, c.exp)
  {
    ChildEnds(s0, s, s0.next, c, busy, pend);
  }

  /** The clean-up, and after it the claims on the child filesystems. */
  lemma CleanedThenClaimed(s0: Forest, s1: Forest, s2: Forest, m: ClaimMap, path: Option<string>)
    requires s1.tree == s0.tree && Numbered(s0, s1) && Numbered(s1, s2)
    requires forall y :: y in s1.maps ==> y in s0.maps && s1.maps[y] == s0.maps[y]
    requires GoneOnly(s0, s1, Cleaned(s0, m.fs, m.kind, path)) && OnlyForeign(s1, s2, m.exp)
    requires CleanedGone(s0, s1, m.fs, m.kind, path)
    ensures EndedBelow(s0, s2, m, path)
  {
    var exp := m.exp;
    var b, c := Cleaned(s0, m.fs, m.kind, path), Foreigners(s1, s2, exp);
    GoneTwice(s0, s1, s2, b, c);
    forall z | z in c ensures z in Foreigners(s0, s2, exp) {
      var y :| y in s2.maps && y !in s1.maps && s2.maps[y].fs == s1.maps[z].fs;
      assert y >= s1.next;
      assert y in s2.maps && y !in s0.maps;
    }
    GoneMore(s0, s2, b + c, b + Foreigners(s0, s2, exp));
  }

  /** Once the claim's own map is in place, exactly what it ends is gone. */
  lemma ExactlyEnded(s0: Forest, s: Forest, c: ClaimMap, path: Option<string>, m: nat, busy: set<nat>,
                     pend: map<nat, ClaimMap>)
    requires Inv(s, busy, pend) && c.fs in s0.acct && Confined(s0, s, c.fs, false, c.exp)
    requires forall p :: p in pend ==> p !in s0.maps
    requires GoneOnly(s0, s, Ends(s0, s, c.fs, c.kind, path, c.exp)) && CleanedGone(s0, s, c.fs, c.kind, path)
    requires OnFilesystem(s0, s, c.fs, Ousts(s0.acct[c.fs], c.kind, c.exp.fsal), m)
    ensures GoneExactly(s0, s, Ends(s0, s, c.fs, c.kind, path, c.exp))
  {
    LocalSame(s0, s, c.fs, false);
    forall z | z in Ends(s0, s, c.fs, c.kind, path, c.exp) ensures z in s0.maps && z !in s.maps {
      if z in Foreigners(s0, s, c.exp) {
        ForeignGone(s0, s, c.fs, false, c.exp, z, busy, pend);
      }
    }
    AllEnded(s0, s, Ends(s0, s, c.fs, c.kind, path, c.exp), busy, pend);
  }

  /** The claim with map `c`, and those made for it below. */
  ghost predicate ClaimMade(s0: Forest, s: Forest, c: ClaimMap, path: Option<string>, claimfs: nat -> Answer,
                            pend: map<nat, ClaimMap>) {
    && c.fs in s0.acct && Confined(s0, s, c.fs, false, c.exp)
    && s0.next in s.maps && s0.next !in s0.maps && s.maps[s0.next] == c
    && OnFilesystem(s0, s, c.fs, Ousts(s0.acct[c.fs], c.kind, c.exp.fsal), s0.next)
    && GoneExactly(s0, s, Ends(s0, s, c.fs, c.kind, path, c.exp))
    && NewTreated(s0, s, c.exp, path, claimfs) && NewSole(s0, s, pend) && OrderlyClaim(s0, s)
  }

  /** Before the map is in place. */
  ghost predicate Completing(s0: Forest, s1: Forest, s3: Forest, m: nat, c: ClaimMap, path: Option<string>,
                             claimfs: nat -> Answer, busy: set<nat>, pend: map<nat, ClaimMap>) {
    && Inv(s3, busy + {c.fs}, pend[m := c]) && m !in s3.maps && m !in s0.maps && m !in pend
    && c.fs in s3.acct && c.fs in s3.tree && s0.next == m && s3.tree == s0.tree
    && ParentReady(s3.tree, c, m, pend) && (c.kind == ChildClaim <==> path.None?)
    && Taken(s0, s1, c.fs, c.kind, c.exp) && AccountOk(s0, c.fs, busy)
    && Descended(s1, s3, m, c, path, claimfs, pend[m := c])
    && (c.parent.Some? && pend[c.parent.value].kind == ChildClaim ==> s0.acct[c.fs].child == 0)
    && Inv(s1, busy + {c.fs}, pend) && forall p :: p in pend ==> p !in s0.maps
  }

  lemma CompletedDealt(s0: Forest, s1: Forest, s3: Forest, m: nat, c: ClaimMap, path: Option<string>,
                       claimfs: nat -> Answer, busy: set<nat>, pend: map<nat, ClaimMap>)
    requires Completing(s0, s1, s3, m, c, path, claimfs, busy, pend)
    ensures OnFilesystem(s0, With(s3, m, c), c.fs, Ousts(s0.acct[c.fs], c.kind, c.exp.fsal), m)
    ensures NewTreated(s0, With(s3, m, c), c.exp, path, claimfs) && NewSole(s0, With(s3, m, c), pend)
    ensures OrderlyClaim(s0, With(s3, m, c))
  {
    DealtSince(s0, s1, s3, m, c, path, claimfs, Children(s3.tree, c.fs), pend[m := c]);
    OnFilesystemWith(s0, s1, s3, Ousts(s0.acct[c.fs], c.kind, c.exp.fsal), m, c, busy);
    NoChildOn(s0, s3, c.fs, busy);
    DealtEntered(s0, s3, m, c, path, claimfs, busy + {c.fs}, pend);
  }

  lemma CompletedEnds(s0: Forest, s1: Forest, s3: Forest, m: nat, c: ClaimMap, path: Option<string>,
                      claimfs: nat -> Answer, busy: set<nat>, pend: map<nat, ClaimMap>)
    requires Completing(s0, s1, s3, m, c, path, claimfs, busy, pend)
    ensures CleanedGone(s0, With(s3, m, c), c.fs, c.kind, path)
    ensures GoneOnly(s0, With(s3, m, c), Ends(s0, With(s3, m, c), c.fs, c.kind, path, c.exp))
  {
    CleanedGoneSince(s0, s1, s3, c.fs, c.kind, path, busy + {c.fs}, pend);
    EndsSo(s0, s1, s3, m, c, path);
  }

  lemma CompletedConfined(s0: Forest, s1: Forest, s3: Forest, m: nat, c: ClaimMap, path: Option<string>,
                          claimfs: nat -> Answer, busy: set<nat>, pend: map<nat, ClaimMap>)
    requires Completing(s0, s1, s3, m, c, path, claimfs, busy, pend)
    ensures Confined(s0, With(s3, m, c), c.fs, false, c.exp)
  {
    ClaimConfined(s0, s1, s3, m, c);
  }

  lemma CompletedSo(s0: Forest, s1: Forest, s3: Forest, m: nat, c: ClaimMap, path: Option<string>,
                    claimfs: nat -> Answer, busy: set<nat>, pend: map<nat, ClaimMap>)
    requires Completing(s0, s1, s3, m, c, path, claimfs, busy, pend) && Inv(With(s3, m, c), busy, pend)
    ensures ClaimMade(s0, With(s3, m, c), c, path, claimfs, pend)
  {
    CompletedDealt(s0, s1, s3, m, c, path, claimfs, busy, pend);
    CompletedEnds(s0, s1, s3, m, c, path, claimfs, busy, pend);
    CompletedConfined(s0, s1, s3, m, c, path, claimfs, busy, pend);
    ExactlyEnded(s0, With(s3, m, c), c, path, m, busy, pend);
  }

  // ----- root_fs ----------------------------------------------------------------------------------------

  /** A claim that takes another export's claim from under its root_fs: it ends all claims on its
      filesystem, and that filesystem is another export's root_fs. */
  ghost predicate Strips(s: Forest, roots: map<Export, nat>, f: nat, kind: Kind, exp: Export)
    requires f in s.acct
  {
    Ousts(s.acct[f], kind, exp.fsal) && exists e :: e in roots && e != exp && roots[e] == f
  }

  /** A claim that is not a child claim goes only where all claims on its filesystem go. */
  lemma TopsStay(s0: Forest, s: Forest, f: nat, kind: Kind, path: Option<string>, exp: Export, x: nat)
    requires Inv(s0, {}, map[]) && f in s0.acct && GoneExactly(s0, s, Ends(s0, s, f, kind, path, exp))
    requires x in s0.maps && s0.maps[x].parent.None?
    ensures x in s.maps || (s0.maps[x].fs == f && Ousts(s0.acct[f], kind, exp.fsal))
  {
    var base := Ends(s0, s, f, kind, path, exp);
    assert MapOk(s0, x, map[]);
    if x !in s.maps {
      assert UnderSome(s0.maps, x, base);
      assert x in base;
    }
  }

  /** A claim leaves every export a claim on its root_fs iff it strips none. */
  lemma RootsKeptIff(s0: Forest, s: Forest, roots: map<Export, nat>, f: nat, kind: Kind, path: Option<string>,
                     exp: Export, m: nat)
    requires Inv(s0, {}, map[]) && f in s0.acct && SameMaps(s0, s) && RootsOk(s0, roots)
    requires GoneExactly(s0, s, Ends(s0, s, f, kind, path, exp))
    requires OnFilesystem(s0, s, f, Ousts(s0.acct[f], kind, exp.fsal), m)
    requires m in s.maps && s.maps[m] == ClaimMap(exp, f, kind, None)
    ensures RootsOk(s, roots[exp := f]) <==> !Strips(s0, roots, f, kind, exp)
  {
    assert HasTop(s, exp, f);
    if Strips(s0, roots, f, kind, exp) {
      var e :| e in roots && e != exp && roots[e] == f;
      assert !HasTop(s, e, f);
      assert roots[exp := f][e] == f;
    } else {
      var now := roots[exp := f];
      forall e | e in now ensures HasTop(s, e, now[e]) {
        if e != exp {
          assert HasTop(s0, e, roots[e]);
          var x :| x in s0.maps && s0.maps[x].exp == e && s0.maps[x].fs == roots[e] && s0.maps[x].parent.None?;
          TopsStay(s0, s, f, kind, path, exp, x);
        }
      }
    }
  }

  /** Where a claim strips, the filesystem has child and subtree claims, and the claim is a root claim. */
  lemma StripsMeans(s: Forest, roots: map<Export, nat>, f: nat, kind: Kind, exp: Export)
    requires Inv(s, {}, map[]) && f in s.acct && RootsOk(s, roots) && Strips(s, roots, f, kind, exp)
    requires s.acct[f].fsal == Some(exp.fsal) || (s.acct[f].root == 0 && s.acct[f].subtree == 0)
    ensures kind == RootClaim && s.acct[f].child > 0 && s.acct[f].subtree > 0
  {
    var e :| e in roots && e != exp && roots[e] == f;
    assert HasTop(s, e, f);
    var x :| x in s.maps && s.maps[x].exp == e && s.maps[x].fs == f && s.maps[x].parent.None?;
    assert MapOk(s, x, map[]) && AccountOk(s, f, {});
    NoneOfKind(s, f, {}, x);
  }

  /** When an export's claims go, every other export keeps its root_fs. */
  lemma RootsLeft(s0: Forest, s: Forest, roots: map<Export, nat>, exp: Export)
    requires RootsOk(s0, roots)
    requires forall x :: x in s0.maps && s0.maps[x].exp != exp ==> x in s.maps && s.maps[x] == s0.maps[x]
    ensures RootsOk(s, roots - {exp})
  {
    forall e | e in roots - {exp} ensures HasTop(s, e, roots[e]) {
      assert HasTop(s0, e, roots[e]);
    }
  }
}
