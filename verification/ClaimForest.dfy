/** The operations on the claims, as they update them in place: unclaiming, claiming, releasing. */
module ClaimForests {
  import opened ClaimEffects
  import opened ClaimEnds
  import opened ClaimRuns
  import opened Claims
  import opened Options
  import opened Releases

  class ClaimForest {
    var tree: map<nat, Mount>
    var acct: map<nat, Account>
    var maps: map<nat, ClaimMap>
    var next: nat
    var roots: map<Export, nat>     // root_fs of each export that has one

    /** Nothing is claimed at first. */
    constructor (mounts: map<nat, Mount>)
      requires Rooted(mounts)
      ensures tree == mounts && State() == Unclaimed(mounts) && roots == map[]
      ensures Inv(State(), {}, map[]) && RootsOk(State(), roots)
    {
      tree := mounts;
      acct := map f | f in mounts :: Account(None, 0, 0, 0, 0, 0);
      maps := map[];
      next := 0;
      roots := map[];
      UnclaimedInv(mounts);
    }

    ghost function State(): Forest
      reads this
    {
      Forest(tree, acct, maps, next)
    }

    /** The end of unclaim_child_map: the map itself goes. */
    method Remove(m: nat, ghost busy: set<nat>, ghost pend: map<nat, ClaimMap>)
      requires Inv(State(), busy, pend) && m in maps && Leaf(State(), m)
      modifies `acct, `maps
      ensures Inv(State(), busy, pend) && Shrunk(old(State()), State(), busy) && maps == old(maps) - {m}
      ensures Local(old(State()), State(), old(maps[m].fs), false)
    {
      ghost var s1 := State();
      assert MapOk(s1, m, pend);
      Dated(s1, busy, pend);
      WithoutInv(s1, m, busy, pend);
      WithoutShrunk(s1, m, busy, pend);
      WithoutLocal(s1, m);
      var f, k := maps[m].fs, maps[m].kind;
      maps := maps - {m};
      acct := acct[f := Count(acct[f], k, -1)];
      if acct[f].all == 0 && acct[f].temp == 0 {
        acct := acct[f := acct[f].(fsal := None)];
      }
      assert State() == Without(s1, m);
    }

    /** unclaim_child_map. It takes the map and all that were made under it, and nothing else, and
        touches no filesystem but the map's and those below. */
    method Unclaim(m: nat, ghost busy: set<nat>, ghost pend: map<nat, ClaimMap>)
      requires Inv(State(), busy, pend) && m in maps
      modifies `acct, `maps
      ensures Inv(State(), busy, pend) && Shrunk(old(State()), State(), busy)
      ensures GoneUnder(old(State()), State(), m)
      ensures Local(old(State()), State(), old(maps[m].fs), false)
      decreases next - m, 1
    {
      ghost var s0 := State();
      UnclaimChildren(m, busy, pend);
      ghost var s1 := State();
      Remove(m, busy, pend);
      InvLinked(s1, s0, busy, pend);
      AllGone(s0, s1, m);
      ShrunkTwice(s0, s1, State(), busy);
      LocalTwice(s0, s1, State(), s0.maps[m].fs, false);
    }

    /** Its loop. */
    method UnclaimChildren(m: nat, ghost busy: set<nat>, ghost pend: map<nat, ClaimMap>)
      requires Inv(State(), busy, pend) && m in maps
      modifies `acct, `maps
      ensures Inv(State(), busy, pend) && Shrunk(old(State()), State(), busy) && m in maps
      ensures OnlyUnder(old(State()), State(), m) && Leaf(State(), m)
      ensures Local(old(State()), State(), old(maps[m].fs), false)
      decreases next - m, 0
    {
      ghost var s0 := State();
      ghost var f := maps[m].fs;
      Dated(s0, busy, pend);
      while exists c :: c in maps && maps[c].parent == Some(m)
        invariant Inv(State(), busy, pend) && Shrunk(s0, State(), busy) && m in maps
        invariant OnlyUnder(s0, State(), m) && Local(s0, State(), f, false)
        decreases |maps.Keys|
      {
        var c :| c in maps && maps[c].parent == Some(m);
        ghost var s1 := State();
        ChildOfMap(s1, c, m, busy, pend);
        Unclaim(c, busy, pend);
        RemovedUnder(s0, s1, State(), c, m, busy);
        LocalWider(s1, State(), s1.maps[c].fs, f, false);
        LocalTwice(s0, s1, State(), f, false);
        FewerKeys(maps.Keys, s1.maps.Keys);
      }
    }

    /** unclaim_all_filesystem_maps. */
    method UnclaimFilesystem(f: nat, ghost busy: set<nat>, ghost pend: map<nat, ClaimMap>)
      requires Inv(State(), busy, pend)
      modifies `acct, `maps
      ensures Inv(State(), busy, pend) && Shrunk(old(State()), State(), busy)
      ensures Local(old(State()), State(), f, false)
      ensures forall x :: x in maps ==> maps[x].fs != f
      ensures GoneOnly(old(State()), State(), OnAll(old(State()), f))
    {
      ghost var s0 := State();
      Dated(s0, busy, pend);
      while exists x :: x in maps && maps[x].fs == f
        invariant Inv(State(), busy, pend) && Shrunk(s0, State(), busy) && Local(s0, State(), f, false)
        invariant GoneOnly(s0, State(), OnAll(s0, f))
        decreases |maps.Keys|
      {
        var x :| x in maps && maps[x].fs == f;
        ghost var s1 := State();
        Unclaim(x, busy, pend);
        UnclaimProgress(s0, s1, State(), x, busy);
        LocalTwice(s0, s1, State(), f, false);
        OneMoreGone(s0, s1, State(), x, OnAll(s0, f), busy);
      }
    }

    /** The loop of unclaim_all_export_maps: exactly the maps of the export go. */
    method UnclaimExport(exp: Export, ghost busy: set<nat>, ghost pend: map<nat, ClaimMap>)
      requires Inv(State(), busy, pend)
      modifies `acct, `maps
      ensures Inv(State(), busy, pend) && Shrunk(old(State()), State(), busy)
      ensures forall x :: x in old(maps) ==> (x in maps <==> old(maps)[x].exp != exp)
    {
      ghost var s0 := State();
      while exists x :: x in maps && maps[x].exp == exp
        invariant Inv(State(), busy, pend) && Shrunk(s0, State(), busy)
        invariant forall x :: x in s0.maps && s0.maps[x].exp != exp ==> x in maps
        decreases |maps.Keys|
      {
        var x :| x in maps && maps[x].exp == exp;
        ghost var s1 := State();
        Unclaim(x, busy, pend);
        UnclaimProgress(s0, s1, State(), x, busy);
        OtherExportsStay(s1, State(), x, busy, pend);
      }
    }

    /** The clean-up for a subtree claim at `path`: child claims that exports with a shorter path
        have on filesystems below it go. */
    method CleanOut(f: nat, path: string, ghost busy: set<nat>, ghost pend: map<nat, ClaimMap>)
      requires Inv(State(), busy, pend) && f in tree
      modifies `acct, `maps
      ensures Inv(State(), busy, pend) && Shrunk(old(State()), State(), busy)
      ensures Local(old(State()), State(), f, true)
      ensures GoneOnly(old(State()), State(), Cleaned(old(State()), f, SubtreeClaim, Some(path)))
      ensures forall x :: x in maps ==> !Overlapped(State(), x, f, path)
    {
      ghost var s0 := State();
      Dated(s0, busy, pend);
      while exists x :: x in maps && Overlapped(Forest(tree, acct, maps, next), x, f, path)
        invariant Inv(State(), busy, pend) && Shrunk(s0, State(), busy) && Local(s0, State(), f, true)
        invariant GoneOnly(s0, State(), Cleaned(s0, f, SubtreeClaim, Some(path)))
        decreases |maps.Keys|
      {
        var x :| x in maps && Overlapped(Forest(tree, acct, maps, next), x, f, path);
        ghost var s1 := State();
        OverlappedBelow(s1, x, f, path, busy, pend);
        Unclaim(x, busy, pend);
        UnclaimProgress(s0, s1, State(), x, busy);
        LocalWider(s1, State(), s1.maps[x].fs, f, true);
        LocalTwice(s0, s1, State(), f, true);
        OneMoreGone(s0, s1, State(), x, Cleaned(s0, f, SubtreeClaim, Some(path)), busy);
      }
    }

    /** Whether a child filesystem is left alone: of the child claims on it the first in the list
        decides. */
    method Skips(c: nat, exp: Export, path: Option<string>, kind: Kind, ghost busy: set<nat>,
                 ghost pend: map<nat, ClaimMap>)
      returns (skip: bool)
      requires Inv(State(), busy, pend) && c in tree && (kind == SubtreeClaim ==> path.Some?)
      ensures skip <==> Barred(Here(State(), c), Here(State(), c), exp, path, kind, tree[c].path)
      ensures skip <==>
        || (kind == SubtreeClaim && !PathChild(tree[c].path, path.value))
        || acct[c].root != 0 || (acct[c].subtree != 0 && acct[c].fsal != Some(exp.fsal))
        || exists x :: FirstChild(maps, c, x) && Some(maps[x].exp.path) != path
      ensures path.None? && !skip ==> acct[c].child == 0
    {
      BarredIff(State(), c, exp, path, kind, busy, pend);
      if kind == SubtreeClaim && !PathChild(tree[c].path, path.value) {
        return true;
      }
      if acct[c].root != 0 {
        return true;
      }
      if acct[c].subtree != 0 && acct[c].fsal != Some(exp.fsal) {
        return true;
      }
      if acct[c].child != 0 {
        FirstChildThere(maps, c);
        var x :| x in maps && FirstChild(maps, c, x);
        assert forall y :: FirstChild(maps, c, y) ==> y == x;
        skip := path.None? || maps[x].exp.path != path.value;
        return;
      }
      return false;
    }

    /** The claims on `f` that have to make way. */
    method MakeRoom(f: nat, kind: Kind, exp: Export, ghost busy: set<nat>, ghost pend: map<nat, ClaimMap>)
      requires Inv(State(), busy, pend) && f in acct && f in busy
      requires acct[f].fsal == Some(exp.fsal) || (acct[f].root == 0 && acct[f].subtree == 0)
      requires kind == ChildClaim ==> acct[f].root == 0
      modifies `acct, `maps
      ensures Inv(State(), busy, pend) && Shrunk(old(State()), State(), busy) && f in acct
      ensures Local(old(State()), State(), f, false)
      ensures GoneOnly(old(State()), State(), Ousted(old(State()), f, kind, exp.fsal))
      ensures acct[f].fsal == Some(exp.fsal) || forall x :: x in maps ==> maps[x].fs != f
      ensures kind == RootClaim ==> acct[f].child == 0
      ensures kind == ChildClaim ==> acct[f].root == 0
      // a root claim that meets child claims ends the subtree claims of its own FSAL as well
      ensures if Ousts(old(acct[f]), kind, exp.fsal)
              then forall x :: x in maps ==> maps[x].fs != f
              else State() == old(State())
    {
      ghost var s1 := State();
      Dated(s1, busy, pend);
      NothingGone(s1, {});
      if acct[f].child != 0 && (acct[f].fsal != Some(exp.fsal) || kind == RootClaim) {
        UnclaimFilesystem(f, busy, pend);
        assert Ousted(s1, f, kind, exp.fsal) == OnAll(s1, f);
      }
      Emptied(s1, State(), f, kind, exp, busy, pend);
      if kind == RootClaim && acct[f].child != 0 {
        assert false;
      }
    }

    /** The temporary claim. */
    method Mark(f: nat, ghost busy: set<nat>, ghost pend: map<nat, ClaimMap>)
      requires Inv(State(), busy, pend) && f in acct && f !in busy
      modifies `acct
      ensures State() == Marked(old(State()), f) && Inv(State(), busy + {f}, pend)
    {
      MarkedInv(State(), f, busy, pend);
      acct := acct[f := acct[f].(temp := acct[f].temp + 1)];
    }

    method Own(f: nat, fsal: nat, ghost busy: set<nat>, ghost pend: map<nat, ClaimMap>)
      requires Inv(State(), busy, pend) && f in acct && f in busy
      requires acct[f].fsal == Some(fsal) || forall x :: x in maps ==> maps[x].fs != f
      modifies `acct
      ensures State() == Owned(old(State()), f, fsal) && Inv(State(), busy, pend)
    {
      OwnedInv(State(), f, fsal, busy, pend);
      acct := acct[f := acct[f].(fsal := Some(fsal))];
    }

    /** The middle of process_claim: a temporary claim, the claims that have to go, and the new
        owner. */
    method Take(f: nat, kind: Kind, exp: Export, ghost busy: set<nat>, ghost pend: map<nat, ClaimMap>)
      requires Inv(State(), busy, pend) && f in acct && f !in busy
      requires acct[f].fsal == Some(exp.fsal) || (acct[f].root == 0 && acct[f].subtree == 0)
      requires kind == ChildClaim ==> acct[f].root == 0
      modifies `acct, `maps
      ensures Inv(State(), busy + {f}, pend) && f in acct && acct[f].fsal == Some(exp.fsal)
      ensures kind == RootClaim ==> acct[f].child == 0
      ensures kind == ChildClaim ==> acct[f].root == 0
      ensures Taken(old(State()), State(), f, kind, exp)
    {
      ghost var s0 := State();
      Dated(s0, busy, pend);
      Mark(f, busy, pend);
      ghost var s1 := State();
      MakeRoom(f, kind, exp, busy + {f}, pend);
      ghost var s2 := State();
      Own(f, exp.fsal, busy + {f}, pend);
      TakenSo(s0, s1, s2, State(), f, kind, exp, busy + {f});
    }

    /** The end of process_claim: the map is counted and put in place, and the temporary claim given
        up. */
    method Enter(m: nat, c: ClaimMap, ghost busy: set<nat>, ghost pend: map<nat, ClaimMap>)
      requires Inv(State(), busy + {c.fs}, pend[m := c]) && m !in maps && m !in pend && c.fs !in busy
      requires c.fs in acct && acct[c.fs].fsal == Some(c.exp.fsal)
      requires c.kind == RootClaim ==> acct[c.fs].child == 0
      requires c.kind == ChildClaim ==> acct[c.fs].root == 0
      requires ParentReady(tree, c, m, pend)
      modifies `acct, `maps
      ensures State() == With(old(State()), m, c) && Inv(State(), busy, pend)
    {
      EnteredInv(State(), m, c, busy, pend);
      acct := acct[c.fs := Count(acct[c.fs], c.kind, 1)];
      acct := acct[c.fs := acct[c.fs].(temp := acct[c.fs].temp - 1)];
      maps := maps[m := c];
    }

    /** The number of the new map, which is to be `c`. */
    method Number(ghost c: ClaimMap, ghost busy: set<nat>, ghost pend: map<nat, ClaimMap>) returns (m: nat)
      requires Inv(State(), busy, pend)
      modifies `next
      ensures m == old(next) && State() == old(State()).(next := m + 1) && m !in maps
      ensures Inv(State(), busy, pend[m := c])
    {
      NumberedInv(State(), c, busy, pend);
      m := next;
      next := next + 1;
    }

    /** process_claim; `path` is None for a child claim, and `claimfs` is what the FSAL answers for
        each filesystem. */
    method ProcessClaim(path: Option<string>, parent: Option<nat>, f: nat, exp: Export, claimfs: nat -> Answer,
                        ghost bound: nat, ghost busy: set<nat>, ghost pend: map<nat, ClaimMap>)
      returns (rc: Result)
      requires Inv(State(), busy, pend) && TreeOk(tree, bound) && f in tree
      requires forall g :: g in busy ==> g in tree && |tree[g].path| < |tree[f].path|
      requires ParentReady(tree, ClaimMap(exp, f, KindOf(path, tree[f].path), parent), next, pend)
      requires path.None? ==> acct[f].root == 0 && (acct[f].subtree == 0 || acct[f].fsal == Some(exp.fsal))
      requires parent.Some? && pend[parent.value].kind == ChildClaim ==> acct[f].child == 0
      modifies `acct, `maps, `next, `roots
      ensures Inv(State(), busy, pend) && Confined(old(State()), State(), f, false, exp)
      ensures rc == Outcome(old(State()), path, f, exp, claimfs)
      ensures rc != Zero || claimfs(f) != Claimed ==> State() == old(State())
      ensures rc == Zero && claimfs(f) == Claimed ==>
        && old(next) in maps && maps[old(next)] == ClaimMap(exp, f, KindOf(path, tree[f].path), parent)
        && OnFilesystem(old(State()), State(), f, Ousts(old(acct[f]), KindOf(path, tree[f].path), exp.fsal), old(next))
        && GoneExactly(old(State()), State(), Ends(old(State()), State(), f, KindOf(path, tree[f].path), path, exp))
      ensures NewTreated(old(State()), State(), exp, path, claimfs) && NewSole(old(State()), State(), pend)
      ensures OrderlyClaim(old(State()), State())
      ensures roots == if rc == Zero && claimfs(f) == Claimed && KindOf(path, tree[f].path) == RootClaim
                       then old(roots)[exp := f] else old(roots)
      decreases bound - |tree[f].path|, 6
    {
      Dated(State(), busy, pend);
      if acct[f].fsal != Some(exp.fsal) && (acct[f].root != 0 || acct[f].subtree != 0) {
        return Einval;
      }
      var kind := KindOf(path, tree[f].path);
      var answer := claimfs(f);
      if answer == Enxio {
        return if kind != ChildClaim then Einval else Zero;
      }
      if answer != Claimed {
        return Errno(answer.code);
      }
      Claim(path, kind, parent, f, exp, claimfs, bound, busy, pend);
      return Zero;
    }

    /** process_claim from where the FSAL has agreed. */
    method Claim(path: Option<string>, kind: Kind, parent: Option<nat>, f: nat, exp: Export,
                 claimfs: nat -> Answer, ghost bound: nat, ghost busy: set<nat>, ghost pend: map<nat, ClaimMap>)
      requires Inv(State(), busy, pend) && TreeOk(tree, bound) && f in tree
      requires forall g :: g in busy ==> g in tree && |tree[g].path| < |tree[f].path|
      requires ParentReady(tree, ClaimMap(exp, f, kind, parent), next, pend)
      requires kind == KindOf(path, tree[f].path)
      requires acct[f].fsal == Some(exp.fsal) || (acct[f].root == 0 && acct[f].subtree == 0)
      requires kind == ChildClaim ==> acct[f].root == 0
      requires parent.Some? && pend[parent.value].kind == ChildClaim ==> acct[f].child == 0
      modifies `acct, `maps, `next, `roots
      ensures Inv(State(), busy, pend)
      ensures ClaimMade(old(State()), State(), ClaimMap(exp, f, kind, parent), path, claimfs, pend)
      ensures roots == if kind == RootClaim then old(roots)[exp := f] else old(roots)
      decreases bound - |tree[f].path|, 5
    {
      ghost var s0 := State();
      var c := ClaimMap(exp, f, kind, parent);
      Take(f, kind, exp, busy, pend);
      ghost var s1 := State();
      roots := if kind == RootClaim then roots[exp := f] else roots;
      var m := Descend(path, c, claimfs, bound, busy + {f}, pend);
      Fresh(s0, m, pend, busy);
      NonePending(s0, busy, pend);
      Complete(m, c, path, claimfs, s0, s1, busy, pend);
    }

    /** process_claim from the label account on. */
    method Complete(m: nat, c: ClaimMap, path: Option<string>, claimfs: nat -> Answer, ghost s0: Forest,
                    ghost s1: Forest, ghost busy: set<nat>, ghost pend: map<nat, ClaimMap>)
      requires Completing(s0, s1, State(), m, c, path, claimfs, busy, pend) && c.fs !in busy
      requires acct[c.fs].fsal == Some(c.exp.fsal)
      requires c.kind == RootClaim ==> acct[c.fs].child == 0
      requires c.kind == ChildClaim ==> acct[c.fs].root == 0
      modifies `acct, `maps
      ensures Inv(State(), busy, pend) && ClaimMade(s0, State(), c, path, claimfs, pend)
    {
      ghost var s3 := State();
      Enter(m, c, busy, pend);
      CompletedSo(s0, s1, s3, m, c, path, claimfs, busy, pend);
    }

    /** The new map's number, and the claims below it. */
    method Descend(path: Option<string>, c: ClaimMap, claimfs: nat -> Answer, ghost bound: nat, ghost busy: set<nat>,
                   ghost pend: map<nat, ClaimMap>)
      returns (m: nat)
      requires Inv(State(), busy, pend) && Ready(tree, bound, c.fs, busy)
      requires c.kind == KindOf(path, tree[c.fs].path)
      modifies `acct, `maps, `next, `roots
      ensures m == old(next) && m !in maps && Inv(State(), busy, pend[m := c])
      ensures c.fs in acct && acct[c.fs] == old(acct[c.fs])
      ensures Descended(old(State()), State(), m, c, path, claimfs, pend[m := c])
      ensures roots == old(roots)
      decreases bound - |tree[c.fs].path|, 4
    {
      ghost var s0 := State();
      m := Number(c, busy, pend);
      ghost var s2 := State();
      Dated(s2, busy, pend[m := c]);
      ConfinedSame(s2, c.fs, true, c.exp);
      DealtNone(s2, m, c, path, claimfs, pend[m := c]);
      EndedNone(s2, c, path, busy, pend[m := c]);
      if Children(tree, c.fs) != {} {
        ClaimChildren(m, path, c, claimfs, bound, busy, pend[m := c]);
      }
      NonePending(State(), busy, pend[m := c]);
      OwnAccountSame(s2, State(), c.fs);
      DescendedSo(s0, State(), m, c, path, claimfs, pend[m := c]);
    }

    /** The clean-up for a subtree claim, and the loop over the child filesystems. */
    method ClaimChildren(m: nat, path: Option<string>, c: ClaimMap, claimfs: nat -> Answer,
                         ghost bound: nat, ghost busy: set<nat>, ghost pend: map<nat, ClaimMap>)
      requires Inv(State(), busy, pend) && Ready(tree, bound, c.fs, busy) && m in pend && pend[m] == c
      requires c.kind == KindOf(path, tree[c.fs].path)
      modifies `acct, `maps, `next, `roots
      ensures Inv(State(), busy, pend) && Confined(old(State()), State(), c.fs, true, c.exp)
      ensures Dealt(old(State()), State(), m, c, path, claimfs, Children(tree, c.fs), pend)
      ensures EndedBelow(old(State()), State(), c, path)
      ensures roots == old(roots)
      decreases bound - |tree[c.fs].path|, 3
    {
      ghost var s0 := State();
      Dated(s0, busy, pend);
      NothingGone(s0, Cleaned(s0, c.fs, c.kind, path));
      if c.kind == SubtreeClaim {
        CleanOut(c.fs, path.value, busy, pend);
      }
      ghost var s1 := State();
      NonePending(s0, busy, pend);
      AllCleaned(s0, s1, c.fs, c.kind, path, busy, pend);
      ShrunkConfined(s0, s1, c.fs, c.exp, busy);
      ClaimEach(m, path, c, claimfs, bound, busy, pend);
      ConfinedTwice(s0, s1, State(), c.fs, true, c.exp);
      CleanedThenClaimed(s0, s1, State(), c, path);
      DealtSince(s0, s1, State(), m, c, path, claimfs, Children(tree, c.fs), pend);
    }

    method ClaimEach(m: nat, path: Option<string>, c: ClaimMap, claimfs: nat -> Answer, ghost bound: nat,
                     ghost busy: set<nat>, ghost pend: map<nat, ClaimMap>)
      requires Inv(State(), busy, pend) && Ready(tree, bound, c.fs, busy) && m in pend && pend[m] == c
      requires c.kind == KindOf(path, tree[c.fs].path)
      modifies `acct, `maps, `next, `roots
      ensures Inv(State(), busy, pend) && Confined(old(State()), State(), c.fs, true, c.exp)
      ensures Dealt(old(State()), State(), m, c, path, claimfs, Children(tree, c.fs), pend)
      ensures OnlyForeign(old(State()), State(), c.exp)
      ensures roots == old(roots)
      decreases bound - |tree[c.fs].path|, 2
    {
      ghost var s0 := State();
      Dated(s0, busy, pend);
      ConfinedSame(s0, c.fs, true, c.exp);
      DealtNone(s0, m, c, path, claimfs, pend);
      NothingGone(s0, Foreigners(s0, s0, c.exp));
      var children := Children(tree, c.fs);
      var todo := children;
      assert children - todo == {};
      while todo != {}
        invariant Inv(State(), busy, pend) && Confined(s0, State(), c.fs, true, c.exp) && todo <= children
        invariant Dealt(s0, State(), m, c, path, claimfs, children - todo, pend) && roots == old(roots)
        invariant OnlyForeign(s0, State(), c.exp)
        decreases |todo|
      {
        var d :| d in todo;
        VisitOne(d, children - todo, s0, m, path, c, claimfs, bound, busy, pend);
        assert children - (todo - {d}) == children - todo + {d};
        todo := todo - {d};
      }
      assert children - todo == children;
    }

    /** One turn of the loop; the children `vs` come before. */
    method VisitOne(d: nat, ghost vs: set<nat>, ghost s0: Forest, m: nat, path: Option<string>, c: ClaimMap,
                    claimfs: nat -> Answer, ghost bound: nat, ghost busy: set<nat>, ghost pend: map<nat, ClaimMap>)
      requires Inv(State(), busy, pend) && Ready(tree, bound, c.fs, busy) && m in pend && pend[m] == c
      requires c.kind == KindOf(path, tree[c.fs].path) && d in Children(tree, c.fs)
      requires Confined(s0, State(), c.fs, true, c.exp) && vs <= Children(tree, c.fs) && d !in vs
      requires Dealt(s0, State(), m, c, path, claimfs, vs, pend) && OnlyForeign(s0, State(), c.exp)
      modifies `acct, `maps, `next, `roots
      ensures Inv(State(), busy, pend) && Confined(s0, State(), c.fs, true, c.exp)
      ensures Dealt(s0, State(), m, c, path, claimfs, vs + {d}, pend) && roots == old(roots)
      ensures OnlyForeign(s0, State(), c.exp)
      decreases bound - |tree[c.fs].path|, 1
    {
      ghost var s1 := State();
      ClaimChild(d, m, path, c, claimfs, bound, busy, pend);
      OneVisited(s0, s1, State(), d, vs, m, path, c, claimfs, busy, pend);
      LocalSame(s1, State(), d, false);
      ForeignTwice(s0, s1, State(), c.fs, true, c.exp, busy, pend);
    }

    /** One child filesystem: left alone, or claimed in its turn. */
    method ClaimChild(d: nat, m: nat, path: Option<string>, c: ClaimMap, claimfs: nat -> Answer, ghost bound: nat,
                      ghost busy: set<nat>, ghost pend: map<nat, ClaimMap>)
      requires Inv(State(), busy, pend) && Ready(tree, bound, c.fs, busy) && m in pend && pend[m] == c
      requires c.kind == KindOf(path, tree[c.fs].path) && d in Children(tree, c.fs)
      modifies `acct, `maps, `next, `roots
      ensures Inv(State(), busy, pend) && Confined(old(State()), State(), d, false, c.exp)
      ensures Treated(old(State()), State(), c.exp, path, c.kind, claimfs, m, d)
      ensures NewTreated(old(State()), State(), c.exp, None, claimfs)
      ensures OnlyForeign(old(State()), State(), c.exp)
      ensures NewSole(old(State()), State(), pend) && Orderly(old(State()), State(), m) && roots == old(roots)
      decreases bound - |tree[c.fs].path|, 0
    {
      ghost var s0 := State();
      Dated(s0, busy, pend);
      ConfinedSame(s0, d, false, c.exp);
      var skip := Skips(d, c.exp, path, c.kind, busy, pend);
      NothingGone(s0, Foreigners(s0, s0, c.exp));
      if !skip {
        var _ := ProcessClaim(None, Some(m), d, c.exp, claimfs, bound, busy, pend);
        ChildTreated(s0, State(), c.exp, path, c.kind, claimfs, m, d);
        OrderlyChild(s0, State(), m);
        if State() != s0 {
          ChildOnlyForeign(s0, State(), ClaimMap(c.exp, d, ChildClaim, Some(m)), busy, pend);
        }
      }
    }

    /** One turn of the loop of release_posix_file_system. */
    method ReleaseChild(c: nat, f: nat, ghost todo: set<nat>, ghost s0: Forest, ghost bound: nat)
      returns (kept: bool)
      requires Inv(State(), {}, map[]) && TreeOk(tree, bound) && f in tree
      requires TreeOk(s0.tree, bound) && f in s0.tree && c in todo && todo <= Children(s0.tree, f)
      requires Trimmed(s0, State(), f) && ChildrenDone(s0, State(), f, todo)
      modifies `tree, `acct
      ensures Inv(State(), {}, map[]) && TreeOk(tree, bound) && f in tree
      ensures Trimmed(s0, State(), f) && ChildrenDone(s0, State(), f, todo - {c})
      ensures kept <==> HasClaimed(s0, c)
      decreases bound - |s0.tree[f].path|, 0
    {
      ghost var s1 := State();
      assert Intact(s0, s1, c);
      ChildThere(s0, s1, f, c, bound);
      kept := Release(c, bound);
      AfterChild(s0, s1, State(), f, c, bound);
      AfterChildAll(s0, s1, State(), f, c, todo, bound);
    }

    /** The loop of release_posix_file_system over the children. */
    method ReleaseChildren(f: nat, ghost bound: nat) returns (claimed: bool)
      requires Inv(State(), {}, map[]) && TreeOk(tree, bound) && f in tree
      modifies `tree, `acct
      ensures Inv(State(), {}, map[]) && TreeOk(tree, bound) && f in tree
      ensures Trimmed(old(State()), State(), f)
      ensures ChildrenDone(old(State()), State(), f, {})
      ensures claimed <==> SomeClaimed(old(State()), Children(old(tree), f))
      decreases bound - |tree[f].path|, 1
    {
      ghost var s0 := State();
      claimed := false;
      var todo := Children(tree, f);
      assert Children(s0.tree, f) - todo == {};
      while todo != {}
        invariant Inv(State(), {}, map[]) && TreeOk(tree, bound) && todo <= Children(s0.tree, f)
        invariant Trimmed(s0, State(), f) && f in tree
        invariant ChildrenDone(s0, State(), f, todo)
        invariant claimed <==> SomeClaimed(s0, Children(s0.tree, f) - todo)
        decreases |todo|
      {
        var c :| c in todo;
        var kept := ReleaseChild(c, f, todo, s0, bound);
        OneMoreClaimed(s0, Children(s0.tree, f), todo, c);
        claimed := claimed || kept;
        todo := todo - {c};
      }
      assert Children(s0.tree, f) - todo == Children(s0.tree, f);
    }

    /** release_posix_file_system: what is claimed stays, with all that it is mounted under; what is
        not goes. */
    method Release(f: nat, ghost bound: nat) returns (claimed: bool)
      requires Inv(State(), {}, map[]) && TreeOk(tree, bound) && f in tree
      modifies `tree, `acct
      ensures Inv(State(), {}, map[]) && TreeOk(tree, bound)
      ensures claimed <==> HasClaimed(old(State()), f)
      ensures Trimmed(old(State()), State(), f) && NoneIdle(old(State()), State(), f)
      ensures forall g :: g in old(tree) ==>
        (g in tree <==> (Below(old(tree), g, f) ==> HasClaimed(old(State()), g)))
      decreases bound - |tree[f].path|, 2
    {
      ghost var s0 := State();
      claimed := ReleaseChildren(f, bound);
      ghost var s1 := State();
      ChildrenClaimed(s0, s1, f, bound);
      if acct[f].fsal.Some? {
        LeftExactlyClaimed(s0, s1, f);
        return true;
      }
      if claimed {
        LeftExactlyClaimed(s0, s1, f);
        return true;
      }
      RemovedInv(s0, s1, f, bound);
      RemovedTrimmed(s0, s1, f);
      tree := tree - {f};
      acct := acct - {f};
      LeftExactlyClaimed(s0, State(), f);
    }

    ghost function World(): Claimants
      reads this
    {
      Claimants(State(), roots)
    }

    /** claim_posix_filesystems: the filesystem that the path is on is looked up by its device, and is
        the export's root_fs if the claim is made. */
    method ClaimFilesystems(path: string, dev: nat, exp: Export, claimfs: nat -> Answer, ghost bound: nat)
      returns (rc: Result, root: Option<nat>)
      requires Inv(State(), {}, map[]) && TreeOk(tree, bound)
      modifies this
      ensures Inv(State(), {}, map[]) && tree == old(tree)
      ensures rc != Zero ==> State() == old(State()) && roots == old(roots) && root.None?
      ensures NoDevice(tree, dev) ==> rc == Errno(ENOENT)
      ensures !NoDevice(tree, dev) ==> exists f ::
        f in tree && tree[f].dev == dev && rc == Outcome(old(State()), Some(path), f, exp, claimfs)
      ensures rc == Zero ==> root.Some? && root.value in tree && tree[root.value].dev == dev
      ensures rc == Zero ==>
        && Confined(old(State()), State(), root.value, false, exp)
        && NewTreated(old(State()), State(), exp, Some(path), claimfs) && NewSole(old(State()), State(), map[])
        && OrderlyClaim(old(State()), State())
      ensures rc == Zero ==> ClaimStep(old(World()), World(), root.value, path, exp)
    {
      if NoDevice(tree, dev) {
        return Errno(ENOENT), None;
      }
      var f :| f in tree && tree[f].dev == dev;
      ghost var s0 := State();
      rc := ProcessClaim(Some(path), None, f, exp, claimfs, bound, {}, map[]);
      root := None;
      if rc == Zero {
        LocalSame(s0, State(), f, false);
        AddedOwn(s0, State(), f, exp);
        root := Some(f);
        roots := roots[exp := f];
      }
    }

    method ReleaseRoot(f: nat, ghost bound: nat)
      requires Inv(State(), {}, map[]) && TreeOk(tree, bound) && f in tree
      modifies `tree, `acct
      ensures Inv(State(), {}, map[]) && TreeOk(tree, bound) && LeftOf(old(State()), State(), f)
    {
      ghost var s1 := State();
      var _ := Release(f, bound);
      LeftStillClaimed(s1, State(), f);
    }

    /** unclaim_all_export_maps, after which the export goes, and its root_fs with it. `freed` says that
        root_fs was not mounted any more: what the code then does with it is not modelled. */
    method UnclaimAll(exp: Export, ghost bound: nat) returns (freed: bool)
      requires Inv(State(), {}, map[]) && TreeOk(tree, bound)
      modifies this
      ensures Inv(State(), {}, map[]) && TreeOk(tree, bound)
      ensures UnclaimStep(old(World()), World(), exp)
      ensures freed <==> exp in old(roots) && old(roots)[exp] !in old(tree)
    {
      UnclaimExport(exp, {}, map[]);
      freed := false;
      if exp in roots {
        if roots[exp] in tree {
          ReleaseRoot(roots[exp], bound);
        } else {
          freed := true;
        }
      }
      roots := roots - {exp};
    }
  }
}
