/**
 * Hidden commits contracted out of the history before it is drawn, and the worklist
 * walk over parents (apps/desktop/frontend/src/lib/commit-graph.ts).
 */
module VisibleProjection {
  import opened Common
  import opened CommitGraph
  import opened Ancestry

  // ------------------------------------------------------------ reachableCommits

  function ParentsOf(items: seq<Commit>, oid: Oid): (r: seq<Oid>)
    ensures forall p :: p in r ==> ParentOf(items, oid, p)
  {
    match IndexOf(items, oid, |items|)
    case Some(k) => items[k].parents
    case None => []
  }

  /** Every id the history mentions. */
  ghost function Mentioned(items: seq<Commit>): set<Oid> {
    set k, p | 0 <= k < |items| && p in items[k].parents :: p
  }

  ghost predicate ClosedUpTo(items: seq<Commit>, inside: set<Oid>, pending: seq<Oid>) {
    forall a, b :: a in inside && ParentOf(items, a, b) ==> b in inside || b in pending
  }

  lemma {:induction false} ClosedContainsPath(items: seq<Commit>, inside: set<Oid>, path: seq<Oid>, n: nat)
    requires ClosedUpTo(items, inside, []) && IsPath(items, path) && path[0] in inside && n < |path|
    ensures path[n] in inside
  {
    if n > 0 {
      ClosedContainsPath(items, inside, path, n - 1);
      assert ParentOf(items, path[n - 1], path[n]);
    }
  }

  lemma ParentIsReached(items: seq<Commit>, start: Oid, oid: Oid, p: Oid)
    requires ParentOf(items, oid, p) && Reaches(items, start, oid)
    ensures Reaches(items, start, p)
  {
    ReachesItself(items, p);
    StepReaches(items, oid, p, p);
    ReachesTransitive(items, start, oid, p);
  }

  lemma ParentsAreAll(items: seq<Commit>, oid: Oid)
    requires forall i, j :: 0 <= i < j < |items| ==> items[i].id != items[j].id
    ensures forall p :: p in ParentsOf(items, oid) <==> ParentOf(items, oid, p)
    ensures forall p :: p in ParentsOf(items, oid) ==> p in Mentioned(items)
  {
  }

  lemma NothingIsClosed(items: seq<Commit>, pending: seq<Oid>)
    ensures ClosedUpTo(items, {}, pending)
  {
  }

  lemma StillClosed(items: seq<Commit>, inside: set<Oid>, before: seq<Oid>, oid: Oid, pending: seq<Oid>)
    requires ClosedUpTo(items, inside, before) && oid in inside && forall x :: x in before ==> x in pending || x == oid
    ensures ClosedUpTo(items, inside, pending)
  {
  }

  lemma OneMoreClosed(
      items: seq<Commit>, inside: set<Oid>, before: seq<Oid>, oid: Oid, pending: seq<Oid>, parents: seq<Oid>)
    requires ClosedUpTo(items, inside, before) && forall x :: x in before ==> x in pending || x == oid
    requires forall p :: ParentOf(items, oid, p) ==> p in parents
    ensures ClosedUpTo(items, inside + {oid}, pending + parents)
  {
  }

  /** The commits reachable from start are exactly start and its ancestors. */
  method ReachableCommits(items: seq<Commit>, start: Oid) returns (reachable: set<Oid>)
    requires forall i, j :: 0 <= i < j < |items| ==> items[i].id != items[j].id
    ensures forall oid :: oid in reachable <==> Reaches(items, start, oid)
  {
    hide Reaches, ClosedUpTo, ParentsOf, Mentioned;
    reachable := {};
    var pending := [start];
    ghost var universe := Mentioned(items) + {start};
    ReachesItself(items, start);
    NothingIsClosed(items, pending);
    while pending != []
      invariant reachable <= universe
      invariant forall x :: x in pending ==> x in universe && Reaches(items, start, x)
      invariant forall x :: x in reachable ==> Reaches(items, start, x)
      invariant start in reachable || start in pending
      invariant ClosedUpTo(items, reachable, pending)
      decreases |universe - reachable|, |pending|
    {
      var oid := pending[|pending| - 1];
      ghost var before := pending;
      pending := pending[..|pending| - 1];
      assert forall x :: x in before ==> x in pending || x == oid;
      if oid !in reachable {
        var parents := ParentsOf(items, oid);
        ParentsAreAll(items, oid);
        forall p | p in parents ensures p in universe && Reaches(items, start, p) {
          ParentIsReached(items, start, oid, p);
        }
        OneMoreClosed(items, reachable, before, oid, pending, parents);
        assert universe - (reachable + {oid}) < universe - reachable by {
          assert oid in universe - reachable;
        }
        SmallerSet(universe - (reachable + {oid}), universe - reachable);
        reachable := reachable + {oid};
        pending := pending + parents;
      } else {
        StillClosed(items, reachable, before, oid, pending);
      }
    }
    ClosedContainsReached(items, start, reachable);
  }

  lemma ClosedContainsReached(items: seq<Commit>, start: Oid, inside: set<Oid>)
    requires ClosedUpTo(items, inside, []) && start in inside
    ensures forall oid :: Reaches(items, start, oid) ==> oid in inside
  {
    forall oid | Reaches(items, start, oid) ensures oid in inside {
      var path :| Joins(items, path, start, oid);
      ClosedContainsPath(items, inside, path, |path| - 1);
    }
  }

  lemma SmallerSet(a: set<Oid>, b: set<Oid>)
    requires a < b
    ensures |a| < |b|
  {
    assert |b| == |a| + |b - a| by { assert b == a + (b - a); }
    var x :| x in b - a;
  }

  // -------------------------------------------------------- projectVisibleCommits

  /** The first occurrence of every id, in order. */
  function FirstOccurrences(oids: seq<Oid>): (r: seq<Oid>)
    ensures forall x :: x in r <==> x in oids
    ensures forall i, j :: 0 <= i < j < |r| ==> r[i] != r[j]
  {
    if oids == [] then []
    else
      var r := FirstOccurrences(oids[..|oids| - 1]);
      var last := oids[|oids| - 1];
      assert oids == oids[..|oids| - 1] + [last];
      if last in r then r else r + [last]
  }

  /** Larger for commits listed earlier; parents always rank below their child. */
  function Rank(items: seq<Commit>, oid: Oid): nat {
    match IndexOf(items, oid, |items|)
    case Some(k) => |items| - k
    case None => 0
  }

  lemma ParentRank(items: seq<Commit>, child: Oid, parent: Oid)
    requires Topological(items) && ParentOf(items, child, parent)
    ensures Rank(items, parent) < Rank(items, child)
  {
  }

  lemma ParentsRank(items: seq<Commit>, k: nat)
    requires Topological(items) && k < |items|
    ensures Rank(items, items[k].id) == |items| - k
    ensures forall p :: p in items[k].parents ==> Rank(items, p) < |items| - k
  {
    forall p | p in items[k].parents ensures Rank(items, p) < |items| - k {
      ParentRank(items, items[k].id, p);
    }
  }

  /** The visible or unloaded commits first met when walking up from oid. */
  function Nearest(items: seq<Commit>, visible: set<Oid>, oid: Oid): seq<Oid>
    requires Topological(items)
    decreases Rank(items, oid), 1, 0
  {
    if oid in visible then [oid]
    else
      match IndexOf(items, oid, |items|)
      case None => [oid]
      case Some(k) =>
        ParentsRank(items, k);
        FirstOccurrences(NearestAll(items, visible, items[k].parents, |items[k].parents|, Rank(items, oid)))
  }

  function NearestAll(items: seq<Commit>, visible: set<Oid>, oids: seq<Oid>, n: nat, bound: nat): (r: seq<Oid>)
    requires Topological(items) && n <= |oids|
    requires forall p :: p in oids ==> Rank(items, p) < bound
    decreases bound, 0, n
  {
    if n == 0 then []
    else NearestAll(items, visible, oids, n - 1, bound) + Nearest(items, visible, oids[n - 1])
  }

  lemma {:induction false} NearestAllHas(
      items: seq<Commit>, visible: set<Oid>, oids: seq<Oid>, n: nat, bound: nat, x: Oid)
    requires Topological(items) && n <= |oids|
    requires forall p :: p in oids ==> Rank(items, p) < bound
    ensures x in NearestAll(items, visible, oids, n, bound)
            <==> exists j :: 0 <= j < n && x in Nearest(items, visible, oids[j])
  {
    if n > 0 {
      NearestAllHas(items, visible, oids, n - 1, bound, x);
    }
  }

  function ProjectedParents(items: seq<Commit>, visible: set<Oid>, k: nat): seq<Oid>
    requires Topological(items) && k < |items|
  {
    ParentsRank(items, k);
    FirstOccurrences(NearestAll(items, visible, items[k].parents, |items[k].parents|, |items| - k))
  }

  /** The indices of the visible commits among the first n. */
  function Shown(items: seq<Commit>, visible: set<Oid>, n: nat): (r: seq<nat>)
    requires n <= |items|
    ensures forall j :: 0 <= j < |r| ==> r[j] < n && items[r[j]].id in visible
    ensures forall i, j :: 0 <= i < j < |r| ==> r[i] < r[j]
    ensures forall i: nat :: i < n && items[i].id in visible ==> i in r
  {
    if n == 0 then []
    else if items[n - 1].id in visible then Shown(items, visible, n - 1) + [n - 1]
    else Shown(items, visible, n - 1)
  }

  function ContractAt(items: seq<Commit>, visible: set<Oid>, shown: seq<nat>): (r: seq<Commit>)
    requires Topological(items) && forall j :: 0 <= j < |shown| ==> shown[j] < |items|
    ensures |r| == |shown|
    ensures forall j :: 0 <= j < |r| ==> r[j] == Commit(items[shown[j]].id, ProjectedParents(items, visible, shown[j]))
  {
    seq(|shown|, j requires 0 <= j < |shown| => Commit(items[shown[j]].id, ProjectedParents(items, visible, shown[j])))
  }

  function Contract(items: seq<Commit>, visible: set<Oid>): seq<Commit>
    requires Topological(items)
  {
    ContractAt(items, visible, Shown(items, visible, |items|))
  }

  /** The program returns the history as it is when as many ids are visible as are listed. */
  function Project(items: seq<Commit>, visible: set<Oid>): seq<Commit>
    requires Topological(items)
  {
    if |visible| == |items| then items else Contract(items, visible)
  }

  // ------------------------------------------------------- meaning of Nearest

  lemma {:induction false} NearestReaches(items: seq<Commit>, visible: set<Oid>, oid: Oid, x: Oid)
    requires Topological(items) && x in Nearest(items, visible, oid)
    ensures Reaches(items, oid, x)
    ensures x in visible || IndexOf(items, x, |items|).None?
    decreases Rank(items, oid)
  {
    ReachesItself(items, oid);
    if oid !in visible && IndexOf(items, oid, |items|).Some? {
      var k := IndexOf(items, oid, |items|).value;
      var parents := items[k].parents;
      ParentsRank(items, k);
      NearestAllHas(items, visible, parents, |parents|, Rank(items, oid), x);
      var j :| 0 <= j < |parents| && x in Nearest(items, visible, parents[j]);
      assert parents[j] in parents && ParentOf(items, oid, parents[j]);
      NearestReaches(items, visible, parents[j], x);
      StepReaches(items, oid, parents[j], x);
    }
  }

  /** A walk over hidden commits up to a visible one finds it. */
  lemma {:induction false} WalkFinds(items: seq<Commit>, visible: set<Oid>, path: seq<Oid>)
    requires Topological(items) && IsPath(items, path)
    requires path[|path| - 1] in visible && forall i :: 0 <= i < |path| - 1 ==> path[i] !in visible
    ensures path[|path| - 1] in Nearest(items, visible, path[0])
    decreases |path|
  {
    if |path| > 1 {
      var rest := path[1..];
      SubPath(items, path, 1, |path|);
      assert rest == path[1..|path|];
      WalkFinds(items, visible, rest);
      assert ParentOf(items, path[0], path[1]);
      var k :| 0 <= k < |items| && items[k].id == path[0] && path[1] in items[k].parents;
      var parents := items[k].parents;
      assert IndexOf(items, path[0], |items|) == Some(k);
      ParentsRank(items, k);
      var j :| 0 <= j < |parents| && parents[j] == path[1];
      NearestAllHas(items, visible, parents, |parents|, Rank(items, path[0]), path[|path| - 1]);
    }
  }

  // -------------------------------------------------------- ancestry is preserved

  /** b is a nearest visible ancestor of the visible commit a. */
  ghost predicate VisibleStep(items: seq<Commit>, visible: set<Oid>, a: Oid, b: Oid)
    requires Topological(items)
  {
    a in visible && exists p :: ParentOf(items, a, p) && b in Nearest(items, visible, p)
  }

  ghost predicate Contracts(items: seq<Commit>, visible: set<Oid>, r: seq<Commit>)
    requires Topological(items)
  {
    forall a, b :: ParentOf(r, a, b) <==> VisibleStep(items, visible, a, b)
  }

  lemma ProjectedParentsHave(items: seq<Commit>, visible: set<Oid>, k: nat, b: Oid)
    requires Topological(items) && k < |items|
    ensures b in ProjectedParents(items, visible, k) <==>
      exists p :: ParentOf(items, items[k].id, p) && b in Nearest(items, visible, p)
  {
    var parents := items[k].parents;
    ParentsRank(items, k);
    NearestAllHas(items, visible, parents, |parents|, |items| - k, b);
    if b in ProjectedParents(items, visible, k) {
      var i :| 0 <= i < |parents| && b in Nearest(items, visible, parents[i]);
      assert ParentOf(items, items[k].id, parents[i]);
    }
    if exists p :: ParentOf(items, items[k].id, p) && b in Nearest(items, visible, p) {
      var p :| ParentOf(items, items[k].id, p) && b in Nearest(items, visible, p);
      var i :| 0 <= i < |parents| && parents[i] == p;
    }
  }

  lemma ContractContracts(items: seq<Commit>, visible: set<Oid>)
    requires Topological(items)
    ensures Contracts(items, visible, Contract(items, visible))
  {
    hide Shown, Nearest, Topological;
    var shown := Shown(items, visible, |items|);
    var r := Contract(items, visible);
    forall a, b ensures ParentOf(r, a, b) <==> VisibleStep(items, visible, a, b) {
      if ParentOf(r, a, b) {
        var j :| 0 <= j < |r| && r[j].id == a && b in r[j].parents;
        ProjectedParentsHave(items, visible, shown[j], b);
      }
      if VisibleStep(items, visible, a, b) {
        var p :| ParentOf(items, a, p) && b in Nearest(items, visible, p);
        var k: nat :| k < |items| && items[k].id == a && p in items[k].parents;
        ProjectedParentsHave(items, visible, k, b);
        assert k in shown;
        var j :| 0 <= j < |shown| && shown[j] == k;
        assert r[j].id == a && b in r[j].parents;
      }
    }
  }

  lemma {:induction false} ContractedPathExists(items: seq<Commit>, visible: set<Oid>, r: seq<Commit>, path: seq<Oid>)
    requires Topological(items) && Contracts(items, visible, r) && IsPath(items, path)
    requires path[0] in visible && path[|path| - 1] in visible
    ensures Reaches(r, path[0], path[|path| - 1])
    decreases |path|
  {
    if |path| == 1 {
      ReachesItself(r, path[0]);
    } else {
      var j := FirstVisible(visible, path, 1);
      SubPath(items, path, 1, j + 1);
      WalkFinds(items, visible, path[1..j + 1]);
      assert ParentOf(items, path[0], path[1]);
      assert VisibleStep(items, visible, path[0], path[j]);
      SubPath(items, path, j, |path|);
      assert path[j..] == path[j..|path|];
      ContractedPathExists(items, visible, r, path[j..]);
      StepReaches(r, path[0], path[j], path[|path| - 1]);
    }
  }

  lemma {:induction false} FirstVisible(visible: set<Oid>, path: seq<Oid>, from: nat) returns (j: nat)
    requires from < |path| && path[|path| - 1] in visible
    ensures from <= j < |path| && path[j] in visible && forall i :: from <= i < j ==> path[i] !in visible
    decreases |path| - from
  {
    if path[from] in visible { j := from; } else { j := FirstVisible(visible, path, from + 1); }
  }

  lemma {:induction false} ContractedPathIsReal(items: seq<Commit>, visible: set<Oid>, r: seq<Commit>, path: seq<Oid>)
    requires Topological(items) && Contracts(items, visible, r) && IsPath(r, path)
    ensures Reaches(items, path[0], path[|path| - 1])
    decreases |path|
  {
    if |path| == 1 {
      ReachesItself(items, path[0]);
    } else {
      assert ParentOf(r, path[0], path[1]);
      var p :| ParentOf(items, path[0], p) && path[1] in Nearest(items, visible, p);
      NearestReaches(items, visible, p, path[1]);
      StepReaches(items, path[0], p, path[1]);
      SubPath(r, path, 1, |path|);
      assert path[1..] == path[1..|path|];
      ContractedPathIsReal(items, visible, r, path[1..]);
      ReachesTransitive(items, path[0], path[1], path[|path| - 1]);
    }
  }

  /** One visible commit is an ancestor of another after projection exactly when it was before. */
  lemma ProjectionPreservesAncestry(items: seq<Commit>, visible: set<Oid>, a: Oid, b: Oid)
    requires Topological(items) && a in visible && b in visible
    ensures Reaches(Project(items, visible), a, b) <==> Reaches(items, a, b)
  {
    if |visible| != |items| {
      ContractContracts(items, visible);
      ContractedAncestry(items, visible, Contract(items, visible), a, b);
    }
  }

  lemma ContractedAncestry(items: seq<Commit>, visible: set<Oid>, r: seq<Commit>, a: Oid, b: Oid)
    requires Topological(items) && Contracts(items, visible, r) && a in visible && b in visible
    ensures Reaches(r, a, b) <==> Reaches(items, a, b)
  {
    if Reaches(items, a, b) {
      var path :| Joins(items, path, a, b);
      ContractedPathExists(items, visible, r, path);
    }
    if Reaches(r, a, b) {
      var path :| Joins(r, path, a, b);
      ContractedPathIsReal(items, visible, r, path);
    }
  }

  lemma {:induction false} PathRank(items: seq<Commit>, path: seq<Oid>)
    requires Topological(items) && IsPath(items, path)
    ensures Rank(items, path[|path| - 1]) <= Rank(items, path[0])
    decreases |path|
  {
    if |path| > 1 {
      assert ParentOf(items, path[0], path[1]);
      ParentRank(items, path[0], path[1]);
      SubPath(items, path, 1, |path|);
      assert path[1..] == path[1..|path|];
      PathRank(items, path[1..]);
    }
  }

  lemma VisibleStepRank(items: seq<Commit>, visible: set<Oid>, a: Oid, b: Oid)
    requires Topological(items) && VisibleStep(items, visible, a, b)
    ensures Rank(items, b) < Rank(items, a)
  {
    var p :| ParentOf(items, a, p) && b in Nearest(items, visible, p);
    NearestReaches(items, visible, p, b);
    var path :| Joins(items, path, p, b);
    PathRank(items, path);
    ParentRank(items, a, p);
  }

  /** The projected history still has distinct ids and lists children before parents. */
  lemma ProjectionIsTopological(items: seq<Commit>, visible: set<Oid>)
    requires Topological(items)
    ensures Topological(Project(items, visible))
  {
    if |visible| != |items| {
      var shown := Shown(items, visible, |items|);
      var r := Contract(items, visible);
      ContractContracts(items, visible);
      forall i, j | 0 <= i < |r| && 0 <= j < |r| && r[j].id in r[i].parents ensures i < j {
        assert ParentOf(r, r[i].id, r[j].id);
        VisibleStepRank(items, visible, r[i].id, r[j].id);
        ParentsRank(items, shown[i]);
        ParentsRank(items, shown[j]);
        assert shown[i] < shown[j];
      }
    }
  }

  ghost function Ids(items: seq<Commit>): set<Oid> {
    set i | 0 <= i < |items| :: items[i].id
  }

  lemma ContractIds(items: seq<Commit>, visible: set<Oid>)
    requires Topological(items)
    ensures Ids(Contract(items, visible)) == visible * Ids(items)
  {
    var shown := Shown(items, visible, |items|);
    var r := Contract(items, visible);
    forall x ensures x in Ids(r) <==> x in visible * Ids(items) {
      if x in visible * Ids(items) {
        var i: nat :| i < |items| && items[i].id == x;
        assert i in shown;
        var j :| 0 <= j < |shown| && shown[j] == i;
        assert r[j].id == x;
      }
      if x in Ids(r) {
        var j :| 0 <= j < |r| && r[j].id == x;
        assert items[shown[j]].id == x;
      }
    }
  }

  /**
   * The projected history lists exactly the visible loaded commits, except in one case:
   * the visible set has as many ids as the history has commits without being the same
   * set. The program then returns the whole history, hidden commits included.
   */
  lemma ProjectionListsVisible(items: seq<Commit>, visible: set<Oid>)
    requires Topological(items)
    ensures Ids(Project(items, visible)) == visible * Ids(items)
            <==> !(|visible| == |items| && visible != Ids(items))
  {
    ContractIds(items, visible);
    if |visible| == |items| && visible != Ids(items) {
      IdsCount(items, |items|);
      assert items[..|items|] == items;
      if Ids(items) <= visible {
        SmallerSet(Ids(items), visible);
      }
    }
  }

  /** Asked for loaded commits only, as its one caller asks, the projection lists exactly those. */
  lemma LoadedAreListed(items: seq<Commit>, visible: set<Oid>)
    requires Topological(items) && visible <= Ids(items)
    ensures Ids(Project(items, visible)) == visible
  {
    if |visible| == |items| {
      IdsCount(items, |items|);
      assert items[..|items|] == items;
      if visible != Ids(items) {
        SmallerSet(visible, Ids(items));
      }
    } else {
      ContractIds(items, visible);
    }
  }

  /** The excepted case exists: of commits 1 and 2 the ids 1 and 9 are asked for, and 2 is listed. */
  lemma HiddenCommitListed()
    ensures var items, visible := [Commit(1, [2]), Commit(2, [])], {1, 9};
      Topological(items) && 2 !in visible && Ids(Project(items, visible)) == {1, 2}
  {
    var items, visible := [Commit(1, [2]), Commit(2, [])], {1, 9};
    assert Project(items, visible) == items;
    forall x ensures x in Ids(items) <==> x in {1, 2} {
      assert items[0].id == 1 && items[1].id == 2;
    }
  }

  lemma {:induction false} IdsCount(items: seq<Commit>, n: nat)
    requires n <= |items| && forall i, j :: 0 <= i < j < |items| ==> items[i].id != items[j].id
    ensures |Ids(items[..n])| == n
  {
    if n > 0 {
      IdsCount(items, n - 1);
      assert Ids(items[..n]) == Ids(items[..n - 1]) + {items[n - 1].id} by {
        forall x ensures x in Ids(items[..n]) <==> x in Ids(items[..n - 1]) || x == items[n - 1].id {
          if x in Ids(items[..n - 1]) {
            var i :| 0 <= i < n - 1 && items[..n - 1][i].id == x;
            assert items[..n][i].id == x;
          }
          assert items[..n][n - 1].id == items[n - 1].id;
          if x in Ids(items[..n]) {
            var i :| 0 <= i < n && items[..n][i].id == x;
            assert i < n - 1 ==> items[..n - 1][i].id == x;
          }
        }
      }
      assert items[n - 1].id !in Ids(items[..n - 1]);
    }
  }

  // ---------------------------------------------------------- the memoised walk

  ghost predicate MemoIsRight(items: seq<Commit>, visible: set<Oid>, memo: map<Oid, seq<Oid>>)
    requires Topological(items)
  {
    forall oid :: oid in memo ==> memo[oid] == Nearest(items, visible, oid)
  }

  /** The recursion with its shared memo equals the plain one, and never meets a commit it is visiting. */
  method NearestVisibleParents(
      items: seq<Commit>, visible: set<Oid>, oid: Oid, visiting: set<Oid>, memo: map<Oid, seq<Oid>>)
    returns (parents: seq<Oid>, memo': map<Oid, seq<Oid>>)
    requires Topological(items) && MemoIsRight(items, visible, memo)
    requires forall v :: v in visiting ==> Rank(items, oid) < Rank(items, v)
    ensures parents == Nearest(items, visible, oid)
    ensures MemoIsRight(items, visible, memo') && memo.Keys <= memo'.Keys
    decreases Rank(items, oid), 1, 0
  {
    memo' := memo;
    if oid in visible { return [oid], memo; }
    if oid in memo { return memo[oid], memo; }
    if oid in visiting {
      assert false;
    }
    var found := IndexOf(items, oid, |items|);
    if found.None? { return [oid], memo; }
    ParentsRank(items, found.value);
    parents, memo' := FlatNearest(items, visible, items[found.value].parents, visiting + {oid}, memo, Rank(items, oid));
    parents := FirstOccurrences(parents);
    memo' := memo'[oid := parents];
  }

  method FlatNearest(
      items: seq<Commit>, visible: set<Oid>, oids: seq<Oid>, visiting: set<Oid>, memo: map<Oid, seq<Oid>>,
      ghost bound: nat)
    returns (all: seq<Oid>, memo': map<Oid, seq<Oid>>)
    requires Topological(items) && MemoIsRight(items, visible, memo)
    requires forall p :: p in oids ==> Rank(items, p) < bound
    requires forall v :: v in visiting ==> bound <= Rank(items, v)
    ensures all == NearestAll(items, visible, oids, |oids|, bound)
    ensures MemoIsRight(items, visible, memo') && memo.Keys <= memo'.Keys
    decreases bound, 0, |oids|
  {
    all, memo' := [], memo;
    for i := 0 to |oids|
      invariant all == NearestAll(items, visible, oids, i, bound)
      invariant MemoIsRight(items, visible, memo') && memo.Keys <= memo'.Keys
    {
      var some;
      some, memo' := NearestVisibleParents(items, visible, oids[i], visiting, memo');
      all := all + some;
    }
  }

  method ProjectCommit(items: seq<Commit>, visible: set<Oid>, k: nat, memo: map<Oid, seq<Oid>>)
    returns (r: Commit, memo': map<Oid, seq<Oid>>)
    requires Topological(items) && k < |items| && MemoIsRight(items, visible, memo)
    ensures r == Commit(items[k].id, ProjectedParents(items, visible, k))
    ensures MemoIsRight(items, visible, memo')
  {
    ParentsRank(items, k);
    var parents;
    parents, memo' := FlatNearest(items, visible, items[k].parents, {}, memo, |items| - k);
    r := Commit(items[k].id, FirstOccurrences(parents));
  }

  lemma ContractOneMore(items: seq<Commit>, visible: set<Oid>, k: nat)
    requires Topological(items) && k < |items|
    ensures ContractAt(items, visible, Shown(items, visible, k + 1))
      == ContractAt(items, visible, Shown(items, visible, k))
         + if items[k].id in visible then [Commit(items[k].id, ProjectedParents(items, visible, k))] else []
  {
    var shown := Shown(items, visible, k);
    if items[k].id in visible {
      assert Shown(items, visible, k + 1) == shown + [k];
      assert forall j :: 0 <= j < |shown| ==> (shown + [k])[j] == shown[j];
    }
  }

  method ProjectVisibleCommits(items: seq<Commit>, visible: set<Oid>) returns (r: seq<Commit>)
    requires Topological(items)
    ensures r == Project(items, visible)
  {
    if |visible| == |items| { return items; }
    r := [];
    var memo: map<Oid, seq<Oid>> := map[];
    for i := 0 to |items|
      invariant r == ContractAt(items, visible, Shown(items, visible, i))
      invariant MemoIsRight(items, visible, memo)
    {
      ContractOneMore(items, visible, i);
      if items[i].id in visible {
        var commit;
        commit, memo := ProjectCommit(items, visible, i, memo);
        r := r + [commit];
      }
    }
  }
}
