/**
 * Which parents a projected commit has, and in which order, said of walks over the
 * history alone (projectVisibleCommits in apps/desktop/frontend/src/lib/commit-graph.ts).
 */
module VisibleParents {
  import opened Common
  import opened CommitGraph
  import opened Ancestry
  import opened VisibleProjection

  ghost predicate Loaded(items: seq<Commit>, oid: Oid) {
    exists k :: 0 <= k < |items| && items[k].id == oid
  }

  /** Taking the parents numbered by the walk leads from oid, over loaded hidden commits, to x,
      which is visible or not loaded. */
  ghost predicate Leads(items: seq<Commit>, visible: set<Oid>, oid: Oid, walk: seq<nat>, x: Oid)
    decreases |walk|
  {
    if walk == [] then x == oid && (oid in visible || !Loaded(items, oid))
    else
      oid !in visible
      && exists k :: 0 <= k < |items| && items[k].id == oid && From(items, visible, items[k].parents, walk, x)
  }

  /** The same, the first step of the walk being to one of these parents. */
  ghost predicate From(items: seq<Commit>, visible: set<Oid>, parents: seq<Oid>, walk: seq<nat>, x: Oid)
    decreases |walk|, 0
  {
    walk != [] && walk[0] < |parents| && Leads(items, visible, parents[walk[0]], walk[1..], x)
  }

  /** Where the walks part the first takes the earlier parent. */
  predicate Before(u: seq<nat>, v: seq<nat>) {
    u != [] && v != [] && (u[0] < v[0] || (u[0] == v[0] && Before(u[1..], v[1..])))
  }

  ghost predicate Met(items: seq<Commit>, visible: set<Oid>, parents: seq<Oid>, x: Oid) {
    exists walk :: From(items, visible, parents, walk, x)
  }

  /** Some walk meets x before any meets y. */
  ghost predicate Sooner(items: seq<Commit>, visible: set<Oid>, parents: seq<Oid>, x: Oid, y: Oid) {
    exists u :: From(items, visible, parents, u, x) && IsBefore(items, visible, parents, u, y)
  }

  ghost predicate IsBefore(items: seq<Commit>, visible: set<Oid>, parents: seq<Oid>, u: seq<nat>, y: Oid) {
    forall v :: From(items, visible, parents, v, y) ==> Before(u, v)
  }

  /** The list holds what walks meet, each once, in the order in which it is first met. */
  ghost predicate FirstMet(items: seq<Commit>, visible: set<Oid>, parents: seq<Oid>, list: seq<Oid>) {
    && (forall x :: x in list <==> Met(items, visible, parents, x))
    && (forall i, j :: 0 <= i < j < |list| ==> list[i] != list[j])
    && (forall i, j :: 0 <= i < j < |list| ==> Sooner(items, visible, parents, list[i], list[j]))
  }

  /** The same of the walks that begin at one commit. */
  ghost predicate FirstMetFrom(items: seq<Commit>, visible: set<Oid>, oid: Oid, list: seq<Oid>) {
    && (forall x :: x in list <==> MetFrom(items, visible, oid, x))
    && (forall i, j :: 0 <= i < j < |list| ==> list[i] != list[j])
    && (forall i, j :: 0 <= i < j < |list| ==> SoonerFrom(items, visible, oid, list[i], list[j]))
  }

  ghost predicate MetFrom(items: seq<Commit>, visible: set<Oid>, oid: Oid, x: Oid) {
    exists walk :: Leads(items, visible, oid, walk, x)
  }

  ghost predicate SoonerFrom(items: seq<Commit>, visible: set<Oid>, oid: Oid, x: Oid, y: Oid) {
    exists u :: Leads(items, visible, oid, u, x) && forall v :: Leads(items, visible, oid, v, y) ==> Before(u, v)
  }

  // --------------------------------------------------------- one block of parents

  lemma MoreParents(items: seq<Commit>, visible: set<Oid>, oids: seq<Oid>, n: nat, walk: seq<nat>, x: Oid)
    requires n < |oids|
    ensures From(items, visible, oids[..n + 1], walk, x) <==>
      || From(items, visible, oids[..n], walk, x)
      || (walk != [] && walk[0] == n && Leads(items, visible, oids[n], walk[1..], x))
  {
  }

  lemma SoonerAmongMore(items: seq<Commit>, visible: set<Oid>, oids: seq<Oid>, n: nat, x: Oid, y: Oid)
    requires n < |oids| && Sooner(items, visible, oids[..n], x, y)
    ensures Sooner(items, visible, oids[..n + 1], x, y)
  {
    hide Leads;
    var u :| From(items, visible, oids[..n], u, x) && IsBefore(items, visible, oids[..n], u, y);
    MoreParents(items, visible, oids, n, u, x);
    forall v | From(items, visible, oids[..n + 1], v, y) ensures Before(u, v) {
      MoreParents(items, visible, oids, n, v, y);
    }
    assert IsBefore(items, visible, oids[..n + 1], u, y);
  }

  /** What only the last parent leads to is met after what an earlier one leads to. */
  lemma EarlierBlock(items: seq<Commit>, visible: set<Oid>, oids: seq<Oid>, n: nat, x: Oid, y: Oid)
    requires n < |oids| && Met(items, visible, oids[..n], x) && !Met(items, visible, oids[..n], y)
    ensures Sooner(items, visible, oids[..n + 1], x, y)
  {
    hide Leads;
    var u :| From(items, visible, oids[..n], u, x);
    MoreParents(items, visible, oids, n, u, x);
    forall v | From(items, visible, oids[..n + 1], v, y) ensures Before(u, v) {
      MoreParents(items, visible, oids, n, v, y);
    }
    assert IsBefore(items, visible, oids[..n + 1], u, y);
  }

  /** Within the last parent's block the order is that of the walks that begin there. */
  lemma SameBlock(items: seq<Commit>, visible: set<Oid>, oids: seq<Oid>, n: nat, x: Oid, y: Oid)
    requires n < |oids| && SoonerFrom(items, visible, oids[n], x, y) && !Met(items, visible, oids[..n], y)
    ensures Sooner(items, visible, oids[..n + 1], x, y)
  {
    hide Leads;
    var rest :| Leads(items, visible, oids[n], rest, x)
      && forall v :: Leads(items, visible, oids[n], v, y) ==> Before(rest, v);
    var u := [n] + rest;
    assert u[1..] == rest;
    MoreParents(items, visible, oids, n, u, x);
    forall v | From(items, visible, oids[..n + 1], v, y) ensures Before(u, v) {
      MoreParents(items, visible, oids, n, v, y);
    }
    assert IsBefore(items, visible, oids[..n + 1], u, y);
  }

  lemma MetByOneMore(items: seq<Commit>, visible: set<Oid>, oids: seq<Oid>, n: nat, x: Oid)
    requires n < |oids|
    ensures Met(items, visible, oids[..n + 1], x) <==>
      Met(items, visible, oids[..n], x) || MetFrom(items, visible, oids[n], x)
  {
    hide Leads;
    if Met(items, visible, oids[..n + 1], x) {
      var walk :| From(items, visible, oids[..n + 1], walk, x);
      MoreParents(items, visible, oids, n, walk, x);
    }
    if Met(items, visible, oids[..n], x) {
      var walk :| From(items, visible, oids[..n], walk, x);
      MoreParents(items, visible, oids, n, walk, x);
    }
    if MetFrom(items, visible, oids[n], x) {
      var walk :| Leads(items, visible, oids[n], walk, x);
      assert ([n] + walk)[1..] == walk;
      MoreParents(items, visible, oids, n, [n] + walk, x);
    }
  }

  /** The list so far, with the first m commits of the last parent's block. */
  ghost predicate BlockTo(
      items: seq<Commit>, visible: set<Oid>, oids: seq<Oid>, n: nat, block: seq<Oid>, m: nat, list: seq<Oid>)
    requires n < |oids| && m <= |block|
  {
    && (forall x :: x in list <==> Met(items, visible, oids[..n], x) || x in block[..m])
    && (forall i, j :: 0 <= i < j < |list| ==> Sooner(items, visible, oids[..n + 1], list[i], list[j]))
  }

  lemma {:induction false} BlockInOrder(
      items: seq<Commit>, visible: set<Oid>, oids: seq<Oid>, n: nat, before: seq<Oid>, block: seq<Oid>, m: nat)
    requires n < |oids| && m <= |block|
    requires FirstMet(items, visible, oids[..n], FirstOccurrences(before))
    requires FirstMetFrom(items, visible, oids[n], block)
    ensures BlockTo(items, visible, oids, n, block, m, FirstOccurrences(before + block[..m]))
    decreases m
  {
    hide BlockTo, FirstMet, FirstMetFrom, FirstOccurrences;
    if m == 0 {
      assert before + block[..0] == before;
      BlockBegins(items, visible, oids, n, block, FirstOccurrences(before));
    } else {
      BlockInOrder(items, visible, oids, n, before, block, m - 1);
      assert before + block[..m] == before + block[..m - 1] + [block[m - 1]];
      OneMoreOccurrence(before + block[..m - 1], block[m - 1]);
      OneMoreInBlock(items, visible, oids, n, block, m, FirstOccurrences(before + block[..m - 1]));
    }
  }

  lemma OneMoreOccurrence(oids: seq<Oid>, oid: Oid)
    ensures var list := FirstOccurrences(oids);
      FirstOccurrences(oids + [oid]) == if oid in list then list else list + [oid]
  {
    assert (oids + [oid])[..|oids|] == oids;
  }

  lemma BlockBegins(
      items: seq<Commit>, visible: set<Oid>, oids: seq<Oid>, n: nat, block: seq<Oid>, list: seq<Oid>)
    requires n < |oids| && FirstMet(items, visible, oids[..n], list)
    ensures BlockTo(items, visible, oids, n, block, 0, list)
  {
    hide Met, Sooner;
    forall i, j | 0 <= i < j < |list| ensures Sooner(items, visible, oids[..n + 1], list[i], list[j]) {
      SoonerAmongMore(items, visible, oids, n, list[i], list[j]);
    }
  }

  lemma OneMoreInBlock(
      items: seq<Commit>, visible: set<Oid>, oids: seq<Oid>, n: nat, block: seq<Oid>, m: nat, list: seq<Oid>)
    requires n < |oids| && 0 < m <= |block| && FirstMetFrom(items, visible, oids[n], block)
    requires BlockTo(items, visible, oids, n, block, m - 1, list)
    ensures BlockTo(items, visible, oids, n, block, m,
                    if block[m - 1] in list then list else list + [block[m - 1]])
  {
    hide Met, MetFrom, Sooner, SoonerFrom, FirstMetFrom;
    assert block[..m] == block[..m - 1] + [block[m - 1]];
    if block[m - 1] !in list {
      forall i | 0 <= i < |list| ensures Sooner(items, visible, oids[..n + 1], list[i], block[m - 1]) {
        LaterInBlock(items, visible, oids, n, block, m, list[i]);
      }
    }
  }

  lemma LaterInBlock(
      items: seq<Commit>, visible: set<Oid>, oids: seq<Oid>, n: nat, block: seq<Oid>, m: nat, x: Oid)
    requires n < |oids| && 0 < m <= |block| && FirstMetFrom(items, visible, oids[n], block)
    requires !Met(items, visible, oids[..n], block[m - 1])
    requires Met(items, visible, oids[..n], x) || x in block[..m - 1]
    ensures Sooner(items, visible, oids[..n + 1], x, block[m - 1])
  {
    hide Leads, From, Met, MetFrom, Sooner, SoonerFrom;
    if Met(items, visible, oids[..n], x) {
      EarlierBlock(items, visible, oids, n, x, block[m - 1]);
    } else {
      var p :| 0 <= p < m - 1 && block[p] == x;
      SameBlock(items, visible, oids, n, x, block[m - 1]);
    }
  }

  // -------------------------------------------------------------- the whole walk

  lemma StopsAtOnce(items: seq<Commit>, visible: set<Oid>, oid: Oid)
    requires oid in visible || !Loaded(items, oid)
    ensures FirstMetFrom(items, visible, oid, [oid])
  {
    assert Leads(items, visible, oid, [], oid);
    assert forall x :: MetFrom(items, visible, oid, x) ==> x == oid;
  }

  lemma LeadsOn(items: seq<Commit>, visible: set<Oid>, k: nat, walk: seq<nat>, x: Oid)
    requires Topological(items) && k < |items| && items[k].id !in visible
    ensures Leads(items, visible, items[k].id, walk, x) <==> From(items, visible, items[k].parents, walk, x)
  {
    assert Loaded(items, items[k].id);
  }

  lemma ThroughHidden(items: seq<Commit>, visible: set<Oid>, k: nat, list: seq<Oid>)
    requires Topological(items) && k < |items| && items[k].id !in visible
    requires FirstMet(items, visible, items[k].parents, list)
    ensures FirstMetFrom(items, visible, items[k].id, list)
  {
    hide Leads, From, Topological;
    var oid, parents := items[k].id, items[k].parents;
    forall walk, x ensures Leads(items, visible, oid, walk, x) <==> From(items, visible, parents, walk, x) {
      LeadsOn(items, visible, k, walk, x);
    }
    forall i, j | 0 <= i < j < |list| ensures SoonerFrom(items, visible, oid, list[i], list[j]) {
      assert Sooner(items, visible, parents, list[i], list[j]);
    }
  }

  lemma {:induction false} NearestFirstMet(items: seq<Commit>, visible: set<Oid>, oid: Oid)
    requires Topological(items)
    ensures FirstMetFrom(items, visible, oid, Nearest(items, visible, oid))
    decreases Rank(items, oid), 1, 0
  {
    hide FirstMetFrom, FirstMet;
    var found := IndexOf(items, oid, |items|);
    if oid in visible || found.None? {
      StopsAtOnce(items, visible, oid);
    } else {
      var parents := items[found.value].parents;
      ParentsRank(items, found.value);
      AllFirstMet(items, visible, parents, |parents|, Rank(items, oid));
      assert parents[..|parents|] == parents;
      ThroughHidden(items, visible, found.value, Nearest(items, visible, oid));
    }
  }

  lemma {:induction false} AllFirstMet(
      items: seq<Commit>, visible: set<Oid>, oids: seq<Oid>, n: nat, bound: nat)
    requires Topological(items) && n <= |oids|
    requires forall p :: p in oids ==> Rank(items, p) < bound
    ensures FirstMet(items, visible, oids[..n], FirstOccurrences(NearestAll(items, visible, oids, n, bound)))
    decreases bound, 0, n
  {
    hide Leads, Met, MetFrom, Sooner, FirstMetFrom, Nearest;
    if n == 0 {
      NothingMet(items, visible);
      assert oids[..0] == [];
    } else {
      hide FirstMet, FirstOccurrences, Topological, Rank;
      AllFirstMet(items, visible, oids, n - 1, bound);
      NearestFirstMet(items, visible, oids[n - 1]);
      var before, block := NearestAll(items, visible, oids, n - 1, bound), Nearest(items, visible, oids[n - 1]);
      BlockInOrder(items, visible, oids, n - 1, before, block, |block|);
      assert block[..|block|] == block;
      BlockIsDone(items, visible, oids, n - 1, block, FirstOccurrences(before + block));
    }
  }

  lemma NothingMet(items: seq<Commit>, visible: set<Oid>)
    ensures forall x :: !Met(items, visible, [], x)
  {
  }

  lemma BlockIsDone(
      items: seq<Commit>, visible: set<Oid>, oids: seq<Oid>, n: nat, block: seq<Oid>, list: seq<Oid>)
    requires n < |oids| && FirstMetFrom(items, visible, oids[n], block)
    requires BlockTo(items, visible, oids, n, block, |block|, list)
    requires forall i, j :: 0 <= i < j < |list| ==> list[i] != list[j]
    ensures FirstMet(items, visible, oids[..n + 1], list)
  {
    hide Leads, From, Met, MetFrom, Sooner, SoonerFrom;
    assert block[..|block|] == block;
    forall x ensures x in list <==> Met(items, visible, oids[..n + 1], x) {
      MetByOneMore(items, visible, oids, n, x);
    }
  }

  // ------------------------------------------------------------------- what follows

  /** Row r is the projection of commit k. */
  ghost predicate Projects(items: seq<Commit>, visible: set<Oid>, r: Commit, k: nat)
    requires k < |items|
  {
    r.id == items[k].id && FirstMet(items, visible, items[k].parents, r.parents)
  }

  ghost predicate IsProjected(items: seq<Commit>, visible: set<Oid>, r: Commit) {
    exists k: nat :: k < |items| && Projects(items, visible, r, k)
  }

  /**
   * Unless the history is returned as it is, a projected commit's parents are the visible or
   * unloaded commits met on walks over hidden ones, each once, in the order in which the walk that
   * always takes earlier parents first meets them; and commits stay in order.
   */
  lemma ParentsAreFirstMet(items: seq<Commit>, visible: set<Oid>)
    requires Topological(items)
    ensures |visible| == |items| ==> Project(items, visible) == items
    ensures |visible| != |items| ==>
              var r := Project(items, visible);
              && (forall j :: 0 <= j < |r| ==> IsProjected(items, visible, r[j]))
              && (forall i, j, p, q ::
                    (0 <= i < j < |r| && 0 <= p < |items| && 0 <= q < |items|
                     && items[p].id == r[i].id && items[q].id == r[j].id) ==>
                    p < q)
  {
    hide FirstMet, Nearest, Topological, ProjectedParents;
    if |visible| != |items| {
      var r, shown := Project(items, visible), Shown(items, visible, |items|);
      forall j | 0 <= j < |r| ensures IsProjected(items, visible, r[j]) {
        ProjectedAreFirstMet(items, visible, shown[j]);
        assert Projects(items, visible, r[j], shown[j]);
      }
      forall i, j, p, q | 0 <= i < j < |r| && 0 <= p < |items| && 0 <= q < |items|
                          && items[p].id == r[i].id && items[q].id == r[j].id
        ensures p < q
      {
        OneIndex(items, shown[i], p);
        OneIndex(items, shown[j], q);
      }
    }
  }

  lemma ProjectedAreFirstMet(items: seq<Commit>, visible: set<Oid>, k: nat)
    requires Topological(items) && k < |items|
    ensures FirstMet(items, visible, items[k].parents, ProjectedParents(items, visible, k))
  {
    hide FirstMet, Nearest, NearestAll;
    var parents := items[k].parents;
    ParentsRank(items, k);
    AllFirstMet(items, visible, parents, |parents|, |items| - k);
    assert parents[..|parents|] == parents;
  }

  lemma OneIndex(items: seq<Commit>, p: nat, q: nat)
    requires Topological(items) && p < |items| && q < |items| && items[p].id == items[q].id
    ensures p == q
  {
  }

  /** A path over hidden commits from one commit to the next that is visible or not loaded. */
  ghost predicate Skips(items: seq<Commit>, visible: set<Oid>, path: seq<Oid>, a: Oid, b: Oid) {
    && |path| > 1 && IsPath(items, path) && path[0] == a && path[|path| - 1] == b
    && (forall i :: 0 < i < |path| - 1 ==> path[i] !in visible)
    && (b in visible || !Loaded(items, b))
  }

  lemma {:induction false} WalkIsPath(
      items: seq<Commit>, visible: set<Oid>, k: nat, walk: seq<nat>, b: Oid) returns (path: seq<Oid>)
    requires k < |items| && From(items, visible, items[k].parents, walk, b)
    ensures Skips(items, visible, path, items[k].id, b)
    decreases |walk|
  {
    var next := items[k].parents[walk[0]];
    assert ParentOf(items, items[k].id, next);
    if |walk| == 1 {
      path := [items[k].id, next];
    } else {
      var m: nat :| m < |items| && items[m].id == next && From(items, visible, items[m].parents, walk[1..], b);
      var rest := WalkIsPath(items, visible, m, walk[1..], b);
      path := [items[k].id] + rest;
    }
  }

  lemma {:induction false} PathIsWalk(
      items: seq<Commit>, visible: set<Oid>, k: nat, path: seq<Oid>, b: Oid) returns (walk: seq<nat>)
    requires Topological(items) && k < |items| && Skips(items, visible, path, items[k].id, b)
    ensures From(items, visible, items[k].parents, walk, b)
    decreases |path|
  {
    assert ParentOf(items, path[0], path[1]);
    var n: nat :| n < |items[k].parents| && items[k].parents[n] == path[1];
    if |path| == 2 {
      walk := [n];
      assert Leads(items, visible, path[1], walk[1..], b);
    } else {
      assert ParentOf(items, path[1], path[2]);
      var m: nat :| m < |items| && items[m].id == path[1] && path[2] in items[m].parents;
      SubPath(items, path, 1, |path|);
      assert path[1..|path|] == path[1..];
      var rest := PathIsWalk(items, visible, m, path[1..], b);
      walk := [n] + rest;
      assert walk[1..] == rest;
    }
  }

  ghost predicate SomeSkip(items: seq<Commit>, visible: set<Oid>, a: Oid, b: Oid) {
    exists path :: Skips(items, visible, path, a, b)
  }

  lemma MetBySkipping(items: seq<Commit>, visible: set<Oid>, k: nat, b: Oid)
    requires Topological(items) && k < |items|
    ensures Met(items, visible, items[k].parents, b) <==> SomeSkip(items, visible, items[k].id, b)
  {
    hide Topological, From, Skips;
    if Met(items, visible, items[k].parents, b) {
      var walk :| From(items, visible, items[k].parents, walk, b);
      var path := WalkIsPath(items, visible, k, walk, b);
    }
    if SomeSkip(items, visible, items[k].id, b) {
      var path :| Skips(items, visible, path, items[k].id, b);
      var walk := PathIsWalk(items, visible, k, path, b);
    }
  }

  /** b is a projected parent of the visible commit a exactly when a path over hidden commits
      leads from a to b, and b is visible or not loaded. */
  lemma ParentsAreNearest(items: seq<Commit>, visible: set<Oid>, a: Oid, b: Oid)
    requires Topological(items) && a in visible && |visible| != |items|
    ensures ParentOf(Project(items, visible), a, b) <==> SomeSkip(items, visible, a, b)
  {
    hide Met, Sooner, SomeSkip, Skips, Topological, ProjectedParents;
    var r, shown := Project(items, visible), Shown(items, visible, |items|);
    if ParentOf(r, a, b) {
      var j :| 0 <= j < |r| && r[j].id == a && b in r[j].parents;
      ProjectedAreFirstMet(items, visible, shown[j]);
      MetBySkipping(items, visible, shown[j], b);
    }
    if SomeSkip(items, visible, a, b) {
      var k := SkipsFrom(items, visible, a, b);
      assert k in shown;
      var j :| 0 <= j < |shown| && shown[j] == k;
      ProjectedAreFirstMet(items, visible, k);
      MetBySkipping(items, visible, k, b);
      assert r[j].id == a && b in r[j].parents;
    }
  }

  lemma SkipsFrom(items: seq<Commit>, visible: set<Oid>, a: Oid, b: Oid) returns (k: nat)
    requires SomeSkip(items, visible, a, b)
    ensures k < |items| && items[k].id == a
  {
    var path :| Skips(items, visible, path, a, b);
    assert ParentOf(items, path[0], path[1]);
    k :| k < |items| && items[k].id == a;
  }

  lemma {:induction false} VisibleAreNearest(
      items: seq<Commit>, visible: set<Oid>, oids: seq<Oid>, n: nat, bound: nat)
    requires Topological(items) && n <= |oids| && forall p :: p in oids ==> Rank(items, p) < bound && p in visible
    requires forall i, j :: 0 <= i < j < |oids| ==> oids[i] != oids[j]
    ensures NearestAll(items, visible, oids, n, bound) == oids[..n] == FirstOccurrences(oids[..n])
  {
    if n > 0 {
      hide Topological, Rank, FirstOccurrences;
      VisibleAreNearest(items, visible, oids, n - 1, bound);
      NearestAllGrows(items, visible, oids, n, bound);
      NewLast(oids, n);
    }
  }

  lemma NearestAllGrows(items: seq<Commit>, visible: set<Oid>, oids: seq<Oid>, n: nat, bound: nat)
    requires Topological(items) && 0 < n <= |oids| && oids[n - 1] in visible
    requires forall p :: p in oids ==> Rank(items, p) < bound
    ensures NearestAll(items, visible, oids, n, bound)
         == NearestAll(items, visible, oids, n - 1, bound) + [oids[n - 1]]
  {
    hide Topological, Rank;
  }

  lemma NewLast(oids: seq<Oid>, n: nat)
    requires 0 < n <= |oids| && oids[..n - 1] == FirstOccurrences(oids[..n - 1])
    requires forall i, j :: 0 <= i < j < |oids| ==> oids[i] != oids[j]
    ensures oids[..n] == oids[..n - 1] + [oids[n - 1]] == FirstOccurrences(oids[..n])
  {
    assert oids[..n][..n - 1] == oids[..n - 1];
  }

  /** A commit whose parents are distinct and visible keeps its list of parents. */
  lemma VisibleParentsStay(items: seq<Commit>, visible: set<Oid>, k: nat)
    requires Topological(items) && k < |items| && items[k].id in visible
    requires forall p :: p in items[k].parents ==> p in visible
    requires forall i, j :: 0 <= i < j < |items[k].parents| ==> items[k].parents[i] != items[k].parents[j]
    ensures items[k] in Project(items, visible)
  {
    hide ProjectedParents, Shown, Topological, ContractAt;
    if |visible| != |items| {
      var shown := Shown(items, visible, |items|);
      ParentsStay(items, visible, k);
      assert k in shown;
      var j :| 0 <= j < |shown| && shown[j] == k;
      assert ContractAt(items, visible, shown)[j] == items[k];
    }
  }

  lemma ParentsStay(items: seq<Commit>, visible: set<Oid>, k: nat)
    requires Topological(items) && k < |items|
    requires forall p :: p in items[k].parents ==> p in visible
    requires forall i, j :: 0 <= i < j < |items[k].parents| ==> items[k].parents[i] != items[k].parents[j]
    ensures ProjectedParents(items, visible, k) == items[k].parents
  {
    hide NearestAll, FirstOccurrences, Topological, Rank;
    var parents := items[k].parents;
    ParentsRank(items, k);
    VisibleAreNearest(items, visible, parents, |parents|, |items| - k);
    assert parents[..|parents|] == parents;
  }
}
