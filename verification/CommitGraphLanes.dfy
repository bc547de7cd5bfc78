/**
 * Exactly which lanes a row is drawn on, which it leaves below, and in which colours, said
 * of the lanes above it, the commit and its parents alone
 * (apps/desktop/frontend/src/lib/commit-graph.ts).
 */
module CommitGraphLanes {
  import opened Common
  import opened CommitGraph
  import opened CommitGraphProofs
  import opened CommitGraphClipping
  import opened CommitGraphColors

  // ------------------------------------------------------------ what a row does

  ghost predicate Colored(lanes: seq<Lane>, color: nat) {
    exists i :: 0 <= i < |lanes| && lanes[i].Active? && lanes[i].color == color
  }

  /** The least colour from start on that no lane has. */
  ghost predicate LeastColor(lanes: seq<Lane>, start: nat, color: nat) {
    start <= color && !Colored(lanes, color) && forall c :: start <= c < color ==> Colored(lanes, c)
  }

  /** The lanes once the commit has one: the one waiting for it, or lane 0 on the default chain, or a
      new last lane in the least free colour. */
  ghost predicate Enters(
      lanes: seq<Lane>, entry: seq<Lane>, oid: Oid, onChain: bool, reserve: bool, lane: nat, nodeColor: nat) {
    && Holds(entry, lane, oid) && entry[lane].color == nodeColor && (onChain ==> lane == 0)
    && if Holds(lanes, lane, oid) then entry == lanes
       else if onChain then lanes != [] && lanes[0].Empty? && entry == lanes[0 := Active(DEFAULT_COLOR, oid)]
       else
         && lane == |lanes| && entry == lanes + [Active(nodeColor, oid)]
         && !Carries(lanes, oid) && LeastColor(lanes, Start(reserve), nodeColor)
  }

  /** The lanes that pass the commit by. */
  ghost predicate Passing(entry: seq<Lane>, oid: Oid, passing: seq<Lane>) {
    |passing| == |entry|
    && forall i :: 0 <= i < |entry| ==> passing[i] == if Holds(entry, i, oid) then Empty else entry[i]
  }

  /** The k-th parent needs a lane: none that passes by carries it, nor is it an earlier parent. On the
      default chain the first parent takes lane 0 instead. */
  ghost predicate NeedsLane(passing: seq<Lane>, parents: seq<Oid>, onChain: bool, k: nat)
    requires k < |parents|
  {
    !(onChain && k == 0) && !Carries(passing, parents[k]) && parents[k] !in parents[..k]
  }

  ghost function NewParents(passing: seq<Lane>, parents: seq<Oid>, onChain: bool, n: nat): (r: seq<nat>)
    requires n <= |parents|
    ensures forall j :: 0 <= j < |r| ==> r[j] < n
    ensures forall i, j :: 0 <= i < j < |r| ==> r[i] < r[j]
    ensures forall k: nat :: k < n ==> (k in r <==> NeedsLane(passing, parents, onChain, k))
  {
    if n == 0 then []
    else if NeedsLane(passing, parents, onChain, n - 1) then NewParents(passing, parents, onChain, n - 1) + [n - 1]
    else NewParents(passing, parents, onChain, n - 1)
  }

  /** The lanes of the parents that need one: the first parent's in the node's colour, any other's in
      the least colour free by then. */
  ghost predicate NewLanes(
      passing: seq<Lane>, parents: seq<Oid>, nodeColor: nat, onChain: bool, reserve: bool, n: nat, added: seq<Lane>)
    requires n <= |parents|
  {
    var ks := NewParents(passing, parents, onChain, n);
    && |added| == |ks|
    && forall j :: 0 <= j < |added| ==> IsNewLane(passing, parents, nodeColor, reserve, added, j, ks[j])
  }

  ghost predicate IsNewLane(
      passing: seq<Lane>, parents: seq<Oid>, nodeColor: nat, reserve: bool, added: seq<Lane>, j: nat, k: nat)
    requires j < |added| && k < |parents|
  {
    && added[j].Active? && added[j].oid == parents[k]
    && if k == 0 then added[j].color == nodeColor
       else LeastColor(passing + added[..j], Start(reserve), added[j].color)
  }

  /** The lane the commit frees, lane 0 apart when it is reserved. */
  ghost predicate Hole(passing: seq<Lane>, reserve: bool, hole: Option<nat>) {
    && (hole.Some? ==> Start(reserve) <= hole.value < |passing| && passing[hole.value].Empty?)
    && (forall i :: Start(reserve) <= i < |passing| && hole != Some(i) ==> passing[i].Active?)
  }

  /** The first new lane takes the freed one; the others follow at the end. */
  ghost function Filled(passing: seq<Lane>, hole: Option<nat>, added: seq<Lane>): seq<Lane>
    requires hole.Some? ==> hole.value < |passing|
  {
    if hole.None? then passing + added
    else if added == [] then passing
    else passing[hole.value := added[0]] + added[1..]
  }

  /** The lanes in use, without the one that repeats this commit. */
  ghost function Lines(lanes: seq<Lane>, skip: Option<Oid>): seq<Lane> {
    if lanes == [] then []
    else
      var last := lanes[|lanes| - 1];
      Lines(lanes[..|lanes| - 1], skip) + if last.Active? && Some(last.oid) != skip then [last] else []
  }

  function OidOf(lane: Lane): Option<Oid> {
    if lane.Active? then Some(lane.oid) else None
  }

  /** The reserved lane first; then the lanes that pass by, the new ones among them. */
  ghost predicate LeavesBelow(filled: seq<Lane>, main: Lane, reserve: bool, after: seq<Lane>)
    requires reserve ==> filled != []
  {
    if reserve then after == [main] + Lines(filled[1..], OidOf(main)) else after == Lines(filled, None)
  }

  /** What one row makes of the lanes above it. */
  ghost predicate RowLays(
      commit: Commit, row: Row, lanes: seq<Lane>, after: seq<Lane>, onChain: bool, reserve: bool, entry: seq<Lane>,
      passing: seq<Lane>, hole: Option<nat>, added: seq<Lane>) {
    && Enters(lanes, entry, commit.id, onChain, reserve, row.lane, row.nodeColor)
    && Passing(entry, commit.id, passing) && Hole(passing, reserve, hole) && (reserve ==> passing != [])
    && NewLanes(passing, commit.parents, row.nodeColor, onChain, reserve, |commit.parents|, added)
    && LeavesBelow(Filled(passing, hole, added),
                   if onChain then MainLane(FirstParent(commit)) else if reserve then passing[0] else Empty,
                   reserve, after)
  }

  // ---------------------------------------------------------------- compaction

  lemma {:induction false} CompactLines(lanes: seq<Lane>, reserve: bool, n: nat)
    requires Start(reserve) <= n <= |lanes| && DistinctOids(lanes, Start(reserve))
    ensures Select(lanes, Kept(lanes, reserve, n))
         == (if reserve then [lanes[0]] else [])
            + Lines(lanes[Start(reserve)..n], if reserve then OidOf(lanes[0]) else None)
    decreases n
  {
    var start, skip := Start(reserve), if reserve then OidOf(lanes[0]) else None;
    hide Kept, Select, Lines, DistinctOids;
    if n == start {
      NothingToCompact(lanes, reserve, skip);
    } else {
      CompactLines(lanes, reserve, n - 1);
      KeptGrows(lanes, reserve, n);
      LinesGrow(lanes, start, n, skip);
      Regrouped(if reserve then [lanes[0]] else [], Lines(lanes[start..n - 1], skip),
                if lanes[n - 1].Active? && Some(lanes[n - 1].oid) != skip then [lanes[n - 1]] else []);
    }
  }

  lemma Regrouped(a: seq<Lane>, b: seq<Lane>, c: seq<Lane>)
    ensures (a + b) + c == a + (b + c)
  {
  }

  lemma NothingToCompact(lanes: seq<Lane>, reserve: bool, skip: Option<Oid>)
    requires Start(reserve) <= |lanes|
    ensures Select(lanes, Kept(lanes, reserve, Start(reserve))) == if reserve then [lanes[0]] else []
    ensures Lines(lanes[Start(reserve)..Start(reserve)], skip) == []
  {
  }

  lemma KeptGrows(lanes: seq<Lane>, reserve: bool, n: nat)
    requires Start(reserve) < n <= |lanes| && DistinctOids(lanes, Start(reserve))
    ensures var last, skip := lanes[n - 1], if reserve then OidOf(lanes[0]) else None;
      Select(lanes, Kept(lanes, reserve, n))
      == Select(lanes, Kept(lanes, reserve, n - 1)) + if last.Active? && Some(last.oid) != skip then [last] else []
  {
    hide DistinctOids;
    if lanes[n - 1].Active? {
      var kept := Kept(lanes, reserve, n - 1);
      RepeatsMain(lanes, reserve, n - 1);
      assert Select(lanes, kept + [n - 1]) == Select(lanes, kept) + [lanes[n - 1]];
    }
  }

  lemma LinesGrow(lanes: seq<Lane>, start: nat, n: nat, skip: Option<Oid>)
    requires start < n <= |lanes|
    ensures var last := lanes[n - 1];
      Lines(lanes[start..n], skip)
      == Lines(lanes[start..n - 1], skip) + if last.Active? && Some(last.oid) != skip then [last] else []
  {
    assert lanes[start..n][..n - 1 - start] == lanes[start..n - 1];
  }

  /** A lane is dropped only for repeating the reserved lane's commit. */
  lemma RepeatsMain(lanes: seq<Lane>, reserve: bool, n: nat)
    requires Start(reserve) <= n < |lanes| && lanes[n].Active? && DistinctOids(lanes, Start(reserve))
    ensures lanes[n].oid in OidsAt(lanes, Kept(lanes, reserve, n))
            <==> reserve && OidOf(lanes[0]) == Some(lanes[n].oid)
  {
    hide Kept;
    if reserve && OidOf(lanes[0]) == Some(lanes[n].oid) {
      KeptCarries(lanes, reserve, n, 0);
    }
  }

  // ----------------------------------------------------------- placing the parents

  /** The lanes once n parents have been placed. */
  ghost predicate PlacedSo(
      passing: seq<Lane>, parents: seq<Oid>, onChain: bool, hole: Option<nat>, n: nat, added: seq<Lane>,
      placed: seq<Lane>)
    requires n <= |parents| && passing != [] && (hole.Some? ==> hole.value < |passing|)
  {
    placed == if onChain && n > 0 then Filled(passing, hole, added)[0 := Active(DEFAULT_COLOR, parents[0])]
              else Filled(passing, hole, added)
  }

  lemma FilledColors(passing: seq<Lane>, hole: Option<nat>, added: seq<Lane>, color: nat)
    requires hole.Some? ==> hole.value < |passing| && passing[hole.value].Empty?
    ensures Colored(Filled(passing, hole, added), color) <==> Colored(passing + added, color)
  {
    var all, filled := passing + added, Filled(passing, hole, added);
    if Colored(all, color) {
      var i :| 0 <= i < |all| && all[i].Active? && all[i].color == color;
      var j := if hole.Some? && i == |passing| then hole.value else if hole.Some? && i > |passing| then i - 1 else i;
      assert filled[j] == all[i];
    }
    if Colored(filled, color) {
      var j :| 0 <= j < |filled| && filled[j].Active? && filled[j].color == color;
      var i := if hole == Some(j) && added != [] then |passing|
               else if hole.Some? && j >= |passing| then j + 1 else j;
      assert all[i] == filled[j];
    }
  }

  lemma FreeIsLeast(lanes: seq<Lane>, reserve: bool)
    ensures LeastColor(lanes, Start(reserve), FreeColor(lanes, reserve))
  {
    forall c ensures c in UsedColors(lanes) <==> Colored(lanes, c) {
    }
  }

  lemma MoreIsNew(passing: seq<Lane>, parents: seq<Oid>, nodeColor: nat, onChain: bool, reserve: bool, n: nat,
        added: seq<Lane>, lane: Lane)
    requires n < |parents| && NewLanes(passing, parents, nodeColor, onChain, reserve, n, added)
    requires NeedsLane(passing, parents, onChain, n) && lane.Active? && lane.oid == parents[n]
    requires if n == 0 then lane.color == nodeColor else LeastColor(passing + added, Start(reserve), lane.color)
    ensures NewLanes(passing, parents, nodeColor, onChain, reserve, n + 1, added + [lane])
  {
    hide LeastColor, NeedsLane, IsNewLane, NewParents;
    var ks := NewParents(passing, parents, onChain, n);
    OneMoreParent(passing, parents, onChain, n);
    MoreAreNew(passing, parents, nodeColor, reserve, added, lane, n, ks);
  }

  lemma OneMoreParent(passing: seq<Lane>, parents: seq<Oid>, onChain: bool, n: nat)
    requires n < |parents| && NeedsLane(passing, parents, onChain, n)
    ensures NewParents(passing, parents, onChain, n + 1) == NewParents(passing, parents, onChain, n) + [n]
  {
  }

  lemma MoreAreNew(passing: seq<Lane>, parents: seq<Oid>, nodeColor: nat, reserve: bool, added: seq<Lane>, lane: Lane,
        n: nat, ks: seq<nat>)
    requires n < |parents| && |ks| == |added| && forall j :: 0 <= j < |ks| ==> ks[j] < n
    requires forall j :: 0 <= j < |added| ==> IsNewLane(passing, parents, nodeColor, reserve, added, j, ks[j])
    requires lane.Active? && lane.oid == parents[n]
    requires if n == 0 then lane.color == nodeColor else LeastColor(passing + added, Start(reserve), lane.color)
    ensures forall j :: 0 <= j <= |added| ==>
              IsNewLane(passing, parents, nodeColor, reserve, added + [lane], j, (ks + [n])[j])
  {
    hide LeastColor, IsNewLane;
    forall j | 0 <= j < |added|
      ensures IsNewLane(passing, parents, nodeColor, reserve, added + [lane], j, ks[j])
    {
      StillNew(passing, parents, nodeColor, reserve, added, lane, j, ks[j]);
    }
    LastIsNew(passing, parents, nodeColor, reserve, added, lane, n);
  }

  lemma StillNew(passing: seq<Lane>, parents: seq<Oid>, nodeColor: nat, reserve: bool, added: seq<Lane>, lane: Lane,
        j: nat, k: nat)
    requires j < |added| && k < |parents| && IsNewLane(passing, parents, nodeColor, reserve, added, j, k)
    ensures IsNewLane(passing, parents, nodeColor, reserve, added + [lane], j, k)
  {
    hide LeastColor;
    assert (added + [lane])[..j] == added[..j];
  }

  lemma LastIsNew(passing: seq<Lane>, parents: seq<Oid>, nodeColor: nat, reserve: bool, added: seq<Lane>, lane: Lane,
        n: nat)
    requires n < |parents| && lane.Active? && lane.oid == parents[n]
    requires if n == 0 then lane.color == nodeColor else LeastColor(passing + added, Start(reserve), lane.color)
    ensures IsNewLane(passing, parents, nodeColor, reserve, added + [lane], |added|, n)
  {
    hide LeastColor;
    assert (added + [lane])[..|added|] == added;
  }

  /** What is known while the parents are placed. */
  ghost predicate Placing(
      passing: seq<Lane>, lane: nat, nodeColor: nat, parents: seq<Oid>, onChain: bool, reserve: bool, hole: Option<nat>,
      n: nat, added: seq<Lane>, placed: seq<Lane>)
    requires n <= |parents|
  {
    && Ready(passing, lane, nodeColor, onChain, reserve) && Hole(passing, reserve, hole)
    && (!onChain ==> hole == Some(lane))
    && NewLanes(passing, parents, nodeColor, onChain, reserve, n, added)
    && PlacedSo(passing, parents, onChain, hole, n, added, placed)
    && |passing| <= |placed| && Placed(placed, passing, parents, n, onChain, reserve)
  }

  /** On the default chain the first parent takes lane 0. */
  lemma PlacesMain(
      passing: seq<Lane>, lane: nat, nodeColor: nat, parents: seq<Oid>, reserve: bool, hole: Option<nat>,
      added: seq<Lane>, placed: seq<Lane>)
    requires parents != [] && Placing(passing, lane, nodeColor, parents, true, reserve, hole, 0, added, placed)
    ensures NewLanes(passing, parents, nodeColor, true, reserve, 1, added)
    ensures PlacedSo(passing, parents, true, hole, 1, added,
                     PlaceParent(placed, lane, nodeColor, parents[0], 0, true, reserve))
  {
    hide Placed, DistinctOids, DistinctColors, MainColor, UsedColors, FindOid, FirstFree, LeastColor;
    assert NewParents(passing, parents, true, 0) == [] && added == [];
    assert Filled(passing, hole, []) == passing;
  }

  /** A parent that has a lane keeps it. */
  lemma PlacesFound(
      passing: seq<Lane>, lane: nat, nodeColor: nat, parents: seq<Oid>, k: nat, onChain: bool, reserve: bool,
      hole: Option<nat>, added: seq<Lane>, placed: seq<Lane>)
    requires k < |parents| && Placing(passing, lane, nodeColor, parents, onChain, reserve, hole, k, added, placed)
    requires !(onChain && k == 0) && Carries(placed, parents[k])
    ensures NewLanes(passing, parents, nodeColor, onChain, reserve, k + 1, added)
    ensures PlacedSo(passing, parents, onChain, hole, k + 1, added,
                     PlaceParent(placed, lane, nodeColor, parents[k], k, onChain, reserve))
  {
    hide Hole, DistinctOids, DistinctColors, MainColor, UsedColors, FirstFree, LeastColor, Filled, IsNewLane;
    var i: nat :| Holds(placed, i, parents[k]);
    assert !NeedsLane(passing, parents, onChain, k);
    assert PlaceParent(placed, lane, nodeColor, parents[k], k, onChain, reserve) == placed;
  }

  /** A new parent fills the hole, or goes last. */
  lemma PlacesNew(
      passing: seq<Lane>, lane: nat, nodeColor: nat, parents: seq<Oid>, k: nat, onChain: bool, reserve: bool,
      hole: Option<nat>, added: seq<Lane>, placed: seq<Lane>) returns (new': Lane)
    requires k < |parents| && Placing(passing, lane, nodeColor, parents, onChain, reserve, hole, k, added, placed)
    requires !(onChain && k == 0) && !Carries(placed, parents[k])
    ensures NewLanes(passing, parents, nodeColor, onChain, reserve, k + 1, added + [new'])
    ensures PlacedSo(passing, parents, onChain, hole, k + 1, added + [new'],
                     PlaceParent(placed, lane, nodeColor, parents[k], k, onChain, reserve))
  {
    hide NewParents, IsNewLane, FindOid, FirstFree, LeastUnused, DistinctOids, DistinctColors, MainColor, UsedColors,
         LeastColor;
    var target := Target(placed, lane, parents[k], k, onChain, reserve);
    var color := TargetColor(placed, target, nodeColor, k, reserve);
    new' := Active(color, parents[k]);
    NewTarget(passing, lane, nodeColor, parents, k, onChain, reserve, hole, added, placed);
    NewColor(passing, lane, nodeColor, parents, k, onChain, reserve, hole, added, placed);
    assert NeedsLane(passing, parents, onChain, k);
    MoreIsNew(passing, parents, nodeColor, onChain, reserve, k, added, new');
  }

  lemma NewTarget(
      passing: seq<Lane>, lane: nat, nodeColor: nat, parents: seq<Oid>, k: nat, onChain: bool, reserve: bool,
      hole: Option<nat>, added: seq<Lane>, placed: seq<Lane>)
    requires k < |parents| && Placing(passing, lane, nodeColor, parents, onChain, reserve, hole, k, added, placed)
    requires !(onChain && k == 0) && !Carries(placed, parents[k])
    ensures Target(placed, lane, parents[k], k, onChain, reserve)
         == if hole.Some? && added == [] then hole.value else |placed|
    ensures k == 0 ==> added == []
  {
    hide IsNewLane, DistinctOids, DistinctColors, MainColor, UsedColors, LeastColor, Placed, Carries;
    assert FindOid(placed, parents[k], 0) == None by {
      if FindOid(placed, parents[k], 0).Some? {
        HoldsCarries(placed, FindOid(placed, parents[k], 0).value, parents[k]);
      }
    }
    AllButHole(passing, parents, nodeColor, onChain, reserve, hole, k, added, placed);
  }

  lemma AllButHole(
      passing: seq<Lane>, parents: seq<Oid>, nodeColor: nat, onChain: bool, reserve: bool, hole: Option<nat>, n: nat,
      added: seq<Lane>, placed: seq<Lane>)
    requires n <= |parents| && passing != [] && Hole(passing, reserve, hole)
    requires NewLanes(passing, parents, nodeColor, onChain, reserve, n, added)
    requires PlacedSo(passing, parents, onChain, hole, n, added, placed)
    ensures forall i :: Start(reserve) <= i < |placed| && (added != [] || hole != Some(i)) ==> placed[i].Active?
    ensures hole.Some? && added == [] ==>
              hole.value < |placed| && (onChain ==> reserve) ==> placed[hole.value].Empty?
  {
    hide LeastColor, NewParents;
    var ks := NewParents(passing, parents, onChain, n);
    forall j | 0 <= j < |added| ensures added[j].Active? {
      assert IsNewLane(passing, parents, nodeColor, reserve, added, j, ks[j]);
    }
  }

  lemma NewColor(
      passing: seq<Lane>, lane: nat, nodeColor: nat, parents: seq<Oid>, k: nat, onChain: bool, reserve: bool,
      hole: Option<nat>, added: seq<Lane>, placed: seq<Lane>)
    requires k < |parents| && Placing(passing, lane, nodeColor, parents, onChain, reserve, hole, k, added, placed)
    requires !(onChain && k == 0) && !Carries(placed, parents[k])
    ensures var target := Target(placed, lane, parents[k], k, onChain, reserve);
      var color := TargetColor(placed, target, nodeColor, k, reserve);
      if k == 0 then color == nodeColor else LeastColor(passing + added, Start(reserve), color)
  {
    hide IsNewLane, DistinctOids, DistinctColors, MainColor, UsedColors, LeastColor, NewParents, Carries, Target,
         Filled, FreeColor;
    NewTarget(passing, lane, nodeColor, parents, k, onChain, reserve, hole, added, placed);
    AllButHole(passing, parents, nodeColor, onChain, reserve, hole, k, added, placed);
    if k > 0 {
      FreeIsLeast(placed, reserve);
      SameColors(passing, parents, onChain, hole, k, added, placed);
      SameLeast(placed, passing + added, Start(reserve), FreeColor(placed, reserve), onChain);
    }
  }

  /** Lane 0's default colour apart, the lanes have the colours of those that pass by and the new ones. */
  lemma SameColors(
      passing: seq<Lane>, parents: seq<Oid>, onChain: bool, hole: Option<nat>, n: nat, added: seq<Lane>,
      placed: seq<Lane>)
    requires 0 < n <= |parents| && passing != [] && (onChain ==> passing[0].Empty? && hole != Some(0))
    requires hole.Some? ==> hole.value < |passing| && passing[hole.value].Empty?
    requires PlacedSo(passing, parents, onChain, hole, n, added, placed)
    ensures forall c :: !(onChain && c == DEFAULT_COLOR) ==> (Colored(placed, c) <==> Colored(passing + added, c))
  {
    hide Filled;
    var filled := Filled(passing, hole, added);
    forall c | !(onChain && c == DEFAULT_COLOR) ensures Colored(placed, c) <==> Colored(passing + added, c) {
      FilledColors(passing, hole, added, c);
      if onChain {
        assert |placed| == |filled| && filled[0].Empty? by { FilledFirst(passing, hole, added); }
        if Colored(filled, c) {
          var i :| 0 <= i < |filled| && filled[i].Active? && filled[i].color == c;
          assert placed[i] == filled[i];
        }
        if Colored(placed, c) {
          var i :| 0 <= i < |placed| && placed[i].Active? && placed[i].color == c;
          assert placed[i] == filled[i];
        }
      }
    }
  }

  lemma FilledFirst(passing: seq<Lane>, hole: Option<nat>, added: seq<Lane>)
    requires passing != [] && hole != Some(0) && (hole.Some? ==> hole.value < |passing|)
    ensures Filled(passing, hole, added) != [] && Filled(passing, hole, added)[0] == passing[0]
  {
  }

  lemma SameLeast(a: seq<Lane>, b: seq<Lane>, start: nat, color: nat, onChain: bool)
    requires LeastColor(a, start, color) && (onChain ==> start > DEFAULT_COLOR)
    requires forall c :: !(onChain && c == DEFAULT_COLOR) ==> (Colored(a, c) <==> Colored(b, c))
    ensures LeastColor(b, start, color)
  {
    hide Colored;
  }

  lemma PlacesNext(
      passing: seq<Lane>, lane: nat, nodeColor: nat, parents: seq<Oid>, k: nat, onChain: bool, reserve: bool,
      hole: Option<nat>, added: seq<Lane>, placed: seq<Lane>) returns (more: seq<Lane>)
    requires k < |parents| && Placing(passing, lane, nodeColor, parents, onChain, reserve, hole, k, added, placed)
    requires lane < |placed|
    ensures NewLanes(passing, parents, nodeColor, onChain, reserve, k + 1, more)
    ensures PlacedSo(passing, parents, onChain, hole, k + 1, more,
                     PlaceParent(placed, lane, nodeColor, parents[k], k, onChain, reserve))
  {
    hide Ready, Hole, NewLanes, PlacedSo, Placed, PlaceParent, Carries;
    if onChain && k == 0 {
      PlacesMain(passing, lane, nodeColor, parents, reserve, hole, added, placed);
      more := added;
    } else if Carries(placed, parents[k]) {
      PlacesFound(passing, lane, nodeColor, parents, k, onChain, reserve, hole, added, placed);
      more := added;
    } else {
      var last := PlacesNew(passing, lane, nodeColor, parents, k, onChain, reserve, hole, added, placed);
      more := added + [last];
    }
  }

  lemma {:induction false} ParentsArePlaced(
      passing: seq<Lane>, lane: nat, nodeColor: nat, parents: seq<Oid>, n: nat, onChain: bool, reserve: bool,
      hole: Option<nat>) returns (added: seq<Lane>)
    requires n <= |parents| && Ready(passing, lane, nodeColor, onChain, reserve) && Hole(passing, reserve, hole)
    requires !onChain ==> hole == Some(lane)
    ensures Placing(passing, lane, nodeColor, parents, onChain, reserve, hole, n, added,
                    PlaceParents(passing, lane, nodeColor, parents, n, onChain, reserve))
    decreases n
  {
    hide DistinctOids, DistinctColors, MainColor, UsedColors, NewLanes, PlacedSo, Placed, PlaceParent;
    PlaceParentsPlaces(passing, lane, nodeColor, parents, n, onChain, reserve);
    if n == 0 {
      added := [];
      NothingAdded(passing, parents, nodeColor, onChain, reserve, hole);
    } else {
      added := ParentsArePlaced(passing, lane, nodeColor, parents, n - 1, onChain, reserve, hole);
      var placed := PlaceParents(passing, lane, nodeColor, parents, n - 1, onChain, reserve);
      added := PlacesNext(passing, lane, nodeColor, parents, n - 1, onChain, reserve, hole, added, placed);
    }
  }

  lemma NothingAdded(
      passing: seq<Lane>, parents: seq<Oid>, nodeColor: nat, onChain: bool, reserve: bool, hole: Option<nat>)
    requires passing != [] && (hole.Some? ==> hole.value < |passing|)
    ensures NewLanes(passing, parents, nodeColor, onChain, reserve, 0, [])
    ensures PlacedSo(passing, parents, onChain, hole, 0, [], passing)
  {
  }

  // -------------------------------------------------------------------- one row

  lemma OpenEnters(lanes: seq<Lane>, oid: Oid, onChain: bool, reserve: bool)
    requires Boundary(lanes, reserve) && Expecting(lanes, oid, onChain, reserve)
    ensures var entry := Open(lanes, oid, onChain, reserve);
      var lane := NodeLane(entry, oid, onChain);
      Enters(lanes, entry, oid, onChain, reserve, lane, NodeColor(entry, lane, onChain))
  {
    hide LeastColor, UsedColors, LeastUnused;
    OpenKeeps(lanes, oid, onChain, reserve);
    var entry := Open(lanes, oid, onChain, reserve);
    var held := LanesOf(lanes, oid, |lanes|);
    var lane := NodeLane(entry, oid, onChain);
    if onChain && 0 !in held {
    } else if held == [] {
      FreeIsLeast(lanes, reserve);
      assert FirstFree(lanes, Start(reserve)) == |lanes|;
      assert forall i: nat :: Holds(lanes, i, oid) ==> i in held;
    } else {
      assert held[0] in held;
    }
  }

  /** The lane that is freed: the commit's own, or on the default chain a second one that waited for it. */
  lemma SomeHole(lanes: seq<Lane>, oid: Oid, onChain: bool, reserve: bool) returns (hole: Option<nat>)
    requires Boundary(lanes, reserve) && Expecting(lanes, oid, onChain, reserve)
    ensures var entry := Open(lanes, oid, onChain, reserve);
      && Hole(Clear(entry, oid), reserve, hole)
      && (!onChain ==> hole == Some(NodeLane(entry, oid, onChain)))
  {
    OpenEnters(lanes, oid, onChain, reserve);
    hide Open, NodeLane, NodeColor, DistinctColors, MainColor, LeastColor;
    var entry := Open(lanes, oid, onChain, reserve);
    var passing, start := Clear(entry, oid), Start(reserve);
    if !onChain {
      var lane := NodeLane(entry, oid, onChain);
      hole := Some(lane);
      forall i: nat | i != lane ensures !Holds(entry, i, oid) {
        if Holds(entry, i, oid) && lane == |lanes| {
          HoldsCarries(lanes, i, oid);
        }
      }
    } else if i: nat :| 0 < i && Holds(lanes, i, oid) {
      hole := Some(i);
      assert Holds(entry, i, oid);
    } else {
      hole := None;
    }
    forall i | start <= i < |passing| && hole != Some(i) ensures passing[i].Active? {
      var k: nat := i;
      assert k < |lanes| ==> (entry[k] == lanes[k] && lanes[k].Active?);
      assert onChain ==> (Holds(entry, k, oid) ==> Holds(lanes, k, oid));
      assert !Holds(entry, k, oid);
    }
  }

  lemma CompactLeaves(
      passing: seq<Lane>, lane: nat, nodeColor: nat, parents: seq<Oid>, onChain: bool, reserve: bool, hole: Option<nat>,
      added: seq<Lane>, placed: seq<Lane>, main: Lane)
    requires Placing(passing, lane, nodeColor, parents, onChain, reserve, hole, |parents|, added, placed)
    requires main == if onChain then MainLane(if parents == [] then None else Some(parents[0]))
                     else if reserve then passing[0] else Empty
    ensures LeavesBelow(Filled(passing, hole, added), main, reserve, Compact(placed, reserve))
  {
    hide NewLanes, Lines, Kept, Select, DistinctColors, MainColor, Carries;
    var filled := Filled(passing, hole, added);
    CompactLines(placed, reserve, |placed|);
    assert placed[Start(reserve)..|placed|] == filled[Start(reserve)..];
    if !reserve {
      assert filled[0..] == filled;
    }
  }

  /** A row does to the lanes above it exactly this. */
  lemma RowLaysSo(lanes: seq<Lane>, commit: Commit, onChain: bool, reserve: bool)
      returns (entry: seq<Lane>, passing: seq<Lane>, hole: Option<nat>, added: seq<Lane>)
    requires Boundary(lanes, reserve) && Expecting(lanes, commit.id, onChain, reserve)
    ensures entry == Open(lanes, commit.id, onChain, reserve) && passing == Clear(entry, commit.id)
    ensures RowLays(commit, RowOf(lanes, commit, onChain, reserve), lanes, After(lanes, commit, onChain, reserve),
                    onChain, reserve, entry, passing, hole, added)
  {
    hide DistinctOids, DistinctColors, MainColor, Carries, Open, NodeLane, NodeColor, Enters, Ready, Hole, NewLanes,
         PlacedSo, Placed, LeavesBelow, Filled, Compact, PlaceParents;
    entry := Open(lanes, commit.id, onChain, reserve);
    passing := Clear(entry, commit.id);
    var lane := NodeLane(entry, commit.id, onChain);
    var nodeColor := NodeColor(entry, lane, onChain);
    ClearIsReady(lanes, commit.id, onChain, reserve);
    OpenEnters(lanes, commit.id, onChain, reserve);
    hole := SomeHole(lanes, commit.id, onChain, reserve);
    var n := |commit.parents|;
    added := ParentsArePlaced(passing, lane, nodeColor, commit.parents, n, onChain, reserve, hole);
    var placed := PlaceParents(passing, lane, nodeColor, commit.parents, n, onChain, reserve);
    var main := if onChain then MainLane(FirstParent(commit)) else if reserve then passing[0] else Empty;
    CompactLeaves(passing, lane, nodeColor, commit.parents, onChain, reserve, hole, added, placed, main);
  }

  /** The row is drawn between the lanes above it and those below, which are what it makes of them. */
  ghost predicate LaidOut(
      commit: Commit, row: Row, lanes: seq<Lane>, after: seq<Lane>, onChain: bool, reserve: bool) {
    exists entry, passing, hole, added ::
      && RowLays(commit, row, lanes, after, onChain, reserve, entry, passing, hole, added)
      && RowDraws(row, entry, after, commit) && RowColors(row, entry, after, reserve)
  }

  lemma RowIsLaidOut(lanes: seq<Lane>, commit: Commit, onChain: bool, reserve: bool)
    requires Boundary(lanes, reserve) && Expecting(lanes, commit.id, onChain, reserve)
    ensures LaidOut(commit, RowOf(lanes, commit, onChain, reserve), lanes, After(lanes, commit, onChain, reserve),
                    onChain, reserve)
  {
    hide RowOf, After, Open, Boundary, Expecting, RowLays, RowDraws, RowColors;
    var entry, passing, hole, added := RowLaysSo(lanes, commit, onChain, reserve);
    RowDrawsEdges(lanes, commit, onChain, reserve);
    RowHasColors(lanes, commit, onChain, reserve);
  }

  // ------------------------------------------------------------ the whole layout

  /**
   * Every row of every history: which lane the commit takes and in which colour, which lanes it
   * frees and gives to its parents, in which order and colours, and every line between, said of the
   * lanes above the row, the commit and whether it is on the default chain. At the top there is the
   * reserved lane or none.
   */
  lemma RowsAreLaidOut(items: seq<Commit>, head: Option<nat>, reserve: bool, i: nat)
    requires Topological(items) && i < |items|
    requires head.Some? ==> reserve && head.value < |items|
    ensures var chain := Chain(items, head);
      && LaidOut(items[i], RowAt(items, chain, reserve, i), LanesAt(items, chain, reserve, i),
                 LanesAt(items, chain, reserve, i + 1), i in chain, reserve)
      && LanesAt(items, chain, reserve, 0) == if reserve then [Empty] else []
  {
    hide LaidOut, RowDrawn, Boundary, Topological, IsChain, Chain, After, RowOf;
    var chain := Chain(items, head);
    ChainIsChain(items, head);
    RowIsDrawn(items, chain, reserve, i);
    RowIsLaidOut(LanesAt(items, chain, reserve, i), items[i], i in chain, reserve);
  }

  lemma {:induction false} LinesAre(lanes: seq<Lane>, skip: Option<Oid>, lane: Lane)
    requires lane in Lines(lanes, skip)
    ensures lane in lanes && lane.Active? && Some(lane.oid) != skip
  {
    if lane in Lines(lanes[..|lanes| - 1], skip) {
      LinesAre(lanes[..|lanes| - 1], skip, lane);
    }
  }

  /** Where the lanes below a row come from. */
  lemma BelowComesFrom(
      commit: Commit, row: Row, lanes: seq<Lane>, after: seq<Lane>, onChain: bool, reserve: bool, entry: seq<Lane>,
      passing: seq<Lane>, hole: Option<nat>, added: seq<Lane>, lane: Lane)
    requires RowLays(commit, row, lanes, after, onChain, reserve, entry, passing, hole, added)
    requires lane in after && lane.Active?
    ensures || (onChain && reserve && lane == MainLane(FirstParent(commit)))
            || (lane in added && !(onChain && reserve && Some(lane.oid) == FirstParent(commit)))
            || (lane in passing && !(onChain && reserve && Some(lane.oid) == FirstParent(commit)))
  {
    hide Lines, NewLanes, Enters, Passing;
    var filled := Filled(passing, hole, added);
    var main := if onChain then MainLane(FirstParent(commit)) else if reserve then passing[0] else Empty;
    if !(reserve && lane == main) {
      if reserve {
        LinesAre(filled[1..], OidOf(main), lane);
      } else {
        LinesAre(filled, None, lane);
      }
      assert lane in filled;
    }
  }

  /** A line below the row to the first parent has the node's colour, or that of the lane passing by. */
  ghost predicate FirstParentColor(
      commit: Commit, row: Row, lanes: seq<Lane>, after: seq<Lane>, onChain: bool, e: Edge)
    requires commit.parents != []
  {
    var first := commit.parents[0];
    e in row.outgoing && Holds(after, e.to, first) ==>
      if onChain || first == commit.id || !Carries(lanes, first) then e.color == row.nodeColor
      else exists j: nat :: Holds(lanes, j, first) && e.color == lanes[j].color
  }

  lemma FirstLineColor(lanes: seq<Lane>, commit: Commit, onChain: bool, reserve: bool, e: Edge)
    requires Boundary(lanes, reserve) && Expecting(lanes, commit.id, onChain, reserve) && commit.parents != []
    ensures FirstParentColor(commit, RowOf(lanes, commit, onChain, reserve), lanes,
                             After(lanes, commit, onChain, reserve), onChain, e)
  {
    hide RowOf, After, Open, NewLanes, LeavesBelow, Hole, DistinctOids, DistinctColors;
    var row, after := RowOf(lanes, commit, onChain, reserve), After(lanes, commit, onChain, reserve);
    var first := commit.parents[0];
    if e in row.outgoing && Holds(after, e.to, first) {
      var entry, passing, hole, added := RowLaysSo(lanes, commit, onChain, reserve);
      OpenKeeps(lanes, commit.id, onChain, reserve);
      RowHasColors(lanes, commit, onChain, reserve);
      assert HasColor(after, e.to, e.color);
      BelowComesFrom(commit, row, lanes, after, onChain, reserve, entry, passing, hole, added, after[e.to]);
      if !(onChain && after[e.to] == MainLane(FirstParent(commit))) {
        if after[e.to] in added {
          AddedIsNew(passing, commit.parents, row.nodeColor, onChain, reserve, added, after[e.to]);
          assert first != commit.id ==> !Carries(lanes, first) by {
            if first != commit.id && Carries(lanes, first) {
              var j: nat :| Holds(lanes, j, first);
              HoldsCarries(passing, j, first);
            }
          }
        } else {
          var j: nat :| j < |passing| && passing[j] == after[e.to];
          assert Holds(entry, j, first) && Holds(lanes, j, first);
        }
      }
    }
  }

  lemma AddedIsNew(
      passing: seq<Lane>, parents: seq<Oid>, nodeColor: nat, onChain: bool, reserve: bool, added: seq<Lane>, lane: Lane)
    requires parents != [] && NewLanes(passing, parents, nodeColor, onChain, reserve, |parents|, added)
    requires lane in added && lane.Active? && lane.oid == parents[0]
    ensures lane.color == nodeColor && !onChain && !Carries(passing, parents[0])
  {
    hide LeastColor, Carries;
    var ks := NewParents(passing, parents, onChain, |parents|);
    var j :| 0 <= j < |added| && added[j] == lane;
    assert IsNewLane(passing, parents, nodeColor, reserve, added, j, ks[j]);
    assert ks[j] in ks && NeedsLane(passing, parents, onChain, ks[j]);
  }

  /**
   * The line from a commit to its first parent goes on in the commit's own colour, unless a lane
   * that passes by already waits for that parent; it then runs into that lane and takes its colour.
   * On the default chain it always keeps the colour.
   */
  lemma FirstParentKeepsTheColor(items: seq<Commit>, head: Option<nat>, reserve: bool, i: nat, e: Edge)
    requires Topological(items) && i < |items| && items[i].parents != []
    requires head.Some? ==> reserve && head.value < |items|
    ensures var chain := Chain(items, head);
      FirstParentColor(items[i], RowAt(items, chain, reserve, i), LanesAt(items, chain, reserve, i),
                       LanesAt(items, chain, reserve, i + 1), i in chain, e)
  {
    hide FirstParentColor, RowDrawn, Boundary, Topological, IsChain, Chain, After, RowOf;
    var chain := Chain(items, head);
    ChainIsChain(items, head);
    RowIsDrawn(items, chain, reserve, i);
    FirstLineColor(LanesAt(items, chain, reserve, i), items[i], i in chain, reserve, e);
  }
}
