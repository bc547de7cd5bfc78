/**
 * The loops of commit-graph.ts, proved equal to the functions of module CommitGraph.
 * Finding the default head among the refs is an input.
 */
module CommitGraphLoops {
  import opened Common
  import opened CommitGraph
  import opened CommitGraphProofs

  method AvailableLaneColor(lanes: seq<Lane>, reserve: bool) returns (color: nat)
    ensures Start(reserve) <= color && color !in UsedColors(lanes)
    ensures forall c :: Start(reserve) <= c < color ==> c in UsedColors(lanes)
    ensures color == FreeColor(lanes, reserve)
  {
    var used := UsedColors(lanes);
    ghost var least := FreeColor(lanes, reserve);
    color := Start(reserve);
    while color < MAXIMUM_VISIBLE_LANES
      invariant Start(reserve) <= color <= MAXIMUM_VISIBLE_LANES
      invariant color <= least
    {
      if color !in used { return; }
      color := color + 1;
    }
    while color in used
      invariant Start(reserve) <= color <= least
      decreases least - color
    {
      color := color + 1;
    }
  }

  lemma SelectOneMore(lanes: seq<Lane>, kept: seq<nat>, last: nat)
    requires last < |lanes| && lanes[last].Active? && forall j :: 0 <= j < |kept| ==> kept[j] < |lanes|
    ensures Select(lanes, kept + [last]) == Select(lanes, kept) + [lanes[last]]
    ensures OidsAt(lanes, kept + [last]) == OidsAt(lanes, kept) + {lanes[last].oid}
  {
    forall oid ensures oid in OidsAt(lanes, kept + [last]) <==> oid in OidsAt(lanes, kept) || oid == lanes[last].oid {
      assert forall i :: i in kept + [last] <==> i in kept || i == last;
    }
  }

  method CompactLanes(lanes: seq<Lane>, reserve: bool) returns (compacted: seq<Lane>)
    requires reserve ==> |lanes| > 0
    ensures compacted == Compact(lanes, reserve)
  {
    compacted := if reserve then [lanes[0]] else [];
    var seen: set<Oid> := if reserve && lanes[0].Active? then {lanes[0].oid} else {};
    var index := Start(reserve);
    assert reserve ==> Kept(lanes, reserve, 1) == [0];
    while index < |lanes|
      invariant Start(reserve) <= index <= |lanes|
      invariant compacted == Select(lanes, Kept(lanes, reserve, index))
      invariant seen == OidsAt(lanes, Kept(lanes, reserve, index))
    {
      ghost var kept := Kept(lanes, reserve, index);
      if lanes[index].Active? && lanes[index].oid !in seen {
        assert Kept(lanes, reserve, index + 1) == kept + [index];
        SelectOneMore(lanes, kept, index);
        compacted := compacted + [lanes[index]];
        seen := seen + {lanes[index].oid};
      } else {
        assert Kept(lanes, reserve, index + 1) == kept;
      }
      index := index + 1;
    }
  }

  method KeepUniqueEdges(edges: seq<Edge>) returns (r: seq<Edge>)
    ensures r == Unique(edges)
  {
    r := [];
    var seen: set<(nat, nat)> := {};
    for i := 0 to |edges|
      invariant r == UniqueEdges(edges, i)
      invariant forall from: nat, to: nat :: (from, to) in seen <==> HasEnds(r, from, to)
    {
      var key := (edges[i].from, edges[i].to);
      if key !in seen {
        ghost var before := r;
        r := r + [edges[i]];
        seen := seen + {key};
        forall from: nat, to: nat ensures HasEnds(r, from, to) <==> HasEnds(before, from, to) || (from, to) == key {
          assert r[|before|] == edges[i];
          assert forall j :: 0 <= j < |before| ==> r[j] == before[j];
        }
      }
    }
  }

  function ChainIds(items: seq<Commit>, chain: seq<nat>, n: nat): (r: set<Oid>)
    requires n <= |chain| && forall k :: 0 <= k < |chain| ==> chain[k] < |items|
    ensures forall oid :: oid in r <==> exists k :: 0 <= k < n && items[chain[k]].id == oid
  {
    if n == 0 then {} else ChainIds(items, chain, n - 1) + {items[chain[n - 1]].id}
  }

  lemma ChainIdsAre(items: seq<Commit>, chain: seq<nat>, n: nat, i: nat)
    requires Topological(items) && IsChain(items, chain) && n <= |chain| && i < |items|
    ensures items[i].id in ChainIds(items, chain, n) <==> i in chain[..n]
  {
    if items[i].id in ChainIds(items, chain, n) {
      var k :| 0 <= k < n && items[chain[k]].id == items[i].id;
      assert chain[k] == i && chain[..n][k] == i;
    }
  }

  method DefaultChain(items: seq<Commit>, head: Option<nat>, ghost chain: seq<nat>) returns (ids: set<Oid>)
    requires Topological(items) && IsChain(items, chain)
    requires head == if chain == [] then None else Some(chain[0])
    ensures forall i :: 0 <= i < |items| ==> (items[i].id in ids <==> i in chain)
  {
    ghost var n := 0;
    ids := {};
    var current := head;
    while current.Some? && items[current.value].id !in ids
      invariant n <= |chain|
      invariant current == if n < |chain| then Some(chain[n]) else None
      invariant ids == ChainIds(items, chain, n)
      decreases |chain| - n
    {
      ids := ids + {items[current.value].id};
      current := NextOnChain(items, current.value);
      n := n + 1;
    }
    if n < |chain| {
      ChainIdsAre(items, chain, n, chain[n]);
    }
    assert chain[..n] == chain;
    forall i | 0 <= i < |items| ensures items[i].id in ids <==> i in chain {
      ChainIdsAre(items, chain, n, i);
    }
  }

  method PlaceAllParents(lanes: seq<Lane>, lane: nat, nodeColor: nat, parents: seq<Oid>, onChain: bool, reserve: bool)
    returns (r: seq<Lane>, colors: seq<nat>)
    requires lane < |lanes|
    ensures r == PlaceParents(lanes, lane, nodeColor, parents, |parents|, onChain, reserve)
    ensures |colors| == |parents|
    ensures forall k :: 0 <= k < |parents| ==>
            colors[k] == ParentColor(lanes, lane, nodeColor, parents, k, onChain, reserve)
  {
    hide FindOid, FirstFree, LeastUnused;
    r, colors := lanes, [];
    for k := 0 to |parents|
      invariant r == PlaceParents(lanes, lane, nodeColor, parents, k, onChain, reserve)
      invariant |colors| == k
      invariant forall j :: 0 <= j < k ==>
                colors[j] == ParentColor(lanes, lane, nodeColor, parents, j, onChain, reserve)
    {
      var target := Target(r, lane, parents[k], k, onChain, reserve);
      var color;
      if target < |r| && r[target].Active? {
        color := r[target].color;
      } else if k == 0 {
        color := nodeColor;
      } else {
        color := AvailableLaneColor(r, reserve);
      }
      r := SetLane(r, target, Active(color, parents[k]));
      colors := colors + [color];
    }
  }

  method LayOutCommit(lanes: seq<Lane>, commit: Commit, onChain: bool, reserve: bool)
    returns (after: seq<Lane>, row: Row)
    requires reserve ==> |lanes| > 0
    requires onChain ==> reserve
    ensures after == After(lanes, commit, onChain, reserve)
    ensures row == RowOf(lanes, commit, onChain, reserve)
  {
    hide PlaceParents, Compact, Unique, PassThrough, Incoming, Clear, LanesOf, Bottom;
    var held := LanesOf(lanes, commit.id, |lanes|);
    var entry := lanes;
    if onChain && 0 !in held {
      entry := entry[0 := Active(DEFAULT_COLOR, commit.id)];
    } else if held == [] {
      var slot := FirstFree(lanes, Start(reserve));
      var color := AvailableLaneColor(lanes, reserve);
      entry := SetLane(entry, slot, Active(color, commit.id));
    }
    assert entry == Open(lanes, commit.id, onChain, reserve);
    var lane := NodeLane(entry, commit.id, onChain);
    var nodeColor := NodeColor(entry, lane, onChain);
    var cleared := Clear(entry, commit.id);
    var placed, colors := PlaceAllParents(cleared, lane, nodeColor, commit.parents, onChain, reserve);
    after := CompactLanes(placed, reserve);
    var passThrough := KeepUniqueEdges(PassThrough(entry, commit.id, after, |entry|));
    var incoming := KeepUniqueEdges(Incoming(entry, commit.id, lane, |entry|));
    var edges := seq(|commit.parents|, k requires 0 <= k < |commit.parents| =>
      Edge(colors[k], lane, Bottom(after, commit.parents[k], |after|, lane)));
    assert edges == Outgoing(cleared, lane, nodeColor, commit.parents, onChain, reserve, after);
    var outgoing := KeepUniqueEdges(edges);
    row := Row(lane, nodeColor, false, None, passThrough, incoming, outgoing);
  }

  /** The rows of the first n commits, by commit id. */
  function RowMap(items: seq<Commit>, rows: seq<Row>, n: nat): map<Oid, Row>
    requires n <= |items| && n <= |rows|
  {
    if n == 0 then map[] else RowMap(items, rows, n - 1)[items[n - 1].id := rows[n - 1]]
  }

  lemma {:induction false} RowMapHas(items: seq<Commit>, rows: seq<Row>, n: nat)
    requires n <= |items| && n <= |rows|
    requires forall i, j :: 0 <= i < j < |items| ==> items[i].id != items[j].id
    ensures forall oid :: oid in RowMap(items, rows, n) <==> exists j :: 0 <= j < n && items[j].id == oid
    ensures forall j :: 0 <= j < n ==> RowMap(items, rows, n)[items[j].id] == rows[j]
  {
    if n > 0 {
      RowMapHas(items, rows, n - 1);
    }
  }

  method LayOutRow(
      items: seq<Commit>, i: nat, lanes: seq<Lane>, onChain: bool, reserve: bool, limit: nat, ghost chain: seq<nat>)
    returns (after: seq<Lane>, limited: Row)
    requires i < |items| && (chain != [] ==> reserve)
    requires onChain == (i in chain)
    requires lanes == LanesAt(items, chain, reserve, i)
    ensures after == LanesAt(items, chain, reserve, i + 1)
    ensures limited == GraphRows(items, chain, reserve, limit)[i]
  {
    var row;
    after, row := LayOutCommit(lanes, items[i], onChain, reserve);
    assert row == UnclippedRows(items, chain, reserve)[i];
    limited := LimitRow(row, limit);
  }

  lemma OneMoreRow(items: seq<Commit>, rows: seq<Row>, i: nat, start: nat)
    requires i < |items| && i < |rows|
    ensures RowMap(items, rows, i + 1) == RowMap(items, rows, i)[items[i].id := rows[i]]
    ensures LaneCount(rows, start, i + 1) == RowLanes(rows[i], LaneCount(rows, start, i))
  {
  }

  method LayOutCommits(items: seq<Commit>, defaultChain: set<Oid>, reserve: bool, limit: nat, ghost chain: seq<nat>)
    returns (rows: map<Oid, Row>, laneCount: nat)
    requires Layout(items, chain, reserve)
    requires forall i :: 0 <= i < |items| ==> (items[i].id in defaultChain <==> i in chain)
    ensures rows == RowMap(items, GraphRows(items, chain, reserve, limit), |items|)
    ensures laneCount == LaneCount(GraphRows(items, chain, reserve, limit), Start(reserve), |items|)
  {
    ghost var spec := GraphRows(items, chain, reserve, limit);
    var lanes := EmptyLanes(reserve);
    rows := map[];
    laneCount := |lanes|;
    for i := 0 to |items|
      invariant lanes == LanesAt(items, chain, reserve, i)
      invariant laneCount == LaneCount(spec, Start(reserve), i)
      invariant rows == RowMap(items, spec, i)
    {
      var limited;
      lanes, limited := LayOutRow(items, i, lanes, items[i].id in defaultChain, reserve, limit, chain);
      OneMoreRow(items, spec, i, Start(reserve));
      laneCount := RowLanes(limited, laneCount);
      rows := rows[items[i].id := limited];
    }
  }

  /** The layout loop: one clipped row a commit, and the number of lanes they use. */
  method BuildCommitGraph(items: seq<Commit>, head: Option<nat>, reserve: bool, limit: nat)
    returns (rows: map<Oid, Row>, laneCount: nat)
    requires Topological(items)
    requires head.Some? ==> reserve && head.value < |items|
    ensures forall oid :: oid in rows <==> exists i :: 0 <= i < |items| && items[i].id == oid
    ensures forall i :: 0 <= i < |items| ==>
            rows[items[i].id] == GraphRows(items, Chain(items, head), reserve, limit)[i]
    ensures laneCount
            == Max(1, LaneCount(GraphRows(items, Chain(items, head), reserve, limit), Start(reserve), |items|))
  {
    ghost var chain := Chain(items, head);
    ChainIsChain(items, head);
    var defaultChain := DefaultChain(items, head, chain);
    rows, laneCount := LayOutCommits(items, defaultChain, reserve, limit, chain);
    RowMapHas(items, GraphRows(items, chain, reserve, limit), |items|);
    laneCount := Max(1, laneCount);
  }
}
