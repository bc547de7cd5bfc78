/**
 * The lane allocator behind the commit graph
 * (apps/desktop/frontend/src/lib/commit-graph.ts).
 *
 * Every step of the allocator is a function on lane lists here, which the lemmas of
 * CommitGraphProofs reason about; CommitGraphLoops has the loops the program runs, each
 * proved equal to its function.
 */
module CommitGraph {
  import opened Common

  // Object ids are only ever compared for equality.
  type Oid = nat

  datatype Commit = Commit(id: Oid, parents: seq<Oid>)

  // The program's colour and oid of a lane are null together or not at all.
  datatype Lane = Empty | Active(color: nat, oid: Oid)

  datatype Edge = Edge(color: nat, from: nat, to: nat)

  datatype Row = Row(
    lane: nat,
    nodeColor: nat,
    nodeOverflow: bool,
    overflowLane: Option<nat>,
    passThrough: seq<Edge>,
    incoming: seq<Edge>,
    outgoing: seq<Edge>)

  const DEFAULT_COLOR: nat := 0
  const MAXIMUM_VISIBLE_LANES: nat := 10

  // ---------------------------------------------------------------- searching

  predicate Holds(lanes: seq<Lane>, lane: nat, oid: Oid) {
    lane < |lanes| && lanes[lane].Active? && lanes[lane].oid == oid
  }

  /** The lanes among the first n that carry oid, in increasing order. */
  function LanesOf(lanes: seq<Lane>, oid: Oid, n: nat): (r: seq<nat>)
    requires n <= |lanes|
    ensures forall i: nat :: i in r <==> i < n && Holds(lanes, i, oid)
  {
    if n == 0 then []
    else if Holds(lanes, n - 1, oid) then LanesOf(lanes, oid, n - 1) + [n - 1]
    else LanesOf(lanes, oid, n - 1)
  }

  /** The first lane at or after start that carries oid. */
  function FindOid(lanes: seq<Lane>, oid: Oid, start: nat): (r: Option<nat>)
    ensures r.Some? ==> start <= r.value && Holds(lanes, r.value, oid)
    ensures r.None? ==> forall i: nat :: start <= i ==> !Holds(lanes, i, oid)
    decreases |lanes| - start
  {
    if start >= |lanes| then None
    else if Holds(lanes, start, oid) then Some(start)
    else FindOid(lanes, oid, start + 1)
  }

  /** The first empty lane at or after start, or the lane just past the end. */
  function FirstFree(lanes: seq<Lane>, start: nat): (r: nat)
    requires start <= |lanes|
    ensures start <= r <= |lanes|
    ensures r < |lanes| ==> lanes[r].Empty?
    ensures forall i :: start <= i < r ==> lanes[i].Active?
    decreases |lanes| - start
  {
    if start == |lanes| || lanes[start].Empty? then start else FirstFree(lanes, start + 1)
  }

  function SetLane(lanes: seq<Lane>, i: nat, value: Lane): seq<Lane>
    requires i <= |lanes|
  {
    if i < |lanes| then lanes[i := value] else lanes + [value]
  }

  // ------------------------------------------------------------------ colours

  function UsedColors(lanes: seq<Lane>): set<nat> {
    set i | 0 <= i < |lanes| && lanes[i].Active? :: lanes[i].color
  }

  /** The least colour at or after start that is not in used. */
  function LeastUnused(used: set<nat>, start: nat): (r: nat)
    ensures start <= r && r !in used
    ensures forall c :: start <= c < r ==> c in used
    decreases |used|
  {
    if start in used then
      var r := LeastUnused(used - {start}, start + 1);
      assert forall c :: start <= c < r ==> c in used by {
        forall c | start <= c < r ensures c in used {
          assert c == start || c in used - {start};
        }
      }
      r
    else start
  }

  function Start(reserve: bool): nat {
    if reserve then 1 else 0
  }

  function FreeColor(lanes: seq<Lane>, reserve: bool): nat {
    LeastUnused(UsedColors(lanes), Start(reserve))
  }

  // ------------------------------------------------------------ one commit row

  /** Gives the commit a lane if no lane was waiting for it. */
  function Open(lanes: seq<Lane>, oid: Oid, onChain: bool, reserve: bool): (r: seq<Lane>)
    requires reserve ==> |lanes| > 0
    requires onChain ==> reserve
    ensures |lanes| <= |r|
    ensures LanesOf(r, oid, |r|) != []
    ensures onChain ==> Holds(r, 0, oid)
  {
    var held := LanesOf(lanes, oid, |lanes|);
    if onChain && 0 !in held then
      var r := lanes[0 := Active(DEFAULT_COLOR, oid)];
      assert 0 in LanesOf(r, oid, |r|);
      r
    else if held == [] then
      var slot := FirstFree(lanes, Start(reserve));
      var r := SetLane(lanes, slot, Active(FreeColor(lanes, reserve), oid));
      assert slot in LanesOf(r, oid, |r|);
      r
    else
      assert held[0] in held;
      lanes
  }

  function NodeLane(entry: seq<Lane>, oid: Oid, onChain: bool): (r: nat)
    requires LanesOf(entry, oid, |entry|) != []
    requires onChain ==> Holds(entry, 0, oid)
    ensures Holds(entry, r, oid)
  {
    var held := LanesOf(entry, oid, |entry|);
    assert held[0] in held;
    if onChain then 0 else held[0]
  }

  function NodeColor(entry: seq<Lane>, lane: nat, onChain: bool): nat
    requires lane < |entry| && entry[lane].Active?
  {
    if onChain then DEFAULT_COLOR else entry[lane].color
  }

  function Incoming(entry: seq<Lane>, oid: Oid, lane: nat, n: nat): (r: seq<Edge>)
    requires n <= |entry|
    ensures forall e :: e in r ==> e.to == lane && e.from < n && entry[e.from] == Active(e.color, oid)
    ensures forall i: nat :: i < n && Holds(entry, i, oid) ==> Edge(entry[i].color, i, lane) in r
    ensures forall j, k :: 0 <= j < k < |r| ==> r[j].from < r[k].from
  {
    if n == 0 then []
    else if Holds(entry, n - 1, oid) then Incoming(entry, oid, lane, n - 1) + [Edge(entry[n - 1].color, n - 1, lane)]
    else Incoming(entry, oid, lane, n - 1)
  }

  /** Frees every lane that led to the commit. */
  function Clear(entry: seq<Lane>, oid: Oid): (r: seq<Lane>)
    ensures |r| == |entry|
    ensures forall i :: 0 <= i < |r| ==> r[i] == if Holds(entry, i, oid) then Empty else entry[i]
  {
    seq(|entry|, i requires 0 <= i < |entry| => if Holds(entry, i, oid) then Empty else entry[i])
  }

  /** Where the k-th parent goes, given the lanes as they stand. */
  function Target(lanes: seq<Lane>, lane: nat, parent: Oid, k: nat, onChain: bool, reserve: bool): (r: nat)
    requires lane < |lanes|
    ensures r <= |lanes|
  {
    if onChain && k == 0 then 0
    else
      var found := FindOid(lanes, parent, 0);
      if found.Some? then found.value
      else if k == 0 && lanes[lane].Empty? then lane
      else FirstFree(lanes, Start(reserve))
  }

  function TargetColor(lanes: seq<Lane>, target: nat, nodeColor: nat, k: nat, reserve: bool): nat {
    if target < |lanes| && lanes[target].Active? then lanes[target].color
    else if k == 0 then nodeColor
    else FreeColor(lanes, reserve)
  }

  function PlaceParent(
      lanes: seq<Lane>, lane: nat, nodeColor: nat, parent: Oid, k: nat, onChain: bool, reserve: bool): (r: seq<Lane>)
    requires lane < |lanes|
    ensures |lanes| <= |r|
  {
    var target := Target(lanes, lane, parent, k, onChain, reserve);
    SetLane(lanes, target, Active(TargetColor(lanes, target, nodeColor, k, reserve), parent))
  }

  /** The lanes after the first k parents have been placed. */
  function PlaceParents(
      lanes: seq<Lane>, lane: nat, nodeColor: nat, parents: seq<Oid>, k: nat, onChain: bool,
      reserve: bool): (r: seq<Lane>)
    requires lane < |lanes|
    requires k <= |parents|
    ensures |lanes| <= |r|
    decreases k
  {
    if k == 0 then lanes
    else
      PlaceParent(PlaceParents(lanes, lane, nodeColor, parents, k - 1, onChain, reserve),
                  lane, nodeColor, parents[k - 1], k - 1, onChain, reserve)
  }

  function ParentColor(
      lanes: seq<Lane>, lane: nat, nodeColor: nat, parents: seq<Oid>, k: nat, onChain: bool, reserve: bool): nat
    requires lane < |lanes|
    requires k < |parents|
  {
    var before := PlaceParents(lanes, lane, nodeColor, parents, k, onChain, reserve);
    TargetColor(before, Target(before, lane, parents[k], k, onChain, reserve), nodeColor, k, reserve)
  }

  /** The lanes kept by compaction, as indices into lanes, looking at the first n. */
  function Kept(lanes: seq<Lane>, reserve: bool, n: nat): (r: seq<nat>)
    requires n <= |lanes|
    requires reserve ==> n > 0
    ensures forall j :: 0 <= j < |r| ==> r[j] < n
    ensures forall j, k :: 0 <= j < k < |r| ==> r[j] < r[k]
    ensures reserve ==> |r| > 0 && r[0] == 0
    decreases n
  {
    if reserve && n == 1 then [0]
    else if n == 0 then []
    else
      var r := Kept(lanes, reserve, n - 1);
      if lanes[n - 1].Active? && lanes[n - 1].oid !in OidsAt(lanes, r) then r + [n - 1] else r
  }

  function OidsAt(lanes: seq<Lane>, kept: seq<nat>): set<Oid>
    requires forall j :: 0 <= j < |kept| ==> kept[j] < |lanes|
  {
    set i | i in kept && lanes[i].Active? :: lanes[i].oid
  }

  function Select(lanes: seq<Lane>, kept: seq<nat>): (r: seq<Lane>)
    requires forall j :: 0 <= j < |kept| ==> kept[j] < |lanes|
    ensures |r| == |kept|
    ensures forall j :: 0 <= j < |r| ==> r[j] == lanes[kept[j]]
  {
    seq(|kept|, j requires 0 <= j < |kept| => lanes[kept[j]])
  }

  function Compact(lanes: seq<Lane>, reserve: bool): seq<Lane>
    requires reserve ==> |lanes| > 0
  {
    Select(lanes, Kept(lanes, reserve, |lanes|))
  }

  /** The lane a commit occupies below the row; a commit without one keeps from. */
  function Bottom(lanes: seq<Lane>, oid: Oid, n: nat, from: nat): (r: nat)
    requires n <= |lanes|
    ensures (exists i: nat :: i < n && Holds(lanes, i, oid)) ==> r < n && Holds(lanes, r, oid)
    decreases n
  {
    if n == 0 then from
    else if Holds(lanes, n - 1, oid) then n - 1
    else Bottom(lanes, oid, n - 1, from)
  }

  function PassThrough(entry: seq<Lane>, oid: Oid, after: seq<Lane>, n: nat): (r: seq<Edge>)
    requires n <= |entry|
    ensures forall e :: e in r ==>
      && e.from < n && entry[e.from].Active? && entry[e.from].oid != oid && entry[e.from].color == e.color
      && e.to == Bottom(after, entry[e.from].oid, |after|, e.from)
    ensures forall i: nat :: i < n && entry[i].Active? && entry[i].oid != oid ==>
      Edge(entry[i].color, i, Bottom(after, entry[i].oid, |after|, i)) in r
    ensures forall j, k :: 0 <= j < k < |r| ==> r[j].from < r[k].from
  {
    if n == 0 then []
    else if entry[n - 1].Active? && entry[n - 1].oid != oid then
      PassThrough(entry, oid, after, n - 1)
      + [Edge(entry[n - 1].color, n - 1, Bottom(after, entry[n - 1].oid, |after|, n - 1))]
    else PassThrough(entry, oid, after, n - 1)
  }

  function Outgoing(
      cleared: seq<Lane>, lane: nat, nodeColor: nat, parents: seq<Oid>, onChain: bool, reserve: bool,
      after: seq<Lane>): (r: seq<Edge>)
    requires lane < |cleared|
    ensures |r| == |parents|
    ensures forall k :: 0 <= k < |r| ==> r[k].from == lane && r[k].to == Bottom(after, parents[k], |after|, lane)
  {
    seq(|parents|, k requires 0 <= k < |parents| =>
      Edge(ParentColor(cleared, lane, nodeColor, parents, k, onChain, reserve), lane,
           Bottom(after, parents[k], |after|, lane)))
  }

  predicate HasEnds(edges: seq<Edge>, from: nat, to: nat) {
    exists i :: 0 <= i < |edges| && edges[i].from == from && edges[i].to == to
  }

  /** The first edge of every from/to pair among the first n, in order. */
  function UniqueEdges(edges: seq<Edge>, n: nat): (r: seq<Edge>)
    requires n <= |edges|
    decreases n
  {
    if n == 0 then []
    else
      var r := UniqueEdges(edges, n - 1);
      if HasEnds(r, edges[n - 1].from, edges[n - 1].to) then r else r + [edges[n - 1]]
  }

  function Unique(edges: seq<Edge>): seq<Edge> {
    UniqueEdges(edges, |edges|)
  }

  function After(lanes: seq<Lane>, commit: Commit, onChain: bool, reserve: bool): seq<Lane>
    requires reserve ==> |lanes| > 0
    requires onChain ==> reserve
  {
    var entry := Open(lanes, commit.id, onChain, reserve);
    var lane := NodeLane(entry, commit.id, onChain);
    Compact(PlaceParents(Clear(entry, commit.id), lane, NodeColor(entry, lane, onChain),
                         commit.parents, |commit.parents|, onChain, reserve), reserve)
  }

  /** One iteration of the layout loop, before the row is clipped. */
  function RowOf(lanes: seq<Lane>, commit: Commit, onChain: bool, reserve: bool): Row
    requires reserve ==> |lanes| > 0
    requires onChain ==> reserve
  {
    var entry := Open(lanes, commit.id, onChain, reserve);
    var lane := NodeLane(entry, commit.id, onChain);
    var nodeColor := NodeColor(entry, lane, onChain);
    var after := After(lanes, commit, onChain, reserve);
    Row(lane, nodeColor, false, None,
        Unique(PassThrough(entry, commit.id, after, |entry|)),
        Unique(Incoming(entry, commit.id, lane, |entry|)),
        Unique(Outgoing(Clear(entry, commit.id), lane, nodeColor, commit.parents, onChain, reserve, after)))
  }

  // ----------------------------------------------------------- the whole layout

  /** Distinct ids, listed children before parents. */
  ghost predicate Topological(items: seq<Commit>) {
    && (forall i, j :: 0 <= i < j < |items| ==> items[i].id != items[j].id)
    && (forall i, j :: 0 <= i < |items| && 0 <= j < |items| && items[j].id in items[i].parents ==> i < j)
  }

  function IndexOf(items: seq<Commit>, oid: Oid, n: nat): (r: Option<nat>)
    requires n <= |items|
    ensures r.Some? ==> r.value < n && items[r.value].id == oid
    ensures r.None? ==> forall i :: 0 <= i < n ==> items[i].id != oid
  {
    if n == 0 then None
    else if items[n - 1].id == oid then Some(n - 1)
    else IndexOf(items, oid, n - 1)
  }

  /** The next loaded commit on the first-parent chain. */
  function NextOnChain(items: seq<Commit>, i: nat): Option<nat>
    requires i < |items|
  {
    if items[i].parents == [] then None else IndexOf(items, items[i].parents[0], |items|)
  }

  /** The default head's first-parent chain, as indices into items. */
  function Chain(items: seq<Commit>, head: Option<nat>): (r: seq<nat>)
    requires Topological(items)
    requires head.Some? ==> head.value < |items|
    ensures forall k :: 0 <= k < |r| ==> r[k] < |items|
    ensures head.None? ==> r == []
    ensures head.Some? ==> r != [] && r[0] == head.value
    ensures forall k :: 0 <= k < |r| - 1 ==> NextOnChain(items, r[k]) == Some(r[k + 1])
    ensures r != [] ==> NextOnChain(items, r[|r| - 1]) == None
    ensures forall j, k :: 0 <= j < k < |r| ==> r[j] < r[k]
    decreases if head.Some? then |items| - head.value else 0
  {
    if head.None? then []
    else
      var next := NextOnChain(items, head.value);
      assert next.Some? ==> items[next.value].id in items[head.value].parents;
      [head.value] + Chain(items, next)
  }

  function EmptyLanes(reserve: bool): seq<Lane> {
    if reserve then [Empty] else []
  }

  /** The lanes above row i. */
  function LanesAt(items: seq<Commit>, chain: seq<nat>, reserve: bool, i: nat): (r: seq<Lane>)
    requires i <= |items|
    requires chain != [] ==> reserve
    ensures reserve ==> |r| > 0
  {
    if i == 0 then EmptyLanes(reserve)
    else After(LanesAt(items, chain, reserve, i - 1), items[i - 1], i - 1 in chain, reserve)
  }

  function OpenedAt(items: seq<Commit>, chain: seq<nat>, reserve: bool, i: nat): seq<Lane>
    requires i < |items|
    requires chain != [] ==> reserve
  {
    Open(LanesAt(items, chain, reserve, i), items[i].id, i in chain, reserve)
  }

  function RowAt(items: seq<Commit>, chain: seq<nat>, reserve: bool, i: nat): Row
    requires i < |items|
    requires chain != [] ==> reserve
  {
    RowOf(LanesAt(items, chain, reserve, i), items[i], i in chain, reserve)
  }

  function UnclippedRows(items: seq<Commit>, chain: seq<nat>, reserve: bool): (r: seq<Row>)
    requires chain != [] ==> reserve
    ensures |r| == |items|
    ensures forall i :: 0 <= i < |r| ==> r[i] == RowAt(items, chain, reserve, i)
  {
    seq(|items|, i requires 0 <= i < |items| => RowAt(items, chain, reserve, i))
  }

  // ------------------------------------------------------------------- clipping

  function ClipEdge(e: Edge, limit: nat): Edge {
    Edge(e.color, Min(e.from, limit), Min(e.to, limit))
  }

  function ClipEdges(edges: seq<Edge>, limit: nat): (r: seq<Edge>)
    ensures |r| == |edges|
    ensures forall i :: 0 <= i < |r| ==> r[i] == ClipEdge(edges[i], limit)
  {
    seq(|edges|, i requires 0 <= i < |edges| => ClipEdge(edges[i], limit))
  }

  predicate EdgesBelow(edges: seq<Edge>, limit: nat) {
    forall i :: 0 <= i < |edges| ==> edges[i].from < limit && edges[i].to < limit
  }

  predicate RowBelow(row: Row, limit: nat) {
    && row.lane < limit
    && EdgesBelow(row.passThrough, limit)
    && EdgesBelow(row.incoming, limit)
    && EdgesBelow(row.outgoing, limit)
  }

  function LimitRow(row: Row, limit: nat): Row {
    if RowBelow(row, limit) then row
    else
      Row(Min(row.lane, limit), row.nodeColor, row.lane >= limit, Some(limit),
          Unique(ClipEdges(row.passThrough, limit)),
          Unique(ClipEdges(row.incoming, limit)),
          Unique(ClipEdges(row.outgoing, limit)))
  }

  /** One more than the largest lane among the first n edges, or start. */
  function EdgeLanes(edges: seq<Edge>, n: nat, start: nat): (r: nat)
    requires n <= |edges|
    ensures r >= start
    ensures forall i :: 0 <= i < n ==> edges[i].from < r && edges[i].to < r
  {
    if n == 0 then start
    else Max(EdgeLanes(edges, n - 1, start), Max(edges[n - 1].from + 1, edges[n - 1].to + 1))
  }

  function RowLanes(row: Row, start: nat): nat {
    var a := Max(start, Max(row.lane + 1, if row.overflowLane.Some? then row.overflowLane.value + 1 else 0));
    var b := EdgeLanes(row.passThrough, |row.passThrough|, a);
    var c := EdgeLanes(row.incoming, |row.incoming|, b);
    EdgeLanes(row.outgoing, |row.outgoing|, c)
  }

  function ClippedRows(rows: seq<Row>, limit: nat): (r: seq<Row>)
    ensures |r| == |rows| && forall i :: 0 <= i < |r| ==> r[i] == LimitRow(rows[i], limit)
  {
    seq(|rows|, i requires 0 <= i < |rows| => LimitRow(rows[i], limit))
  }

  function LaneCount(rows: seq<Row>, start: nat, n: nat): nat
    requires n <= |rows|
  {
    if n == 0 then start else RowLanes(rows[n - 1], LaneCount(rows, start, n - 1))
  }

  /** The rows of the finished graph. */
  function GraphRows(items: seq<Commit>, chain: seq<nat>, reserve: bool, limit: nat): seq<Row>
    requires chain != [] ==> reserve
  {
    ClippedRows(UnclippedRows(items, chain, reserve), limit)
  }
}
