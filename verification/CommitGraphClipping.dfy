/** Clipping a row to the visible lanes breaks no line and bounds the lanes used. */
module CommitGraphClipping {
  import opened Common
  import opened CommitGraph
  import opened CommitGraphProofs

  /** The lanes on which lines enter a row from above. */
  ghost predicate StartsAt(row: Row, lane: nat) {
    exists to: nat :: HasEnds(row.passThrough, lane, to) || HasEnds(row.incoming, lane, to)
  }

  /** The lanes on which lines leave a row below. */
  ghost predicate EndsAt(row: Row, lane: nat) {
    exists from: nat :: HasEnds(row.passThrough, from, lane) || HasEnds(row.outgoing, from, lane)
  }

  /** Some edge has these ends once both are clipped. */
  ghost predicate HasClippedEnds(edges: seq<Edge>, limit: nat, from: nat, to: nat) {
    exists a: nat, b: nat :: HasEnds(edges, a, b) && Min(a, limit) == from && Min(b, limit) == to
  }

  lemma ClippedEnds(edges: seq<Edge>, limit: nat, from: nat, to: nat)
    ensures HasEnds(Unique(ClipEdges(edges, limit)), from, to) <==> HasClippedEnds(edges, limit, from, to)
  {
    var clipped := ClipEdges(edges, limit);
    UniqueHas(clipped);
    if HasEnds(clipped, from, to) {
      var i :| 0 <= i < |clipped| && clipped[i].from == from && clipped[i].to == to;
      assert HasEnds(edges, edges[i].from, edges[i].to);
    }
    if HasClippedEnds(edges, limit, from, to) {
      var a: nat, b: nat :| HasEnds(edges, a, b) && Min(a, limit) == from && Min(b, limit) == to;
      var i :| 0 <= i < |edges| && edges[i].from == a && edges[i].to == b;
      assert clipped[i].from == from && clipped[i].to == to;
    }
  }

  lemma LowEdgesKeep(edges: seq<Edge>, limit: nat, from: nat, to: nat)
    requires EdgesBelow(edges, limit)
    ensures HasEnds(edges, from, to) <==> HasClippedEnds(edges, limit, from, to)
  {
    if HasEnds(edges, from, to) {
      var i :| 0 <= i < |edges| && edges[i].from == from && edges[i].to == to;
      assert Min(from, limit) == from && Min(to, limit) == to;
    }
  }

  /** Clipping maps both ends of every edge, and adds or loses none. */
  ghost predicate ClipsTo(edges: seq<Edge>, clipped: seq<Edge>, limit: nat) {
    forall from: nat, to: nat :: HasEnds(clipped, from, to) <==> HasClippedEnds(edges, limit, from, to)
  }

  /** Some line of the row, or its node, is on this lane. */
  ghost predicate Touches(row: Row, lane: nat) {
    row.lane == lane || OnLane(row.passThrough, lane) || OnLane(row.incoming, lane) || OnLane(row.outgoing, lane)
  }

  ghost predicate OnLane(edges: seq<Edge>, lane: nat) {
    exists i :: 0 <= i < |edges| && (edges[i].from == lane || edges[i].to == lane)
  }

  lemma LimitedEnds(row: Row, limit: nat)
    ensures var r := LimitRow(row, limit);
      && r.lane == Min(row.lane, limit)
      && ClipsTo(row.passThrough, r.passThrough, limit)
      && ClipsTo(row.incoming, r.incoming, limit)
      && ClipsTo(row.outgoing, r.outgoing, limit)
  {
    EdgesClip(row.passThrough, limit);
    EdgesClip(row.incoming, limit);
    EdgesClip(row.outgoing, limit);
  }

  /** Every lane at or beyond the limit is moved to it; the node keeps its colour, and says whether it was moved. */
  lemma LimitRowClips(row: Row, limit: nat)
    ensures var r := LimitRow(row, limit);
      && r.lane == Min(row.lane, limit) && r.nodeColor == row.nodeColor
      && ClipsTo(row.passThrough, r.passThrough, limit)
      && ClipsTo(row.incoming, r.incoming, limit)
      && ClipsTo(row.outgoing, r.outgoing, limit)
    ensures var r, moved := LimitRow(row, limit), exists lane: nat :: lane >= limit && Touches(row, lane);
      && (moved ==> r.overflowLane == Some(limit) && (r.nodeOverflow <==> row.lane >= limit))
      && (!moved ==> r == row)
  {
    LimitedEnds(row, limit);
    if exists lane: nat :: lane >= limit && Touches(row, lane) {
      var lane: nat :| lane >= limit && Touches(row, lane);
      assert !RowBelow(row, limit);
    } else {
      NothingMoves(row, limit);
    }
  }

  lemma LowLanes(edges: seq<Edge>, limit: nat)
    requires forall lane: nat :: lane >= limit ==> !OnLane(edges, lane)
    ensures EdgesBelow(edges, limit)
  {
    forall i | 0 <= i < |edges| ensures edges[i].from < limit && edges[i].to < limit {
      assert OnLane(edges, edges[i].from) && OnLane(edges, edges[i].to);
    }
  }

  lemma NothingMoves(row: Row, limit: nat)
    requires forall lane: nat :: lane >= limit ==> !Touches(row, lane)
    ensures RowBelow(row, limit)
  {
    forall lane: nat | lane >= limit
      ensures !OnLane(row.passThrough, lane) && !OnLane(row.incoming, lane) && !OnLane(row.outgoing, lane)
    {
      assert !Touches(row, lane);
    }
    LowLanes(row.passThrough, limit);
    LowLanes(row.incoming, limit);
    LowLanes(row.outgoing, limit);
    assert Touches(row, row.lane);
  }

  lemma EdgesClip(edges: seq<Edge>, limit: nat)
    ensures ClipsTo(edges, Unique(ClipEdges(edges, limit)), limit)
    ensures EdgesBelow(edges, limit) ==> ClipsTo(edges, edges, limit)
  {
    var clipped := Unique(ClipEdges(edges, limit));
    forall from: nat, to: nat ensures HasEnds(clipped, from, to) <==> HasClippedEnds(edges, limit, from, to) {
      ClippedEnds(edges, limit, from, to);
    }
    if EdgesBelow(edges, limit) {
      forall from: nat, to: nat ensures HasEnds(edges, from, to) <==> HasClippedEnds(edges, limit, from, to) {
        LowEdgesKeep(edges, limit, from, to);
      }
    }
  }

  /** The i-th edge is the first with these ends once both are clipped. */
  predicate FirstClipped(edges: seq<Edge>, limit: nat, from: nat, to: nat, i: nat) {
    && i < |edges| && Min(edges[i].from, limit) == from && Min(edges[i].to, limit) == to
    && forall j :: 0 <= j < i ==> Min(edges[j].from, limit) != from || Min(edges[j].to, limit) != to
  }

  /** Of the edges that clipping makes one the first is drawn, in its colour and in its order. */
  ghost predicate KeepsFirst(edges: seq<Edge>, clipped: seq<Edge>, limit: nat) {
    && (forall e :: e in clipped ==> FirstColor(edges, limit, e))
    && (forall j, k, p: nat, q: nat ::
          (0 <= j < k < |clipped| && FirstClipped(edges, limit, clipped[j].from, clipped[j].to, p)
           && FirstClipped(edges, limit, clipped[k].from, clipped[k].to, q)) ==>
          p < q)
  }

  ghost predicate FirstColor(edges: seq<Edge>, limit: nat, e: Edge) {
    exists i: nat :: FirstClipped(edges, limit, e.from, e.to, i) && e.color == edges[i].color
  }

  /** The i-th edge is the first with its ends. */
  predicate IsFirstEdge(edges: seq<Edge>, e: Edge, i: nat) {
    i < |edges| && edges[i] == e && forall j :: 0 <= j < i ==> edges[j].from != e.from || edges[j].to != e.to
  }

  lemma LastIsFirst(edges: seq<Edge>, n: nat)
    requires 0 < n <= |edges| && UniqueEdges(edges, n) != UniqueEdges(edges, n - 1)
    ensures IsFirstEdge(edges, edges[n - 1], n - 1)
  {
    UniqueEdgesAre(edges, n - 1);
    var before, last := UniqueEdges(edges, n - 1), edges[n - 1];
    forall j | 0 <= j < n - 1 ensures edges[j].from != last.from || edges[j].to != last.to {
      assert HasEnds(before, edges[j].from, edges[j].to);
    }
  }

  lemma {:induction false} UniqueKeepsFirst(edges: seq<Edge>, n: nat) returns (firsts: seq<nat>)
    requires n <= |edges|
    ensures var r := UniqueEdges(edges, n);
      && |firsts| == |r|
      && (forall j :: 0 <= j < |r| ==> firsts[j] < n && IsFirstEdge(edges, r[j], firsts[j]))
      && (forall j, k :: 0 <= j < k < |r| ==> firsts[j] < firsts[k])
    decreases n
  {
    hide IsFirstEdge, HasEnds;
    if n == 0 {
      firsts := [];
    } else {
      var before := UniqueEdges(edges, n - 1);
      firsts := UniqueKeepsFirst(edges, n - 1);
      if UniqueEdges(edges, n) != before {
        LastIsFirst(edges, n);
        firsts := firsts + [n - 1];
      }
    }
  }

  lemma ClippingKeepsFirst(edges: seq<Edge>, limit: nat)
    ensures KeepsFirst(edges, Unique(ClipEdges(edges, limit)), limit)
  {
    hide UniqueEdges;
    var clipped := ClipEdges(edges, limit);
    var r := Unique(clipped);
    var firsts := UniqueKeepsFirst(clipped, |clipped|);
    forall j | 0 <= j < |r|
      ensures FirstClipped(edges, limit, r[j].from, r[j].to, firsts[j]) && r[j].color == edges[firsts[j]].color
    {
      assert IsFirstEdge(clipped, r[j], firsts[j]);
      assert forall i :: 0 <= i < |edges| ==>
          clipped[i].from == Min(edges[i].from, limit) && clipped[i].to == Min(edges[i].to, limit);
    }
    forall j, k, p: nat, q: nat
      | 0 <= j < k < |r| && FirstClipped(edges, limit, r[j].from, r[j].to, p)
        && FirstClipped(edges, limit, r[k].from, r[k].to, q)
      ensures p < q
    {
      OneFirst(edges, limit, r[j].from, r[j].to, p, firsts[j]);
      OneFirst(edges, limit, r[k].from, r[k].to, q, firsts[k]);
    }
  }

  lemma OneFirst(edges: seq<Edge>, limit: nat, from: nat, to: nat, p: nat, q: nat)
    requires FirstClipped(edges, limit, from, to, p) && FirstClipped(edges, limit, from, to, q)
    ensures p == q
  {
  }

  ghost predicate DifferentEnds(edges: seq<Edge>) {
    forall j, k :: 0 <= j < k < |edges| ==> edges[j].from != edges[k].from || edges[j].to != edges[k].to
  }

  /** Edges with different ends below the limit stay as they are. */
  lemma LowKeepFirst(edges: seq<Edge>, limit: nat)
    requires EdgesBelow(edges, limit) && DifferentEnds(edges)
    ensures KeepsFirst(edges, edges, limit)
  {
    forall i: nat | i < |edges| ensures FirstClipped(edges, limit, edges[i].from, edges[i].to, i) {
    }
    forall j, k, p: nat, q: nat
      | 0 <= j < k < |edges| && FirstClipped(edges, limit, edges[j].from, edges[j].to, p)
        && FirstClipped(edges, limit, edges[k].from, edges[k].to, q)
      ensures p < q
    {
      OneFirst(edges, limit, edges[j].from, edges[j].to, p, j);
      OneFirst(edges, limit, edges[k].from, edges[k].to, q, k);
    }
  }

  ghost predicate RowKeepsFirst(row: Row, r: Row, limit: nat) {
    && KeepsFirst(row.passThrough, r.passThrough, limit)
    && KeepsFirst(row.incoming, r.incoming, limit)
    && KeepsFirst(row.outgoing, r.outgoing, limit)
  }

  /**
   * Every line of a clipped row of a history has the colour of the first line that clipping gives
   * those ends, and lines keep their order; the node has its colour, and is marked as moved exactly
   * when its lane is not visible.
   */
  lemma ClippedRowsKeepColors(items: seq<Commit>, chain: seq<nat>, reserve: bool, limit: nat, i: nat)
    requires (chain != [] ==> reserve) && i < |items|
    ensures var row, r := RowAt(items, chain, reserve, i), GraphRows(items, chain, reserve, limit)[i];
      && RowKeepsFirst(row, r, limit) && r.nodeColor == row.nodeColor && r.lane == Min(row.lane, limit)
      && (r.nodeOverflow <==> row.lane >= limit)
      && r.overflowLane ==
           if exists lane: nat :: lane >= limit && Touches(row, lane) then Some(limit) else None
  {
    hide KeepsFirst, Unique, PassThrough, Incoming, Outgoing, Touches;
    var row := RowAt(items, chain, reserve, i);
    LimitRowClips(row, limit);
    if RowBelow(row, limit) {
      RowIsUnique(LanesAt(items, chain, reserve, i), items[i], i in chain, reserve);
      LowKeepFirst(row.passThrough, limit);
      LowKeepFirst(row.incoming, limit);
      LowKeepFirst(row.outgoing, limit);
    } else {
      ClippingKeepsFirst(row.passThrough, limit);
      ClippingKeepsFirst(row.incoming, limit);
      ClippingKeepsFirst(row.outgoing, limit);
    }
  }

  lemma RowIsUnique(lanes: seq<Lane>, commit: Commit, onChain: bool, reserve: bool)
    requires (reserve ==> |lanes| > 0) && (onChain ==> reserve)
    ensures var row := RowOf(lanes, commit, onChain, reserve);
      DifferentEnds(row.passThrough) && DifferentEnds(row.incoming) && DifferentEnds(row.outgoing)
  {
    hide Open, After, NodeLane, NodeColor, PassThrough, Incoming, Outgoing, Clear, Unique;
    var entry, after := Open(lanes, commit.id, onChain, reserve), After(lanes, commit, onChain, reserve);
    var lane := NodeLane(entry, commit.id, onChain);
    UniqueHas(PassThrough(entry, commit.id, after, |entry|));
    UniqueHas(Incoming(entry, commit.id, lane, |entry|));
    UniqueHas(Outgoing(Clear(entry, commit.id), lane, NodeColor(entry, lane, onChain), commit.parents, onChain,
                       reserve, after));
  }

  lemma ClippedStarts(row: Row, limit: nat, lane: nat)
    ensures StartsAt(LimitRow(row, limit), lane) <==> exists a: nat :: StartsAt(row, a) && Min(a, limit) == lane
  {
    var r := LimitRow(row, limit);
    LimitedEnds(row, limit);
    if StartsAt(r, lane) {
      var to: nat :| HasEnds(r.passThrough, lane, to) || HasEnds(r.incoming, lane, to);
      if HasEnds(r.passThrough, lane, to) {
        var a: nat, b: nat :| HasEnds(row.passThrough, a, b) && Min(a, limit) == lane && Min(b, limit) == to;
        assert StartsAt(row, a);
      } else {
        var a: nat, b: nat :| HasEnds(row.incoming, a, b) && Min(a, limit) == lane && Min(b, limit) == to;
        assert StartsAt(row, a);
      }
    }
    if exists a: nat :: StartsAt(row, a) && Min(a, limit) == lane {
      var a: nat :| StartsAt(row, a) && Min(a, limit) == lane;
      var b: nat :| HasEnds(row.passThrough, a, b) || HasEnds(row.incoming, a, b);
      assert HasEnds(r.passThrough, lane, Min(b, limit)) || HasEnds(r.incoming, lane, Min(b, limit));
    }
  }

  lemma ClippedEndsAt(row: Row, limit: nat, lane: nat)
    ensures EndsAt(LimitRow(row, limit), lane) <==> exists b: nat :: EndsAt(row, b) && Min(b, limit) == lane
  {
    var r := LimitRow(row, limit);
    LimitedEnds(row, limit);
    if EndsAt(r, lane) {
      var from: nat :| HasEnds(r.passThrough, from, lane) || HasEnds(r.outgoing, from, lane);
      if HasEnds(r.passThrough, from, lane) {
        var a: nat, b: nat :| HasEnds(row.passThrough, a, b) && Min(a, limit) == from && Min(b, limit) == lane;
        assert EndsAt(row, b);
      } else {
        var a: nat, b: nat :| HasEnds(row.outgoing, a, b) && Min(a, limit) == from && Min(b, limit) == lane;
        assert EndsAt(row, b);
      }
    }
    if exists b: nat :: EndsAt(row, b) && Min(b, limit) == lane {
      var b: nat :| EndsAt(row, b) && Min(b, limit) == lane;
      var a: nat :| HasEnds(row.passThrough, a, b) || HasEnds(row.outgoing, a, b);
      assert HasEnds(r.passThrough, Min(a, limit), lane) || HasEnds(r.outgoing, Min(a, limit), lane);
    }
  }

  predicate Lit(lanes: seq<Lane>, lane: nat) {
    lane < |lanes| && lanes[lane].Active?
  }

  /** Before clipping, lines leave a row on exactly the lanes in use below it and enter it on those in use above. */
  lemma RowTouches(commit: Commit, row: Row, lanes: seq<Lane>, entry: seq<Lane>, after: seq<Lane>, lane: nat)
    requires RowDrawn(commit, row, lanes, entry, after)
    ensures EndsAt(row, lane) <==> Lit(after, lane)
    ensures Holds(entry, lane, commit.id) ==> StartsAt(row, lane)
    ensures StartsAt(row, lane) <==> Lit(entry, lane)
  {
    if Lit(after, lane) {
      var oid := after[lane].oid;
      assert Holds(after, lane, oid) && Carries(after, oid);
      if oid in commit.parents {
        var k :| 0 <= k < |commit.parents| && commit.parents[k] == oid;
        assert HasEnds(row.outgoing, row.lane, lane);
      } else {
        var i: nat :| Holds(lanes, i, oid);
        assert HasEnds(row.passThrough, i, lane);
      }
    }
    if Lit(entry, lane) {
      var oid := entry[lane].oid;
      if oid == commit.id {
        assert HasEnds(row.incoming, lane, row.lane);
      } else {
        assert Holds(lanes, lane, oid);
        assert Carries(after, oid);
        var to: nat :| Holds(after, to, oid);
        assert HasEnds(row.passThrough, lane, to);
      }
    }
  }

  /** The row opens a lane that nothing above led to. */
  predicate OpensTip(row: Row, lanes: seq<Lane>) {
    !Lit(lanes, row.lane)
  }

  lemma OpenLights(lanes: seq<Lane>, commit: Commit, onChain: bool, reserve: bool, lane: nat)
    requires Boundary(lanes, reserve) && Expecting(lanes, commit.id, onChain, reserve)
    ensures var entry := Open(lanes, commit.id, onChain, reserve);
      Lit(entry, lane) <==> Lit(lanes, lane) || lane == NodeLane(entry, commit.id, onChain)
  {
    OpenKeeps(lanes, commit.id, onChain, reserve);
    var entry := Open(lanes, commit.id, onChain, reserve);
    var held := LanesOf(lanes, commit.id, |lanes|);
    if onChain && 0 !in held {
      assert entry == lanes[0 := Active(DEFAULT_COLOR, commit.id)];
    } else if held == [] {
      var slot := FirstFree(lanes, Start(reserve));
      assert slot in LanesOf(entry, commit.id, |entry|);
      forall i | i in LanesOf(entry, commit.id, |entry|) ensures i == slot {
        assert i == slot || i in held;
      }
    }
  }

  /** Before clipping, the lines entering a row are those leaving the row above and its own lane's. */
  lemma RowsMeet(
      upper: Commit, upperRow: Row, above: seq<Lane>, upperEntry: seq<Lane>, lanes: seq<Lane>,
      lower: Commit, lowerRow: Row, below: seq<Lane>, onChain: bool, reserve: bool, lane: nat)
    requires Boundary(lanes, reserve) && Expecting(lanes, lower.id, onChain, reserve)
    requires RowDrawn(upper, upperRow, above, upperEntry, lanes)
    requires RowDrawn(lower, lowerRow, lanes, Open(lanes, lower.id, onChain, reserve), below)
    requires lowerRow.lane == NodeLane(Open(lanes, lower.id, onChain, reserve), lower.id, onChain)
    ensures StartsAt(lowerRow, lane) <==> EndsAt(upperRow, lane) || lane == lowerRow.lane
    ensures EndsAt(upperRow, lane) <==> Lit(lanes, lane)
  {
    hide RowDrawn, Boundary, Open, NodeLane, StartsAt, EndsAt, Lit;
    RowTouches(upper, upperRow, above, upperEntry, lanes, lane);
    RowTouches(lower, lowerRow, lanes, Open(lanes, lower.id, onChain, reserve), below, lane);
    OpenLights(lanes, lower, onChain, reserve, lane);
  }

  /** Clipping both rows clips the lanes on which they meet. */
  lemma ClippedMeet(upper: Row, lower: Row, limit: nat, lane: nat)
    requires forall a: nat :: StartsAt(lower, a) <==> EndsAt(upper, a) || a == lower.lane
    ensures StartsAt(LimitRow(lower, limit), lane)
            <==> EndsAt(LimitRow(upper, limit), lane) || lane == LimitRow(lower, limit).lane
    ensures EndsAt(upper, lower.lane) ==> EndsAt(LimitRow(upper, limit), LimitRow(lower, limit).lane)
  {
    LimitedEnds(lower, limit);
    hide LimitRow, StartsAt, EndsAt;
    ClippedStarts(lower, limit, lane);
    ClippedEndsAt(upper, limit, lane);
    ClippedEndsAt(upper, limit, Min(lower.lane, limit));
    assert StartsAt(lower, lower.lane);
  }

  /**
   * After clipping, the lines entering a row are those leaving the row above it and,
   * when the row opens a tip, the tip's own lane; nothing else.
   */
  lemma ClippedRowsConnect(items: seq<Commit>, head: Option<nat>, reserve: bool, limit: nat, i: nat, lane: nat)
    requires Topological(items) && i + 1 < |items|
    requires head.Some? ==> reserve && head.value < |items|
    ensures var chain := Chain(items, head);
      var upper := LimitRow(RowAt(items, chain, reserve, i), limit);
      var lower := LimitRow(RowAt(items, chain, reserve, i + 1), limit);
      StartsAt(lower, lane) <==>
        EndsAt(upper, lane)
        || (OpensTip(RowAt(items, chain, reserve, i + 1), LanesAt(items, chain, reserve, i + 1)) && lane == lower.lane)
  {
    var chain := Chain(items, head);
    ChainIsChain(items, head);
    var upper, lower := RowAt(items, chain, reserve, i), RowAt(items, chain, reserve, i + 1);
    forall a: nat
      ensures StartsAt(lower, a) <==> EndsAt(upper, a) || a == lower.lane
      ensures EndsAt(upper, a) <==> Lit(LanesAt(items, chain, reserve, i + 1), a)
    {
      LaidOutRowsMeet(items, chain, reserve, i, a);
    }
    hide LimitRow, StartsAt, EndsAt, RowAt, LanesAt, Lit, Chain, Topological, IsChain;
    ClippedMeet(upper, lower, limit, lane);
  }

  lemma LaidOutRowsMeet(items: seq<Commit>, chain: seq<nat>, reserve: bool, i: nat, lane: nat)
    requires Layout(items, chain, reserve) && i + 1 < |items|
    ensures var upper, lower := RowAt(items, chain, reserve, i), RowAt(items, chain, reserve, i + 1);
      && (StartsAt(lower, lane) <==> EndsAt(upper, lane) || lane == lower.lane)
      && (EndsAt(upper, lane) <==> Lit(LanesAt(items, chain, reserve, i + 1), lane))
  {
    hide RowDrawn, StartsAt, EndsAt, Lit, Topological, IsChain, Boundary, NodeLane, Open, RowAt, LanesAt;
    RowIsDrawn(items, chain, reserve, i);
    RowIsDrawn(items, chain, reserve, i + 1);
    var above, lanes := LanesAt(items, chain, reserve, i), LanesAt(items, chain, reserve, i + 1);
    RowsMeet(items[i], RowAt(items, chain, reserve, i), above, Open(above, items[i].id, i in chain, reserve), lanes,
             items[i + 1], RowAt(items, chain, reserve, i + 1), LanesAt(items, chain, reserve, i + 2),
             i + 1 in chain, reserve, lane);
  }

  lemma RowIsDrawn(items: seq<Commit>, chain: seq<nat>, reserve: bool, i: nat)
    requires Layout(items, chain, reserve) && i < |items|
    ensures var lanes, oid, onChain := LanesAt(items, chain, reserve, i), items[i].id, i in chain;
      && Boundary(lanes, reserve) && Expecting(lanes, oid, onChain, reserve)
      && RowDrawn(items[i], RowAt(items, chain, reserve, i), lanes, Open(lanes, oid, onChain, reserve),
                  LanesAt(items, chain, reserve, i + 1))
      && RowAt(items, chain, reserve, i).lane == NodeLane(Open(lanes, oid, onChain, reserve), oid, onChain)
  {
    hide RowDrawn, Topological, IsChain, Boundary, NodeLane, Open, After;
    var lanes := LanesAt(items, chain, reserve, i);
    BoundaryHolds(items, chain, reserve, i);
    AtRowExpects(items, chain, reserve, i, lanes);
    StepDraws(lanes, items[i], i in chain, reserve);
  }

  // --------------------------------------------------------------- lanes in use

  lemma {:induction false} EdgeLanesAtMost(edges: seq<Edge>, n: nat, start: nat, bound: nat)
    requires n <= |edges| && start <= bound
    requires forall i :: 0 <= i < n ==> edges[i].from < bound && edges[i].to < bound
    ensures EdgeLanes(edges, n, start) <= bound
  {
    if n > 0 {
      EdgeLanesAtMost(edges, n - 1, start, bound);
    }
  }

  lemma LimitedEdges(row: Row, limit: nat)
    ensures RowBelow(LimitRow(row, limit), limit + 1)
  {
    hide Unique;
    if !RowBelow(row, limit) {
      UniqueHas(ClipEdges(row.passThrough, limit));
      UniqueHas(ClipEdges(row.incoming, limit));
      UniqueHas(ClipEdges(row.outgoing, limit));
      var r := LimitRow(row, limit);
      assert forall i :: 0 <= i < |r.passThrough| ==> r.passThrough[i] in r.passThrough;
      assert forall i :: 0 <= i < |r.incoming| ==> r.incoming[i] in r.incoming;
      assert forall i :: 0 <= i < |r.outgoing| ==> r.outgoing[i] in r.outgoing;
    }
  }

  ghost predicate WithinLimit(row: Row, limit: nat) {
    RowBelow(row, limit + 1) && (row.overflowLane.Some? ==> row.overflowLane.value == limit)
  }

  lemma {:induction false} CountedLanes(rows: seq<Row>, limit: nat, start: nat, n: nat)
    requires n <= |rows| && start <= limit + 1
    requires forall i :: 0 <= i < n ==> WithinLimit(rows[i], limit)
    ensures start <= LaneCount(rows, start, n) <= limit + 1
    ensures forall i :: 0 <= i < n ==> RowBelow(rows[i], LaneCount(rows, start, n))
  {
    if n > 0 {
      CountedLanes(rows, limit, start, n - 1);
      var before := LaneCount(rows, start, n - 1);
      LaneCountStep(rows[n - 1], before, limit);
      forall i | 0 <= i < n - 1 ensures RowBelow(rows[i], LaneCount(rows, start, n)) {
        RowBelowMore(rows[i], before, LaneCount(rows, start, n));
      }
    }
  }

  lemma RowBelowMore(row: Row, limit: nat, more: nat)
    requires RowBelow(row, limit) && limit <= more
    ensures RowBelow(row, more)
  {
  }

  lemma LaneCountStep(row: Row, before: nat, limit: nat)
    requires WithinLimit(row, limit) && before <= limit + 1
    ensures before <= RowLanes(row, before) <= limit + 1
    ensures RowBelow(row, RowLanes(row, before))
  {
    var a := Max(before, Max(row.lane + 1, if row.overflowLane.Some? then row.overflowLane.value + 1 else 0));
    EdgeLanesAtMost(row.passThrough, |row.passThrough|, a, limit + 1);
    var b := EdgeLanes(row.passThrough, |row.passThrough|, a);
    EdgeLanesAtMost(row.incoming, |row.incoming|, b, limit + 1);
    var c := EdgeLanes(row.incoming, |row.incoming|, b);
    EdgeLanesAtMost(row.outgoing, |row.outgoing|, c, limit + 1);
  }

  /** Every lane of every drawn row is below laneCount, which is at most one more than the limit. */
  lemma LaneCountBounds(items: seq<Commit>, chain: seq<nat>, reserve: bool, limit: nat)
    requires chain != [] ==> reserve
    ensures var rows := GraphRows(items, chain, reserve, limit);
      var laneCount := LaneCount(rows, Start(reserve), |rows|);
      laneCount <= limit + 1 && forall i :: 0 <= i < |rows| ==> RowBelow(rows[i], laneCount)
  {
    var unclipped := UnclippedRows(items, chain, reserve);
    var rows := GraphRows(items, chain, reserve, limit);
    forall i | 0 <= i < |rows| ensures WithinLimit(rows[i], limit) {
      LimitedEdges(unclipped[i], limit);
    }
    CountedLanes(rows, limit, Start(reserve), |rows|);
  }

  lemma {:induction false} EdgeLanesTouch(edges: seq<Edge>, n: nat, start: nat)
    requires n <= |edges|
    ensures EdgeLanes(edges, n, start) > start ==> OnLane(edges, EdgeLanes(edges, n, start) - 1)
  {
    if n > 0 {
      EdgeLanesTouch(edges, n - 1, start);
    }
  }

  lemma RowLanesTouch(row: Row, start: nat)
    requires row.overflowLane.Some? ==> Touches(row, row.overflowLane.value)
    ensures RowLanes(row, start) > start ==> Touches(row, RowLanes(row, start) - 1)
  {
    var a := Max(start, Max(row.lane + 1, if row.overflowLane.Some? then row.overflowLane.value + 1 else 0));
    var b := EdgeLanes(row.passThrough, |row.passThrough|, a);
    var c := EdgeLanes(row.incoming, |row.incoming|, b);
    EdgeLanesTouch(row.passThrough, |row.passThrough|, a);
    EdgeLanesTouch(row.incoming, |row.incoming|, b);
    EdgeLanesTouch(row.outgoing, |row.outgoing|, c);
  }

  lemma EndsOnLane(edges: seq<Edge>, from: nat, to: nat)
    requires HasEnds(edges, from, to)
    ensures OnLane(edges, from) && OnLane(edges, to)
  {
  }

  lemma ClippedOnLane(edges: seq<Edge>, clipped: seq<Edge>, limit: nat)
    requires ClipsTo(edges, clipped, limit) && !EdgesBelow(edges, limit)
    ensures OnLane(clipped, limit)
  {
    var i :| 0 <= i < |edges| && (edges[i].from >= limit || edges[i].to >= limit);
    assert HasEnds(edges, edges[i].from, edges[i].to);
    EndsOnLane(clipped, Min(edges[i].from, limit), Min(edges[i].to, limit));
  }

  lemma OverflowIsTouched(row: Row, limit: nat)
    requires row.overflowLane == None
    ensures var r := LimitRow(row, limit); r.overflowLane.Some? ==> Touches(r, r.overflowLane.value)
  {
    hide Unique, OnLane;
    var r := LimitRow(row, limit);
    LimitedEnds(row, limit);
    if r.overflowLane.Some? {
      if !EdgesBelow(row.passThrough, limit) {
        ClippedOnLane(row.passThrough, r.passThrough, limit);
      } else if !EdgesBelow(row.incoming, limit) {
        ClippedOnLane(row.incoming, r.incoming, limit);
      } else if !EdgesBelow(row.outgoing, limit) {
        ClippedOnLane(row.outgoing, r.outgoing, limit);
      }
    }
  }

  lemma {:induction false} LaneCountTouch(rows: seq<Row>, start: nat, n: nat)
    requires n <= |rows|
    requires forall i :: 0 <= i < n && rows[i].overflowLane.Some? ==> Touches(rows[i], rows[i].overflowLane.value)
    ensures LaneCount(rows, start, n) > start ==>
              exists i :: 0 <= i < n && Touches(rows[i], LaneCount(rows, start, n) - 1)
  {
    hide RowLanes, Touches;
    if n > 0 {
      LaneCountTouch(rows, start, n - 1);
      RowLanesTouch(rows[n - 1], LaneCount(rows, start, n - 1));
      RowLanesGrow(rows[n - 1], LaneCount(rows, start, n - 1));
    }
  }

  lemma RowLanesGrow(row: Row, start: nat)
    ensures RowLanes(row, start) >= start
  {
  }

  /** laneCount is no larger than the drawn rows need: the reserved lane, or one past a lane some row uses. */
  lemma LaneCountIsNeeded(items: seq<Commit>, chain: seq<nat>, reserve: bool, limit: nat)
    requires chain != [] ==> reserve
    ensures var rows := GraphRows(items, chain, reserve, limit);
      var laneCount := LaneCount(rows, Start(reserve), |rows|);
      laneCount > Start(reserve) ==> exists i :: 0 <= i < |rows| && Touches(rows[i], laneCount - 1)
  {
    hide Touches, RowOf, LimitRow;
    var unclipped := UnclippedRows(items, chain, reserve);
    var rows := GraphRows(items, chain, reserve, limit);
    forall i | 0 <= i < |rows| && rows[i].overflowLane.Some?
      ensures Touches(rows[i], rows[i].overflowLane.value)
    {
      NoOverflowYet(LanesAt(items, chain, reserve, i), items[i], i in chain, reserve);
      OverflowIsTouched(unclipped[i], limit);
    }
    LaneCountTouch(rows, Start(reserve), |rows|);
  }

  lemma NoOverflowYet(lanes: seq<Lane>, commit: Commit, onChain: bool, reserve: bool)
    requires (reserve ==> |lanes| > 0) && (onChain ==> reserve)
    ensures RowOf(lanes, commit, onChain, reserve).overflowLane == None
  {
  }
}
