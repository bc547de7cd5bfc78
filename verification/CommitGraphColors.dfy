/**
 * The colours of the drawn lines: a line has one colour from row to row, with the one
 * exception of a line that runs into the default branch's lane.
 */
module CommitGraphColors {
  import opened Common
  import opened CommitGraph
  import opened CommitGraphProofs
  import opened CommitGraphClipping

  // -------------------------------------------- which lane compaction keeps

  /** A lane that is kept is the first of its commit. */
  lemma {:induction false} KeptIsFirst(lanes: seq<Lane>, reserve: bool, n: nat, s: nat, t: nat)
    requires n <= |lanes| && (reserve ==> n > 0) && s in Kept(lanes, reserve, n) && t < s
    requires lanes[s].Active? && lanes[t].Active?
    ensures lanes[s].oid != lanes[t].oid
    decreases n
  {
    var before := Kept(lanes, reserve, n - 1);
    if s in before {
      KeptIsFirst(lanes, reserve, n - 1, s, t);
    } else {
      KeptCarries(lanes, reserve, n - 1, t);
    }
  }

  predicate IsFirst(lanes: seq<Lane>, m: nat, oid: Oid) {
    Holds(lanes, m, oid) && forall t: nat :: t < m ==> !Holds(lanes, t, oid)
  }

  lemma CompactTakesFirst(lanes: seq<Lane>, reserve: bool, j: nat, m: nat, oid: Oid)
    requires (reserve ==> |lanes| > 0) && Holds(Compact(lanes, reserve), j, oid) && IsFirst(lanes, m, oid)
    ensures Compact(lanes, reserve)[j] == lanes[m]
    ensures reserve ==> (j == 0 <==> m == 0)
  {
    hide Kept;
    var kept := Kept(lanes, reserve, |lanes|);
    assert Holds(lanes, kept[j], oid) && kept[j] in kept;
    if m < kept[j] {
      KeptIsFirst(lanes, reserve, |lanes|, kept[j], m);
    }
    assert reserve && j > 0 ==> kept[0] < kept[j];
  }

  // ------------------------------------------------- lanes while placing parents

  /** Placing a parent changes no lane that is in use. */
  lemma PlaceParentStays(
      cleared: seq<Lane>, before: seq<Lane>, lane: nat, nodeColor: nat, parents: seq<Oid>, k: nat, onChain: bool,
      reserve: bool, i: nat)
    requires Ready(cleared, lane, nodeColor, onChain, reserve) && k < |parents| && |cleared| <= |before|
    requires k == 0 ==> before == cleared
    requires i < |before| && before[i].Active?
    ensures PlaceParent(before, lane, nodeColor, parents[k], k, onChain, reserve)[i] == before[i]
  {
    hide FindOid, FirstFree, LeastUnused, DistinctOids, DistinctColors, MainColor, UsedColors;
    var target := Target(before, lane, parents[k], k, onChain, reserve);
    assert target < |before| && before[target].Active? ==> Holds(before, target, parents[k]);
  }

  lemma {:induction false} PlacedStay(
      cleared: seq<Lane>, lane: nat, nodeColor: nat, parents: seq<Oid>, k: nat, n: nat, onChain: bool, reserve: bool,
      i: nat)
    requires Ready(cleared, lane, nodeColor, onChain, reserve) && k <= n <= |parents|
    requires var before := PlaceParents(cleared, lane, nodeColor, parents, k, onChain, reserve);
      i < |before| && before[i].Active?
    ensures var before := PlaceParents(cleared, lane, nodeColor, parents, k, onChain, reserve);
      var after := PlaceParents(cleared, lane, nodeColor, parents, n, onChain, reserve);
      i < |after| && after[i] == before[i]
    decreases n
  {
    hide PlaceParent;
    if k < n {
      PlacedStay(cleared, lane, nodeColor, parents, k, n - 1, onChain, reserve, i);
      var before := PlaceParents(cleared, lane, nodeColor, parents, n - 1, onChain, reserve);
      PlaceParentStays(cleared, before, lane, nodeColor, parents, n - 1, onChain, reserve, i);
    }
  }

  /** The k-th parent's lane, once all are placed: its first, with the colour of its edge. */
  lemma ParentIsFirst(
      cleared: seq<Lane>, lane: nat, nodeColor: nat, parents: seq<Oid>, k: nat, onChain: bool, reserve: bool)
      returns (m: nat)
    requires Ready(cleared, lane, nodeColor, onChain, reserve) && k < |parents|
    ensures var placed := PlaceParents(cleared, lane, nodeColor, parents, |parents|, onChain, reserve);
      && IsFirst(placed, m, parents[k])
      && placed[m].color == ParentColor(cleared, lane, nodeColor, parents, k, onChain, reserve)
  {
    var before := PlaceParents(cleared, lane, nodeColor, parents, k, onChain, reserve);
    var placed := PlaceParents(cleared, lane, nodeColor, parents, |parents|, onChain, reserve);
    m := Target(before, lane, parents[k], k, onChain, reserve);
    PlacedStay(cleared, lane, nodeColor, parents, k + 1, |parents|, onChain, reserve, m);
    PlaceParentsPlaces(cleared, lane, nodeColor, parents, k, onChain, reserve);
    PlaceParentsPlaces(cleared, lane, nodeColor, parents, |parents|, onChain, reserve);
    forall t: nat | t < m ensures !Holds(placed, t, parents[k]) {
      FirstByThen(cleared, lane, nodeColor, parents, k, onChain, reserve, t, m);
    }
  }

  lemma FirstByThen(
      cleared: seq<Lane>, lane: nat, nodeColor: nat, parents: seq<Oid>, k: nat, onChain: bool, reserve: bool,
      t: nat, m: nat)
    requires Ready(cleared, lane, nodeColor, onChain, reserve) && k < |parents|
    requires var before := PlaceParents(cleared, lane, nodeColor, parents, k, onChain, reserve);
      t < m == Target(before, lane, parents[k], k, onChain, reserve)
    requires Holds(PlaceParents(cleared, lane, nodeColor, parents, |parents|, onChain, reserve), m, parents[k])
    ensures !Holds(PlaceParents(cleared, lane, nodeColor, parents, |parents|, onChain, reserve), t, parents[k])
  {
    var before := PlaceParents(cleared, lane, nodeColor, parents, k, onChain, reserve);
    PlaceParentsPlaces(cleared, lane, nodeColor, parents, k, onChain, reserve);
    PlaceParentsPlaces(cleared, lane, nodeColor, parents, |parents|, onChain, reserve);
    assert onChain && parents[k] == parents[0] ==> m == 0 by {
      if onChain && k > 0 && parents[k] == parents[0] {
        assert Holds(before, 0, parents[k]);
      }
    }
  }

  // ---------------------------------------------------------------- one row

  /** A line into the reserved lane from another one: it runs into the default branch's line. */
  predicate Absorbed(e: Edge, reserve: bool) {
    reserve && e.to == 0 && e.from != 0
  }

  predicate HasColor(lanes: seq<Lane>, lane: nat, color: nat) {
    Lit(lanes, lane) && lanes[lane].color == color
  }

  /** Lines begin in the colour of their lane above the row and end in that of their lane below it. */
  ghost predicate RowColors(row: Row, entry: seq<Lane>, after: seq<Lane>, reserve: bool) {
    && (forall e :: e in row.passThrough || e in row.incoming ==> HasColor(entry, e.from, e.color))
    && (forall e :: e in row.passThrough ==>
          Lit(after, e.to) && (HasColor(after, e.to, e.color) <==> !Absorbed(e, reserve)))
    && (forall e :: e in row.outgoing ==> HasColor(after, e.to, e.color))
  }

  lemma OutgoingColor(lanes: seq<Lane>, commit: Commit, onChain: bool, reserve: bool, k: nat)
    requires Boundary(lanes, reserve) && Expecting(lanes, commit.id, onChain, reserve) && k < |commit.parents|
    ensures var entry := Open(lanes, commit.id, onChain, reserve);
      var lane := NodeLane(entry, commit.id, onChain);
      var cleared, color := Clear(entry, commit.id), NodeColor(entry, lane, onChain);
      var after := After(lanes, commit, onChain, reserve);
      HasColor(after, Bottom(after, commit.parents[k], |after|, lane),
               ParentColor(cleared, lane, color, commit.parents, k, onChain, reserve))
  {
    hide Ready, PlaceParents, Compact, ParentColor, Bottom, NodeColor, Open, Clear;
    var entry := Open(lanes, commit.id, onChain, reserve);
    var lane := NodeLane(entry, commit.id, onChain);
    var cleared, color := Clear(entry, commit.id), NodeColor(entry, lane, onChain);
    ClearIsReady(lanes, commit.id, onChain, reserve);
    var placed := PlaceParents(cleared, lane, color, commit.parents, |commit.parents|, onChain, reserve);
    var m := ParentIsFirst(cleared, lane, color, commit.parents, k, onChain, reserve);
    assert Carries(placed, commit.parents[k]);
    BottomIsFirst(placed, reserve, m, commit.parents[k], lane);
  }

  /** Below the row a commit is found on the lane kept of those that carried it. */
  lemma BottomIsFirst(placed: seq<Lane>, reserve: bool, m: nat, oid: Oid, from: nat)
    requires (reserve ==> |placed| > 0) && IsFirst(placed, m, oid)
    ensures var after := Compact(placed, reserve);
      var j := Bottom(after, oid, |after|, from);
      j < |after| && after[j] == placed[m] && (reserve ==> (j == 0 <==> m == 0))
  {
    hide Compact;
    var after := Compact(placed, reserve);
    assert Carries(placed, oid);
    CompactCarries(placed, reserve, oid);
    var i: nat :| Holds(after, i, oid);
    var j := Bottom(after, oid, |after|, from);
    CompactTakesFirst(placed, reserve, j, m, oid);
  }

  lemma PassThroughColor(lanes: seq<Lane>, commit: Commit, onChain: bool, reserve: bool, i: nat)
    requires Boundary(lanes, reserve) && Expecting(lanes, commit.id, onChain, reserve)
    requires var entry := Open(lanes, commit.id, onChain, reserve);
      i < |entry| && entry[i].Active? && entry[i].oid != commit.id
    ensures var entry, after := Open(lanes, commit.id, onChain, reserve), After(lanes, commit, onChain, reserve);
      var to := Bottom(after, entry[i].oid, |after|, i);
      Lit(after, to) && (HasColor(after, to, entry[i].color) <==> !(reserve && to == 0 && i != 0))
  {
    var entry := Open(lanes, commit.id, onChain, reserve);
    var lane := NodeLane(entry, commit.id, onChain);
    var cleared, color := Clear(entry, commit.id), NodeColor(entry, lane, onChain);
    ClearIsReady(lanes, commit.id, onChain, reserve);
    OpenKeeps(lanes, commit.id, onChain, reserve);
    var n := |commit.parents|;
    PlacedStay(cleared, lane, color, commit.parents, 0, n, onChain, reserve, i);
    PlaceParentsPlaces(cleared, lane, color, commit.parents, n, onChain, reserve);
    var placed := PlaceParents(cleared, lane, color, commit.parents, n, onChain, reserve);
    var oid := entry[i].oid;
    var m := if onChain && Holds(placed, 0, oid) then 0 else i;
    FirstOrMain(placed, onChain, i, oid);
    BottomIsFirst(placed, reserve, m, oid, i);
  }

  lemma FirstOrMain(lanes: seq<Lane>, onChain: bool, i: nat, oid: Oid)
    requires DistinctOids(lanes, if onChain then 1 else 0) && Holds(lanes, i, oid)
    ensures IsFirst(lanes, if onChain && Holds(lanes, 0, oid) then 0 else i, oid)
  {
  }

  lemma RowHasColors(lanes: seq<Lane>, commit: Commit, onChain: bool, reserve: bool)
    requires Boundary(lanes, reserve) && Expecting(lanes, commit.id, onChain, reserve)
    ensures RowColors(RowOf(lanes, commit, onChain, reserve), Open(lanes, commit.id, onChain, reserve),
                      After(lanes, commit, onChain, reserve), reserve)
  {
    hide Boundary, Open, After, Unique, Bottom, PlaceParents, ParentColor, NodeColor;
    var entry, after := Open(lanes, commit.id, onChain, reserve), After(lanes, commit, onChain, reserve);
    var lane := NodeLane(entry, commit.id, onChain);
    var passing := PassThrough(entry, commit.id, after, |entry|);
    var arriving := Incoming(entry, commit.id, lane, |entry|);
    var leaving := Outgoing(Clear(entry, commit.id), lane, NodeColor(entry, lane, onChain), commit.parents, onChain,
                            reserve, after);
    UniqueHas(passing);
    UniqueHas(arriving);
    UniqueHas(leaving);
    forall e | e in Unique(passing)
      ensures Lit(after, e.to) && (HasColor(after, e.to, e.color) <==> !Absorbed(e, reserve))
    {
      PassThroughColor(lanes, commit, onChain, reserve, e.from);
    }
    forall e | e in Unique(leaving) ensures HasColor(after, e.to, e.color) {
      var k :| 0 <= k < |leaving| && leaving[k] == e;
      OutgoingColor(lanes, commit, onChain, reserve, k);
    }
  }

  // ----------------------------------------------------------- the whole layout

  /** Two rows that share the lanes between them. */
  lemma MeetingColors(
      upper: Row, lower: Row, upperEntry: seq<Lane>, lanes: seq<Lane>, lowerEntry: seq<Lane>, below: seq<Lane>,
      reserve: bool, e: Edge, f: Edge)
    requires RowColors(upper, upperEntry, lanes, reserve) && RowColors(lower, lowerEntry, below, reserve)
    requires |lanes| <= |lowerEntry| && forall i :: 0 <= i < |lanes| && lanes[i].Active? ==> lowerEntry[i] == lanes[i]
    requires e in upper.passThrough || e in upper.outgoing
    requires f in lower.passThrough || f in lower.incoming
    requires f.from == e.to && (e in upper.passThrough ==> e !in upper.outgoing)
    ensures e.color == f.color <==> !(e in upper.passThrough && Absorbed(e, reserve))
  {
  }

  /** Lines that pass by do not begin where the row's own lines begin. */
  lemma PassingIsNotLeaving(lanes: seq<Lane>, commit: Commit, onChain: bool, reserve: bool, e: Edge)
    requires (reserve ==> |lanes| > 0) && (onChain ==> reserve)
    requires e in RowOf(lanes, commit, onChain, reserve).passThrough
    ensures e !in RowOf(lanes, commit, onChain, reserve).outgoing
  {
    hide Open, After, Unique, Bottom, PlaceParents, ParentColor, NodeColor;
    var entry, after := Open(lanes, commit.id, onChain, reserve), After(lanes, commit, onChain, reserve);
    var lane := NodeLane(entry, commit.id, onChain);
    UniqueHas(PassThrough(entry, commit.id, after, |entry|));
    UniqueHas(Outgoing(Clear(entry, commit.id), lane, NodeColor(entry, lane, onChain), commit.parents, onChain,
                       reserve, after));
  }

  /**
   * Where one line ends and the next row's begins the colour stays the same, except exactly
   * where a passing line runs from another lane into the default branch's.
   */
  lemma LinesKeepTheirColor(items: seq<Commit>, head: Option<nat>, reserve: bool, i: nat, e: Edge, f: Edge)
    requires Topological(items) && i + 1 < |items|
    requires head.Some? ==> reserve && head.value < |items|
    requires var upper := RowAt(items, Chain(items, head), reserve, i);
      e in upper.passThrough || e in upper.outgoing
    requires var lower := RowAt(items, Chain(items, head), reserve, i + 1);
      (f in lower.passThrough || f in lower.incoming) && f.from == e.to
    ensures var upper := RowAt(items, Chain(items, head), reserve, i);
      e.color == f.color <==> !(e in upper.passThrough && Absorbed(e, reserve))
  {
    hide RowOf, Chain, RowDrawn, RowColors, Absorbed, Topological, IsChain, Boundary, Open, NodeLane, After;
    var chain := Chain(items, head);
    ChainIsChain(items, head);
    RowIsDrawn(items, chain, reserve, i);
    RowIsDrawn(items, chain, reserve, i + 1);
    var above, lanes := LanesAt(items, chain, reserve, i), LanesAt(items, chain, reserve, i + 1);
    var upperEntry := Open(above, items[i].id, i in chain, reserve);
    var lowerEntry := Open(lanes, items[i + 1].id, i + 1 in chain, reserve);
    RowHasColors(above, items[i], i in chain, reserve);
    RowHasColors(lanes, items[i + 1], i + 1 in chain, reserve);
    OpenKeeps(lanes, items[i + 1].id, i + 1 in chain, reserve);
    if e in RowAt(items, chain, reserve, i).passThrough {
      PassingIsNotLeaving(above, items[i], i in chain, reserve, e);
    }
    MeetingColors(RowAt(items, chain, reserve, i), RowAt(items, chain, reserve, i + 1), upperEntry, lanes,
                  lowerEntry, LanesAt(items, chain, reserve, i + 2), reserve, e, f);
  }
}
