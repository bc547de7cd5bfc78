/**
 * What the commit graph promises: the drawn edges are the parent relation, lane 0 is
 * the default branch, and clipping breaks no line.
 */
module CommitGraphProofs {
  import opened Common
  import opened CommitGraph

  // ------------------------------------------------------- the lane invariant

  ghost predicate DistinctOids(lanes: seq<Lane>, start: nat) {
    forall i, j :: start <= i < j < |lanes| && lanes[i].Active? && lanes[j].Active? ==> lanes[i].oid != lanes[j].oid
  }

  ghost predicate DistinctColors(lanes: seq<Lane>) {
    forall i, j :: 0 <= i < j < |lanes| && lanes[i].Active? && lanes[j].Active? ==> lanes[i].color != lanes[j].color
  }

  /** With a reserved lane, the default colour belongs to lane 0 alone. */
  ghost predicate MainColor(lanes: seq<Lane>, reserve: bool) {
    reserve ==> forall i :: 0 <= i < |lanes| && lanes[i].Active? ==> (i == 0 <==> lanes[i].color == DEFAULT_COLOR)
  }

  ghost predicate Carries(lanes: seq<Lane>, oid: Oid) {
    exists i: nat :: Holds(lanes, i, oid)
  }

  /** What holds of the lanes at every row boundary. */
  ghost predicate Boundary(lanes: seq<Lane>, reserve: bool) {
    && (reserve ==> |lanes| > 0)
    && (forall i :: Start(reserve) <= i < |lanes| ==> lanes[i].Active?)
    && DistinctOids(lanes, 0)
    && DistinctColors(lanes)
    && MainColor(lanes, reserve)
  }

  /** What the chain knows about lane 0 when a commit is reached. */
  ghost predicate Expecting(lanes: seq<Lane>, oid: Oid, onChain: bool, reserve: bool) {
    && (onChain ==> reserve)
    && (reserve ==> |lanes| > 0)
    && (onChain ==> lanes[0].Empty? || lanes[0].oid == oid)
    && (reserve && !onChain ==> !Holds(lanes, 0, oid))
  }

  // ---------------------------------------------------------- opening a commit

  lemma OpenKeeps(lanes: seq<Lane>, oid: Oid, onChain: bool, reserve: bool)
    requires Boundary(lanes, reserve) && Expecting(lanes, oid, onChain, reserve)
    ensures var entry := Open(lanes, oid, onChain, reserve);
      && (forall i :: 0 <= i < |lanes| && lanes[i].Active? ==> entry[i] == lanes[i])
      && (forall i :: 0 <= i < |entry| && entry[i].Active? && (i >= |lanes| || lanes[i].Empty?) ==> entry[i].oid == oid)
      && DistinctColors(entry) && MainColor(entry, reserve)
  {
    var entry := Open(lanes, oid, onChain, reserve);
    var held := LanesOf(lanes, oid, |lanes|);
    if !(onChain && 0 !in held) && held == [] {
      var color := FreeColor(lanes, reserve);
      assert forall i :: 0 <= i < |lanes| && lanes[i].Active? ==> lanes[i].color in UsedColors(lanes);
    } else if onChain && 0 !in held {
      assert !Holds(lanes, 0, oid);
    }
  }

  /** The lanes are ready for parents: the commit's lane and colour are free. */
  ghost predicate Ready(lanes: seq<Lane>, lane: nat, nodeColor: nat, onChain: bool, reserve: bool) {
    && lane < |lanes| && lanes[lane].Empty?
    && DistinctOids(lanes, 0) && DistinctColors(lanes) && MainColor(lanes, reserve)
    && nodeColor !in UsedColors(lanes)
    && (onChain ==> reserve && lane == 0)
    && (reserve ==> (onChain <==> lane == 0) && (lane == 0 <==> nodeColor == DEFAULT_COLOR))
  }

  lemma ClearIsReady(lanes: seq<Lane>, oid: Oid, onChain: bool, reserve: bool)
    requires Boundary(lanes, reserve) && Expecting(lanes, oid, onChain, reserve)
    ensures var entry := Open(lanes, oid, onChain, reserve);
      var lane := NodeLane(entry, oid, onChain);
      var cleared := Clear(entry, oid);
      && Ready(cleared, lane, NodeColor(entry, lane, onChain), onChain, reserve)
      && (forall x :: Carries(cleared, x) <==> x != oid && Carries(lanes, x))
      && (reserve && !onChain ==> cleared[0] == lanes[0])
      && (reserve ==> (onChain <==> lane == 0))
  {
    OpenKeeps(lanes, oid, onChain, reserve);
    var entry := Open(lanes, oid, onChain, reserve);
    var lane := NodeLane(entry, oid, onChain);
    var cleared := Clear(entry, oid);
    var nodeColor := NodeColor(entry, lane, onChain);
    assert nodeColor == entry[lane].color;
    forall i, j | 0 <= i < j < |cleared| && cleared[i].Active? && cleared[j].Active?
      ensures cleared[i].oid != cleared[j].oid
    {
      assert cleared[i] == entry[i] == lanes[i] && cleared[j] == entry[j] == lanes[j];
    }
    forall x ensures Carries(cleared, x) <==> x != oid && Carries(lanes, x) {
      if Carries(cleared, x) {
        var i: nat :| Holds(cleared, i, x);
        assert Holds(lanes, i, x);
      }
      if x != oid && Carries(lanes, x) {
        var i: nat :| Holds(lanes, i, x);
        assert Holds(cleared, i, x);
      }
    }
    if reserve && !onChain {
      assert !Holds(entry, 0, oid);
    }
  }

  // --------------------------------------------------------- placing the parents

  ghost predicate Placed(lanes: seq<Lane>, cleared: seq<Lane>, parents: seq<Oid>, k: nat, onChain: bool, reserve: bool)
    requires k <= |parents|
    requires 0 < |cleared| <= |lanes|
  {
    && DistinctOids(lanes, if onChain then 1 else 0)
    && DistinctColors(lanes) && MainColor(lanes, reserve)
    && (forall x :: Carries(lanes, x) <==> Carries(cleared, x) || x in parents[..k])
    && (reserve && (!onChain || k == 0) ==> lanes[0] == cleared[0])
    && (onChain && k > 0 ==> lanes[0] == Active(DEFAULT_COLOR, parents[0]))
  }

  lemma {:induction false} SetCarries(lanes: seq<Lane>, target: nat, value: Lane)
    requires target <= |lanes| && (target < |lanes| ==> lanes[target].Empty?) && value.Active?
    ensures forall x :: Carries(SetLane(lanes, target, value), x) <==> Carries(lanes, x) || x == value.oid
  {
    var r := SetLane(lanes, target, value);
    forall x ensures Carries(r, x) <==> Carries(lanes, x) || x == value.oid {
      assert Holds(r, target, value.oid);
      if Carries(r, x) && x != value.oid {
        var i: nat :| Holds(r, i, x);
        assert Holds(lanes, i, x);
      }
      if Carries(lanes, x) {
        var i: nat :| Holds(lanes, i, x);
        assert Holds(r, i, x);
      }
    }
  }

  /** Filling an empty lane with a new colour and commit keeps lanes apart. */
  lemma SetLaneKeeps(lanes: seq<Lane>, target: nat, value: Lane, start: nat, reserve: bool)
    requires target <= |lanes| && (target < |lanes| ==> lanes[target].Empty?) && value.Active?
    requires DistinctOids(lanes, start) && DistinctColors(lanes) && MainColor(lanes, reserve)
    requires value.color !in UsedColors(lanes) && (reserve ==> (target == 0 <==> value.color == DEFAULT_COLOR))
    requires target >= start ==> forall i :: start <= i < |lanes| && lanes[i].Active? ==> lanes[i].oid != value.oid
    ensures var r := SetLane(lanes, target, value);
      && DistinctOids(r, start) && DistinctColors(r) && MainColor(r, reserve)
      && r[target] == value && forall i :: 0 <= i < |lanes| && i != target ==> r[i] == lanes[i]
  {
    assert forall i :: 0 <= i < |lanes| && lanes[i].Active? ==> lanes[i].color in UsedColors(lanes);
  }

  lemma OneMorePlaced(
      cleared: seq<Lane>, before: seq<Lane>, lane: nat, nodeColor: nat, parents: seq<Oid>, k: nat, onChain: bool,
      reserve: bool)
    requires Ready(cleared, lane, nodeColor, onChain, reserve) && k < |parents| && |cleared| <= |before|
    requires k == 0 ==> before == cleared
    requires Placed(before, cleared, parents, k, onChain, reserve)
    ensures Placed(PlaceParent(before, lane, nodeColor, parents[k], k, onChain, reserve), cleared, parents, k + 1,
                   onChain, reserve)
  {
    hide FindOid, FirstFree, LeastUnused, DistinctOids, DistinctColors, MainColor, Carries, UsedColors;
    var parent := parents[k];
    var target := Target(before, lane, parent, k, onChain, reserve);
    var color := TargetColor(before, target, nodeColor, k, reserve);
    assert parents[..k + 1] == parents[..k] + [parent];
    if target < |before| && before[target].Active? {
      assert Holds(before, target, parent);
      assert PlaceParent(before, lane, nodeColor, parent, k, onChain, reserve) == before;
      HoldsCarries(before, target, parent);
    } else {
      forall i: nat | (if onChain then 1 else 0) <= i < |before| && before[i].Active? && (!onChain || k > 0)
        ensures before[i].oid != parent
      {
        assert !Holds(before, i, parent);
      }
      SetCarries(before, target, Active(color, parent));
      SetLaneKeeps(before, target, Active(color, parent), if onChain then 1 else 0, reserve);
    }
  }

  lemma HoldsCarries(lanes: seq<Lane>, i: nat, oid: Oid)
    requires Holds(lanes, i, oid)
    ensures Carries(lanes, oid)
  {
  }

  lemma NothingPlaced(
      cleared: seq<Lane>, lane: nat, nodeColor: nat, parents: seq<Oid>, onChain: bool, reserve: bool)
    requires Ready(cleared, lane, nodeColor, onChain, reserve)
    ensures Placed(cleared, cleared, parents, 0, onChain, reserve)
  {
  }

  lemma {:induction false} PlaceParentsPlaces(
      cleared: seq<Lane>, lane: nat, nodeColor: nat, parents: seq<Oid>, k: nat, onChain: bool, reserve: bool)
    requires Ready(cleared, lane, nodeColor, onChain, reserve)
    requires k <= |parents|
    ensures Placed(PlaceParents(cleared, lane, nodeColor, parents, k, onChain, reserve), cleared, parents, k, onChain,
                   reserve)
    decreases k
  {
    hide Placed, PlaceParent;
    if k == 0 {
      NothingPlaced(cleared, lane, nodeColor, parents, onChain, reserve);
    } else {
      PlaceParentsPlaces(cleared, lane, nodeColor, parents, k - 1, onChain, reserve);
      var before := PlaceParents(cleared, lane, nodeColor, parents, k - 1, onChain, reserve);
      OneMorePlaced(cleared, before, lane, nodeColor, parents, k - 1, onChain, reserve);
    }
  }

  // ---------------------------------------------------------------- compaction

  ghost predicate KeptWell(lanes: seq<Lane>, kept: seq<nat>, start: nat)
    requires forall j :: 0 <= j < |kept| ==> kept[j] < |lanes|
  {
    && (forall j, k :: 0 <= j < k < |kept| && lanes[kept[j]].Active? && lanes[kept[k]].Active? ==>
        lanes[kept[j]].oid != lanes[kept[k]].oid)
    && (forall j :: start <= j < |kept| ==> lanes[kept[j]].Active?)
  }

  lemma {:induction false} KeptIsDistinct(lanes: seq<Lane>, reserve: bool, n: nat)
    requires n <= |lanes| && (reserve ==> n > 0)
    ensures KeptWell(lanes, Kept(lanes, reserve, n), Start(reserve))
    decreases n
  {
    hide OidsAt;
    if n > Start(reserve) {
      var r := Kept(lanes, reserve, n - 1);
      KeptIsDistinct(lanes, reserve, n - 1);
      if lanes[n - 1].Active? && lanes[n - 1].oid !in OidsAt(lanes, r) {
        KeptOneMore(lanes, r, n - 1, Start(reserve));
      }
    } else {
      assert |Kept(lanes, reserve, n)| == n;
    }
  }

  lemma KeptOneMore(lanes: seq<Lane>, kept: seq<nat>, last: nat, start: nat)
    requires forall j :: 0 <= j < |kept| ==> kept[j] < |lanes|
    requires KeptWell(lanes, kept, start)
    requires last < |lanes| && lanes[last].Active? && lanes[last].oid !in OidsAt(lanes, kept)
    ensures KeptWell(lanes, kept + [last], start)
  {
    var more := kept + [last];
    assert forall j :: 0 <= j < |kept| ==> more[j] == kept[j] && kept[j] in kept;
    forall j | 0 <= j < |kept| && lanes[kept[j]].Active? ensures lanes[kept[j]].oid != lanes[last].oid {
      assert lanes[kept[j]].oid in OidsAt(lanes, kept);
    }
  }

  lemma {:induction false} KeptCarries(lanes: seq<Lane>, reserve: bool, n: nat, i: nat)
    requires i < n <= |lanes| && lanes[i].Active?
    ensures lanes[i].oid in OidsAt(lanes, Kept(lanes, reserve, n))
    decreases n
  {
    var kept := Kept(lanes, reserve, n);
    if n == 1 && reserve {
      assert 0 in kept;
    } else {
      var r := Kept(lanes, reserve, n - 1);
      assert forall s :: s in r ==> s in kept;
      if i < n - 1 {
        KeptCarries(lanes, reserve, n - 1, i);
      } else if kept != r {
        assert n - 1 in kept;
      }
    }
  }

  lemma CompactCarries(lanes: seq<Lane>, reserve: bool, x: Oid)
    requires reserve ==> |lanes| > 0
    ensures Carries(Compact(lanes, reserve), x) <==> Carries(lanes, x)
  {
    hide Kept;
    var kept := Kept(lanes, reserve, |lanes|);
    var r := Compact(lanes, reserve);
    if Carries(r, x) {
      var i: nat :| Holds(r, i, x);
      assert Holds(lanes, kept[i], x);
    }
    if Carries(lanes, x) {
      var i: nat :| Holds(lanes, i, x);
      KeptCarries(lanes, reserve, |lanes|, i);
      var s :| s in kept && lanes[s].Active? && lanes[s].oid == x;
      var j :| 0 <= j < |kept| && kept[j] == s;
      assert Holds(r, j, x);
    }
  }

  lemma CompactKeeps(lanes: seq<Lane>, reserve: bool)
    requires reserve ==> |lanes| > 0
    requires DistinctColors(lanes) && MainColor(lanes, reserve)
    ensures Boundary(Compact(lanes, reserve), reserve)
    ensures forall x :: Carries(Compact(lanes, reserve), x) <==> Carries(lanes, x)
    ensures reserve ==> Compact(lanes, reserve)[0] == lanes[0]
  {
    hide Kept, Carries;
    var kept := Kept(lanes, reserve, |lanes|);
    var r := Compact(lanes, reserve);
    KeptIsDistinct(lanes, reserve, |lanes|);
    forall x ensures Carries(r, x) <==> Carries(lanes, x) {
      CompactCarries(lanes, reserve, x);
    }
    if reserve {
      forall i | 0 <= i < |r| && r[i].Active? ensures i == 0 <==> r[i].color == DEFAULT_COLOR {
        assert i > 0 ==> kept[0] < kept[i];
      }
    }
  }

  // ------------------------------------------------------------------- one row

  lemma StepKeeps(lanes: seq<Lane>, commit: Commit, onChain: bool, reserve: bool)
    requires Boundary(lanes, reserve) && Expecting(lanes, commit.id, onChain, reserve)
    ensures var after := After(lanes, commit, onChain, reserve);
      && Boundary(after, reserve)
      && (forall x :: Carries(after, x) <==> (x != commit.id && Carries(lanes, x)) || x in commit.parents)
      && (reserve && !onChain ==> after[0] == lanes[0])
      && (onChain ==> after[0] == if commit.parents == [] then Empty else Active(DEFAULT_COLOR, commit.parents[0]))
  {
    ClearIsReady(lanes, commit.id, onChain, reserve);
    var entry := Open(lanes, commit.id, onChain, reserve);
    var lane := NodeLane(entry, commit.id, onChain);
    var cleared := Clear(entry, commit.id);
    var nodeColor := NodeColor(entry, lane, onChain);
    var k := |commit.parents|;
    PlaceParentsPlaces(cleared, lane, nodeColor, commit.parents, k, onChain, reserve);
    assert commit.parents[..k] == commit.parents;
    CompactKeeps(PlaceParents(cleared, lane, nodeColor, commit.parents, k, onChain, reserve), reserve);
  }

  // ---------------------------------------------------------------- unique edges

  lemma {:induction false} UniqueEdgesAre(edges: seq<Edge>, n: nat)
    requires n <= |edges|
    ensures var r := UniqueEdges(edges, n);
      && (forall j :: 0 <= j < |r| ==> exists i :: 0 <= i < n && edges[i] == r[j])
      && (forall i :: 0 <= i < n ==> HasEnds(r, edges[i].from, edges[i].to))
      && (forall j, k :: 0 <= j < k < |r| ==> r[j].from != r[k].from || r[j].to != r[k].to)
    decreases n
  {
    if n > 0 {
      UniqueEdgesAre(edges, n - 1);
      var before := UniqueEdges(edges, n - 1);
      var r := UniqueEdges(edges, n);
      var last := edges[n - 1];
      forall i | 0 <= i < n ensures HasEnds(r, edges[i].from, edges[i].to) {
        if i < n - 1 {
          var j :| 0 <= j < |before| && before[j].from == edges[i].from && before[j].to == edges[i].to;
          assert r[j] == before[j];
        } else if r != before {
          assert r[|before|] == last;
        }
      }
    }
  }

  lemma UniqueHas(edges: seq<Edge>)
    ensures forall e :: e in Unique(edges) ==> e in edges
    ensures forall from: nat, to: nat :: HasEnds(Unique(edges), from, to) <==> HasEnds(edges, from, to)
    ensures forall j, k :: 0 <= j < k < |Unique(edges)| ==>
            Unique(edges)[j].from != Unique(edges)[k].from || Unique(edges)[j].to != Unique(edges)[k].to
  {
    UniqueEdgesAre(edges, |edges|);
    var r := Unique(edges);
    forall from: nat, to: nat ensures HasEnds(r, from, to) <==> HasEnds(edges, from, to) {
      if HasEnds(r, from, to) {
        var j :| 0 <= j < |r| && r[j].from == from && r[j].to == to;
        var i :| 0 <= i < |edges| && edges[i] == r[j];
      }
      if HasEnds(edges, from, to) {
        var i :| 0 <= i < |edges| && edges[i].from == from && edges[i].to == to;
        assert HasEnds(r, edges[i].from, edges[i].to);
      }
    }
  }

  // ------------------------------------------------------------ edges of one row

  /** The three edge lists of an unclipped row, said in terms of the lanes around it. */
  ghost predicate RowDraws(row: Row, entry: seq<Lane>, after: seq<Lane>, commit: Commit) {
    && (forall from: nat, to: nat ::
          HasEnds(row.incoming, from, to) <==> to == row.lane && Holds(entry, from, commit.id))
    && (forall from: nat, to: nat :: HasEnds(row.passThrough, from, to) <==>
          from < |entry| && entry[from].Active? && entry[from].oid != commit.id && Holds(after, to, entry[from].oid))
    && (forall from: nat, to: nat :: HasEnds(row.outgoing, from, to) <==>
          from == row.lane && exists k :: 0 <= k < |commit.parents| && Holds(after, to, commit.parents[k]))
  }

  lemma RowDrawsEdges(lanes: seq<Lane>, commit: Commit, onChain: bool, reserve: bool)
    requires Boundary(lanes, reserve) && Expecting(lanes, commit.id, onChain, reserve)
    ensures RowDraws(RowOf(lanes, commit, onChain, reserve), Open(lanes, commit.id, onChain, reserve),
                     After(lanes, commit, onChain, reserve), commit)
  {
    hide After, Open, MainColor, Unique, PassThrough, Incoming, Outgoing, Bottom, Clear;
    StepKeeps(lanes, commit, onChain, reserve);
    OpenKeeps(lanes, commit.id, onChain, reserve);
    var entry := Open(lanes, commit.id, onChain, reserve);
    var after := After(lanes, commit, onChain, reserve);
    var row := RowOf(lanes, commit, onChain, reserve);
    IncomingEnds(entry, commit.id, row.lane);
    forall i: nat | i < |entry| && entry[i].Active? && entry[i].oid != commit.id ensures Carries(after, entry[i].oid) {
      assert Holds(lanes, i, entry[i].oid);
    }
    PassThroughEnds(entry, commit.id, after);
    OutgoingEnds(Clear(entry, commit.id), row.lane, row.nodeColor, commit.parents, onChain, reserve, after);
  }

  lemma BottomHolds(after: seq<Lane>, oid: Oid, from: nat, to: nat)
    requires Carries(after, oid) && DistinctOids(after, 0)
    ensures Holds(after, to, oid) <==> to == Bottom(after, oid, |after|, from)
  {
    var i: nat :| Holds(after, i, oid);
  }

  lemma IncomingEnds(entry: seq<Lane>, oid: Oid, lane: nat)
    ensures forall from: nat, to: nat ::
              HasEnds(Unique(Incoming(entry, oid, lane, |entry|)), from, to) <==> to == lane && Holds(entry, from, oid)
  {
    var edges := Incoming(entry, oid, lane, |entry|);
    UniqueHas(edges);
    forall from: nat, to: nat ensures HasEnds(edges, from, to) <==> to == lane && Holds(entry, from, oid) {
      if to == lane && Holds(entry, from, oid) {
        assert Edge(entry[from].color, from, lane) in edges;
      }
      if HasEnds(edges, from, to) {
        var i :| 0 <= i < |edges| && edges[i].from == from && edges[i].to == to;
        assert edges[i] in edges;
      }
    }
  }

  lemma PassThroughEnds(entry: seq<Lane>, oid: Oid, after: seq<Lane>)
    requires DistinctOids(after, 0)
    requires forall i: nat :: i < |entry| && entry[i].Active? && entry[i].oid != oid ==> Carries(after, entry[i].oid)
    ensures forall from: nat, to: nat :: HasEnds(Unique(PassThrough(entry, oid, after, |entry|)), from, to) <==>
      from < |entry| && entry[from].Active? && entry[from].oid != oid && Holds(after, to, entry[from].oid)
  {
    var edges := PassThrough(entry, oid, after, |entry|);
    UniqueHas(edges);
    forall from: nat, to: nat ensures HasEnds(edges, from, to) <==>
      from < |entry| && entry[from].Active? && entry[from].oid != oid && Holds(after, to, entry[from].oid)
    {
      if from < |entry| && entry[from].Active? && entry[from].oid != oid {
        BottomHolds(after, entry[from].oid, from, to);
        assert Edge(entry[from].color, from, Bottom(after, entry[from].oid, |after|, from)) in edges;
      }
      if HasEnds(edges, from, to) {
        var i :| 0 <= i < |edges| && edges[i].from == from && edges[i].to == to;
        assert edges[i] in edges;
      }
    }
  }

  lemma OutgoingEnds(
      cleared: seq<Lane>, lane: nat, nodeColor: nat, parents: seq<Oid>, onChain: bool, reserve: bool, after: seq<Lane>)
    requires lane < |cleared| && DistinctOids(after, 0)
    requires forall k :: 0 <= k < |parents| ==> Carries(after, parents[k])
    ensures forall from: nat, to: nat ::
            HasEnds(Unique(Outgoing(cleared, lane, nodeColor, parents, onChain, reserve, after)), from, to) <==>
      from == lane && exists k :: 0 <= k < |parents| && Holds(after, to, parents[k])
  {
    var edges := Outgoing(cleared, lane, nodeColor, parents, onChain, reserve, after);
    UniqueHas(edges);
    forall from: nat, to: nat
      ensures HasEnds(edges, from, to)
              <==> from == lane && exists k :: 0 <= k < |parents| && Holds(after, to, parents[k])
    {
      if HasEnds(edges, from, to) {
        var k :| 0 <= k < |edges| && edges[k].from == from && edges[k].to == to;
        BottomHolds(after, parents[k], lane, to);
      }
      if from == lane && exists k :: 0 <= k < |parents| && Holds(after, to, parents[k]) {
        var k :| 0 <= k < |parents| && Holds(after, to, parents[k]);
        BottomHolds(after, parents[k], lane, to);
        assert edges[k].from == from && edges[k].to == to;
      }
    }
  }

  // ---------------------------------------------------------- the default branch

  /** chain is a first-parent chain: increasing, and followed to its end. */
  ghost predicate IsChain(items: seq<Commit>, chain: seq<nat>) {
    && (forall k :: 0 <= k < |chain| ==> chain[k] < |items|)
    && (forall j, k :: 0 <= j < k < |chain| ==> chain[j] < chain[k])
    && (forall k :: 0 <= k < |chain| ==>
          NextOnChain(items, chain[k]) == if k + 1 < |chain| then Some(chain[k + 1]) else None)
  }

  lemma ChainIsChain(items: seq<Commit>, head: Option<nat>)
    requires Topological(items) && (head.Some? ==> head.value < |items|)
    ensures IsChain(items, Chain(items, head))
  {
  }

  /** The commit lane 0 is waiting for above row i. */
  function Expected(items: seq<Commit>, chain: seq<nat>, i: nat): Option<Oid>
    requires i <= |items|
  {
    if i == 0 then None
    else if i - 1 in chain then
      if items[i - 1].parents == [] then None else Some(items[i - 1].parents[0])
    else Expected(items, chain, i - 1)
  }

  function FirstParent(commit: Commit): Option<Oid> {
    if commit.parents == [] then None else Some(commit.parents[0])
  }

  /** The m-th chain commit is the first one at or below row i. */
  ghost predicate Below(chain: seq<nat>, i: nat, m: nat) {
    m <= |chain| && (m > 0 ==> chain[m - 1] < i) && (m < |chain| ==> i <= chain[m])
  }

  lemma {:induction false} ExpectedIs(items: seq<Commit>, chain: seq<nat>, i: nat, m: nat)
    requires i <= |items| && Below(chain, i, m) && IsChain(items, chain)
    ensures Expected(items, chain, i) == if m == 0 then None else FirstParent(items[chain[m - 1]])
    decreases i
  {
    if i > 0 {
      if i - 1 in chain {
        var q :| 0 <= q < |chain| && chain[q] == i - 1;
        assert q == m - 1;
      } else {
        assert m > 0 ==> chain[m - 1] in chain;
        ExpectedIs(items, chain, i - 1, m);
      }
    }
  }

  lemma {:induction false} SomeBelow(chain: seq<nat>, i: nat, n: nat) returns (m: nat)
    requires n <= |chain| && (n < |chain| ==> i <= chain[n])
    ensures Below(chain, i, m)
    decreases n
  {
    if n == 0 || chain[n - 1] < i { m := n; } else { m := SomeBelow(chain, i, n - 1); }
  }

  /** Lane 0 waits for exactly the next commit of the first-parent chain. */
  lemma ExpectedIsNext(items: seq<Commit>, chain: seq<nat>, i: nat)
    requires Topological(items) && IsChain(items, chain) && i < |items|
    ensures i in chain ==> Expected(items, chain, i) == None || Expected(items, chain, i) == Some(items[i].id)
    ensures i !in chain ==> Expected(items, chain, i) != Some(items[i].id)
  {
    if i in chain {
      var q :| 0 <= q < |chain| && chain[q] == i;
      ExpectedIs(items, chain, i, q);
      assert q > 0 ==> NextOnChain(items, chain[q - 1]) == Some(chain[q]);
    } else {
      var m := SomeBelow(chain, i, |chain|);
      ExpectedIs(items, chain, i, m);
      if m > 0 && m < |chain| {
        assert NextOnChain(items, chain[m - 1]) == Some(chain[m]) && chain[m] in chain;
      }
    }
  }

  // -------------------------------------------------------- every row boundary

  ghost predicate Layout(items: seq<Commit>, chain: seq<nat>, reserve: bool) {
    && Topological(items)
    && IsChain(items, chain)
    && (chain != [] ==> reserve)
  }

  ghost predicate Fresh(items: seq<Commit>, lanes: seq<Lane>, i: nat)
    requires i <= |items|
  {
    forall j :: 0 <= j < i ==> !Carries(lanes, items[j].id)
  }

  function MainLane(expected: Option<Oid>): Lane {
    match expected
    case None => Empty
    case Some(oid) => Active(DEFAULT_COLOR, oid)
  }

  ghost predicate AtRow(items: seq<Commit>, chain: seq<nat>, reserve: bool, i: nat, lanes: seq<Lane>)
    requires i <= |items|
  {
    && Boundary(lanes, reserve)
    && Fresh(items, lanes, i)
    && (reserve ==> lanes[0] == MainLane(Expected(items, chain, i)))
  }

  lemma AtRowExpects(items: seq<Commit>, chain: seq<nat>, reserve: bool, i: nat, lanes: seq<Lane>)
    requires Layout(items, chain, reserve) && i < |items| && AtRow(items, chain, reserve, i, lanes)
    ensures Expecting(lanes, items[i].id, i in chain, reserve)
  {
    ExpectedIsNext(items, chain, i);
  }

  lemma AtRowStep(items: seq<Commit>, chain: seq<nat>, reserve: bool, i: nat, lanes: seq<Lane>)
    requires Layout(items, chain, reserve) && i < |items| && AtRow(items, chain, reserve, i, lanes)
    ensures AtRow(items, chain, reserve, i + 1, After(lanes, items[i], i in chain, reserve))
  {
    AtRowExpects(items, chain, reserve, i, lanes);
    StepKeeps(lanes, items[i], i in chain, reserve);
    forall j | 0 <= j < i + 1 ensures !Carries(After(lanes, items[i], i in chain, reserve), items[j].id) {
      assert items[j].id !in items[i].parents;
    }
  }

  /** At every row boundary the lanes hold different commits and colours, no commit
      already drawn, and lane 0 waits for the next commit of the default branch. */
  lemma {:induction false} BoundaryHolds(items: seq<Commit>, chain: seq<nat>, reserve: bool, i: nat)
    requires Layout(items, chain, reserve) && i <= |items|
    ensures AtRow(items, chain, reserve, i, LanesAt(items, chain, reserve, i))
    decreases i
  {
    hide AtRow, Topological, IsChain, After, EmptyLanes;
    if i == 0 {
      AtFirstRow(items, chain, reserve);
    } else {
      BoundaryHolds(items, chain, reserve, i - 1);
      AtRowStep(items, chain, reserve, i - 1, LanesAt(items, chain, reserve, i - 1));
    }
  }

  lemma AtFirstRow(items: seq<Commit>, chain: seq<nat>, reserve: bool)
    requires Layout(items, chain, reserve)
    ensures AtRow(items, chain, reserve, 0, EmptyLanes(reserve))
  {
  }

  /** Lane 0 carries the nodes of the default head's first-parent chain and no others. */
  lemma LaneZeroIsTheDefaultBranch(items: seq<Commit>, head: Option<nat>, i: nat)
    requires Topological(items) && (head.Some? ==> head.value < |items|) && i < |items|
    ensures RowAt(items, Chain(items, head), true, i).lane == 0 <==> i in Chain(items, head)
  {
    var chain := Chain(items, head);
    ChainIsChain(items, head);
    BoundaryHolds(items, chain, true, i);
    AtRowExpects(items, chain, true, i, LanesAt(items, chain, true, i));
    ClearIsReady(LanesAt(items, chain, true, i), items[i].id, i in chain, true);
  }

  // ------------------------------------------------- following the drawn edges

  datatype Arrival = Node(row: nat) | OffTheEnd | Broken

  function EdgeFrom(edges: seq<Edge>, lane: nat, n: nat): (r: Option<Edge>)
    requires n <= |edges|
    ensures r.Some? ==> r.value.from == lane && HasEnds(edges, lane, r.value.to)
    ensures r.None? ==> forall i :: 0 <= i < n ==> edges[i].from != lane
  {
    if n == 0 then None
    else if edges[n - 1].from == lane then Some(edges[n - 1])
    else EdgeFrom(edges, lane, n - 1)
  }

  /** Where a line entering row i on the given lane ends. */
  function Follow(rows: seq<Row>, i: nat, lane: nat): Arrival
    decreases |rows| - i
  {
    if i >= |rows| then OffTheEnd
    else if EdgeFrom(rows[i].incoming, lane, |rows[i].incoming|).Some? then Node(i)
    else
      match EdgeFrom(rows[i].passThrough, lane, |rows[i].passThrough|)
      case Some(edge) => Follow(rows, i + 1, edge.to)
      case None => Broken
  }

  /** The place a parent is drawn: its row, or off the end if it is not loaded. */
  function PlaceOf(items: seq<Commit>, oid: Oid): Arrival {
    match IndexOf(items, oid, |items|)
    case Some(k) => Node(k)
    case None => OffTheEnd
  }

  /** Rows drawn for items, with the lanes above each row before and after opening it. */
  ghost predicate Drawn(items: seq<Commit>, rows: seq<Row>, above: seq<seq<Lane>>, entries: seq<seq<Lane>>) {
    && |rows| == |entries| == |items| && |above| == |items| + 1
    && (forall i :: 0 <= i < |items| ==> RowDrawn(items[i], rows[i], above[i], entries[i], above[i + 1]))
    && (forall i :: 0 <= i <= |items| ==> Fresh(items, above[i], i))
  }

  ghost predicate RowDrawn(commit: Commit, row: Row, lanes: seq<Lane>, entry: seq<Lane>, after: seq<Lane>) {
    && RowDraws(row, entry, after, commit)
    && |lanes| <= |entry|
    && (forall i :: 0 <= i < |lanes| && lanes[i].Active? ==> entry[i] == lanes[i])
    && (forall i :: 0 <= i < |entry| && entry[i].Active? && (i >= |lanes| || lanes[i].Empty?) ==>
        entry[i].oid == commit.id)
    && DistinctOids(after, 0)
    && (forall x :: Carries(after, x) <==> (x != commit.id && Carries(lanes, x)) || x in commit.parents)
  }

  function AllLanes(items: seq<Commit>, chain: seq<nat>, reserve: bool): (r: seq<seq<Lane>>)
    requires chain != [] ==> reserve
    ensures |r| == |items| + 1 && forall i :: 0 <= i <= |items| ==> r[i] == LanesAt(items, chain, reserve, i)
  {
    seq(|items| + 1, i requires 0 <= i <= |items| => LanesAt(items, chain, reserve, i))
  }

  function AllEntries(items: seq<Commit>, chain: seq<nat>, reserve: bool): (r: seq<seq<Lane>>)
    requires chain != [] ==> reserve
    ensures |r| == |items| && forall i :: 0 <= i < |items| ==> r[i] == OpenedAt(items, chain, reserve, i)
  {
    seq(|items|, i requires 0 <= i < |items| => OpenedAt(items, chain, reserve, i))
  }

  lemma StepDraws(lanes: seq<Lane>, commit: Commit, onChain: bool, reserve: bool)
    requires Boundary(lanes, reserve) && Expecting(lanes, commit.id, onChain, reserve)
    ensures RowDrawn(commit, RowOf(lanes, commit, onChain, reserve), lanes, Open(lanes, commit.id, onChain, reserve),
                     After(lanes, commit, onChain, reserve))
  {
    OpenKeeps(lanes, commit.id, onChain, reserve);
    StepKeeps(lanes, commit, onChain, reserve);
    RowDrawsEdges(lanes, commit, onChain, reserve);
  }

  lemma LayoutIsDrawn(items: seq<Commit>, chain: seq<nat>, reserve: bool)
    requires Layout(items, chain, reserve)
    ensures Drawn(items, UnclippedRows(items, chain, reserve), AllLanes(items, chain, reserve),
                  AllEntries(items, chain, reserve))
  {
    var rows := UnclippedRows(items, chain, reserve);
    var above := AllLanes(items, chain, reserve);
    var entries := AllEntries(items, chain, reserve);
    forall i | 0 <= i < |items| ensures RowDrawn(items[i], rows[i], above[i], entries[i], above[i + 1]) {
      BoundaryHolds(items, chain, reserve, i);
      AtRowExpects(items, chain, reserve, i, above[i]);
      StepDraws(LanesAt(items, chain, reserve, i), items[i], i in chain, reserve);
    }
    forall i | 0 <= i <= |items| ensures Fresh(items, above[i], i) {
      BoundaryHolds(items, chain, reserve, i);
    }
  }

  lemma {:induction false} FollowReaches(
      items: seq<Commit>, rows: seq<Row>, above: seq<seq<Lane>>, entries: seq<seq<Lane>>, i: nat, lane: nat, oid: Oid)
    requires Topological(items) && Drawn(items, rows, above, entries)
    requires i <= |items| && Holds(above[i], lane, oid)
    ensures Follow(rows, i, lane) == PlaceOf(items, oid)
    decreases |items| - i
  {
    assert Carries(above[i], oid);
    if i < |items| {
      var row := rows[i];
      assert RowDrawn(items[i], row, above[i], entries[i], above[i + 1]);
      if oid == items[i].id {
        assert HasEnds(row.incoming, lane, row.lane);
      } else {
        assert Carries(above[i + 1], oid);
        var to: nat :| Holds(above[i + 1], to, oid);
        assert HasEnds(row.passThrough, lane, to);
        var edge := EdgeFrom(row.passThrough, lane, |row.passThrough|).value;
        FollowReaches(items, rows, above, entries, i + 1, edge.to, oid);
      }
    }
  }

  /** A line entering row i on the given lane ends where oid is drawn. */
  ghost predicate LeadsTo(items: seq<Commit>, rows: seq<Row>, i: nat, lane: nat, oid: Oid) {
    Follow(rows, i, lane) == PlaceOf(items, oid)
  }

  ghost predicate LinesAreParents(items: seq<Commit>, rows: seq<Row>, i: nat)
    requires i < |items| == |rows|
  {
    && (forall e :: e in rows[i].outgoing ==>
          e.from == rows[i].lane && exists p :: p in items[i].parents && LeadsTo(items, rows, i + 1, e.to, p))
    && (forall p :: p in items[i].parents ==>
          exists e :: e in rows[i].outgoing && LeadsTo(items, rows, i + 1, e.to, p))
    && (forall e :: e in rows[i].incoming ==> e.to == rows[i].lane)
  }

  lemma DrawnLinesAreParents(items: seq<Commit>, rows: seq<Row>, above: seq<seq<Lane>>, entries: seq<seq<Lane>>, i: nat)
    requires Topological(items) && Drawn(items, rows, above, entries) && i < |items|
    ensures LinesAreParents(items, rows, i)
  {
    var row, parents := rows[i], items[i].parents;
    assert RowDrawn(items[i], row, above[i], entries[i], above[i + 1]);
    forall e | e in row.outgoing
      ensures e.from == row.lane && exists p :: p in parents && LeadsTo(items, rows, i + 1, e.to, p)
    {
      assert HasEnds(row.outgoing, e.from, e.to);
      var k :| 0 <= k < |parents| && Holds(above[i + 1], e.to, parents[k]);
      FollowReaches(items, rows, above, entries, i + 1, e.to, parents[k]);
      assert parents[k] in parents && LeadsTo(items, rows, i + 1, e.to, parents[k]);
    }
    forall p | p in parents ensures exists e :: e in row.outgoing && LeadsTo(items, rows, i + 1, e.to, p) {
      var k :| 0 <= k < |parents| && parents[k] == p;
      assert Carries(above[i + 1], p);
      var to: nat :| Holds(above[i + 1], to, p);
      assert HasEnds(row.outgoing, row.lane, to);
      var j :| 0 <= j < |row.outgoing| && row.outgoing[j].from == row.lane && row.outgoing[j].to == to;
      FollowReaches(items, rows, above, entries, i + 1, to, p);
      assert row.outgoing[j] in row.outgoing && LeadsTo(items, rows, i + 1, row.outgoing[j].to, p);
    }
    forall e | e in row.incoming ensures e.to == row.lane {
      assert HasEnds(row.incoming, e.from, e.to);
    }
  }

  /**
   * The drawn edges are the parent relation: every line leaving a commit ends at the
   * node of one of its parents (or runs off the end if that parent is not loaded),
   * and every parent is reached by some line.
   */
  lemma EdgesAreTheParentRelation(items: seq<Commit>, head: Option<nat>, reserve: bool, i: nat)
    requires Topological(items) && i < |items|
    requires head.Some? ==> reserve && head.value < |items|
    ensures LinesAreParents(items, UnclippedRows(items, Chain(items, head), reserve), i)
  {
    var chain := Chain(items, head);
    ChainIsChain(items, head);
    LayoutIsDrawn(items, chain, reserve);
    DrawnLinesAreParents(items, UnclippedRows(items, chain, reserve), AllLanes(items, chain, reserve),
                         AllEntries(items, chain, reserve), i);
  }

  /** Two edges of the row that begin on the same lane are one edge. */
  ghost predicate OneEdgePerStart(row: Row) {
    && (forall a: nat, b: nat, c: nat :: HasEnds(row.incoming, a, b) && HasEnds(row.passThrough, a, c) ==> false)
    && (forall a: nat, b: nat, c: nat :: HasEnds(row.incoming, a, b) && HasEnds(row.incoming, a, c) ==> b == c)
    && (forall a: nat, b: nat, c: nat :: HasEnds(row.passThrough, a, b) && HasEnds(row.passThrough, a, c) ==> b == c)
  }

  /** Where one line ended, at most one line of the next row begins. */
  lemma NextEdgeIsUnique(items: seq<Commit>, head: Option<nat>, reserve: bool, i: nat)
    requires Topological(items) && i < |items|
    requires head.Some? ==> reserve && head.value < |items|
    ensures OneEdgePerStart(UnclippedRows(items, Chain(items, head), reserve)[i])
  {
    var chain := Chain(items, head);
    ChainIsChain(items, head);
    LayoutIsDrawn(items, chain, reserve);
    DrawnEdgeIsUnique(items, UnclippedRows(items, chain, reserve), AllLanes(items, chain, reserve),
                      AllEntries(items, chain, reserve), i);
  }

  lemma DrawnEdgeIsUnique(items: seq<Commit>, rows: seq<Row>, above: seq<seq<Lane>>, entries: seq<seq<Lane>>, i: nat)
    requires Drawn(items, rows, above, entries) && i < |items|
    ensures OneEdgePerStart(rows[i])
  {
    assert RowDrawn(items[i], rows[i], above[i], entries[i], above[i + 1]);
  }
}
