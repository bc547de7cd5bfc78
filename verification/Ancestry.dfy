/** Ancestry in a history of commits: what merge-base --is-ancestor reports. */
module Ancestry {
  import opened CommitGraph

  ghost predicate ParentOf(items: seq<Commit>, child: Oid, parent: Oid) {
    exists k :: 0 <= k < |items| && items[k].id == child && parent in items[k].parents
  }

  ghost predicate IsPath(items: seq<Commit>, path: seq<Oid>) {
    path != [] && forall i :: 0 <= i < |path| - 1 ==> ParentOf(items, path[i], path[i + 1])
  }

  ghost predicate Joins(items: seq<Commit>, path: seq<Oid>, a: Oid, b: Oid) {
    IsPath(items, path) && path[0] == a && path[|path| - 1] == b
  }

  /** b is a or one of its ancestors. */
  ghost predicate Reaches(items: seq<Commit>, a: Oid, b: Oid) {
    exists path :: Joins(items, path, a, b)
  }

  lemma ReachesItself(items: seq<Commit>, a: Oid)
    ensures Reaches(items, a, a)
  {
    assert Joins(items, [a], a, a);
  }

  lemma StepReaches(items: seq<Commit>, a: Oid, b: Oid, c: Oid)
    requires ParentOf(items, a, b) && Reaches(items, b, c)
    ensures Reaches(items, a, c)
  {
    var path :| Joins(items, path, b, c);
    assert Joins(items, [a] + path, a, c);
  }

  lemma ReachesTransitive(items: seq<Commit>, a: Oid, b: Oid, c: Oid)
    requires Reaches(items, a, b) && Reaches(items, b, c)
    ensures Reaches(items, a, c)
  {
    var p :| Joins(items, p, a, b);
    var q :| Joins(items, q, b, c);
    var path := p + q[1..];
    forall i | 0 <= i < |path| - 1 ensures ParentOf(items, path[i], path[i + 1]) {
      if i >= |p| - 1 {
        var j := i - (|p| - 1);
        assert path[i] == q[j] && path[i + 1] == q[j + 1];
      }
    }
    assert Joins(items, path, a, c);
  }

  lemma SubPath(items: seq<Commit>, path: seq<Oid>, from: nat, to: nat)
    requires IsPath(items, path) && from < to <= |path|
    ensures IsPath(items, path[from..to])
  {
    var part := path[from..to];
    forall i | 0 <= i < |part| - 1 ensures ParentOf(items, part[i], part[i + 1]) {
      assert ParentOf(items, path[from + i], path[from + i + 1]);
    }
  }
}
