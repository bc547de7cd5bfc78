/**
 * The batched, early-exit search over history, with rename lineage
 * (internal/app/search.go).
 *
 * Matchers are arbitrary predicates. A change carries what each predicate's matcher
 * says of its diff, a commit what it says of its message.
 */
module SearchScan {
  import opened Common
  import opened SearchGrammar
  import opened SearchEvaluator

  type Path = nat

  datatype Change = Change(path: Path, renamedFrom: Option<Path>, diffHits: seq<bool>)

  datatype Commit = Commit(messageHits: seq<bool>, changes: seq<Change>, eligible: bool)

  datatype Query = Query(predicates: seq<SearchPredicate>, matchers: seq<Path -> bool>, follow: bool, limit: nat)

  ghost predicate WellFormed(q: Query) {
    q.predicates != [] && Balanced(q.predicates) && |q.matchers| == |q.predicates| && q.limit > 0
  }

  ghost predicate Answered(q: Query, commits: seq<Commit>) {
    forall c :: c in commits ==> CommitAnswered(q, c)
  }

  ghost predicate CommitAnswered(q: Query, c: Commit) {
    |c.messageHits| == |q.predicates| && forall d :: d in c.changes ==> |d.diffHits| == |q.predicates|
  }

  // ------------------------------------------------------------- rename lineage

  predicate FileHit(change: Change, matcher: Path -> bool, follow: bool, tracked: set<Path>) {
    || matcher(change.path)
    || (follow && change.renamedFrom.Some? && matcher(change.renamedFrom.value))
    || (follow && change.path in tracked)
    || (follow && change.renamedFrom.Some? && change.renamedFrom.value in tracked)
  }

  function Track(change: Change, matcher: Path -> bool, follow: bool, tracked: set<Path>): set<Path> {
    if !follow then tracked
    else
      tracked
      + (if matcher(change.path) then {change.path} else {})
      + (if change.renamedFrom.Some? && FileHit(change, matcher, follow, tracked)
         then {change.renamedFrom.value} else {})
  }

  /** matchFileChange, with the set of tracked paths as it leaves it. */
  method MatchFileChange(change: Change, matcher: Path -> bool, follow: bool, tracked: set<Path>)
    returns (matched: bool, tracked': set<Path>)
    ensures matched == FileHit(change, matcher, follow, tracked)
    ensures tracked' == Track(change, matcher, follow, tracked)
  {
    tracked' := tracked;
    var pathMatched := matcher(change.path);
    if !follow { return pathMatched, tracked; }
    var isRename := change.renamedFrom.Some?;
    var oldPathMatched := isRename && matcher(change.renamedFrom.value);
    var pathTracked := change.path in tracked;
    var oldPathTracked := isRename && change.renamedFrom.value in tracked;
    matched := pathMatched || oldPathMatched || pathTracked || oldPathTracked;
    if pathMatched { tracked' := tracked' + {change.path}; }
    if isRename && (pathMatched || pathTracked || oldPathMatched || oldPathTracked) {
      tracked' := tracked' + {change.renamedFrom.value};
    }
  }

  function TrackAll(changes: seq<Change>, n: nat, matcher: Path -> bool, follow: bool, tracked: set<Path>): set<Path>
    requires n <= |changes|
  {
    if n == 0 then tracked
    else Track(changes[n - 1], matcher, follow, TrackAll(changes, n - 1, matcher, follow, tracked))
  }

  function PathsOf(change: Change): set<Path> {
    {change.path} + if change.renamedFrom.Some? then {change.renamedFrom.value} else {}
  }

  /** A walk from change k back to newer renames, each renaming from a path of the one before,
      that ends at a change with a matching path. */
  ghost predicate Lineage(changes: seq<Change>, matcher: Path -> bool, k: nat, walk: seq<nat>) {
    && walk != [] && walk[0] == k
    && (forall i :: 0 <= i < |walk| ==> walk[i] < |changes|)
    && (forall i: nat :: i < |walk| - 1 ==> RenameStep(changes, walk, i))
    && Touches(changes[walk[|walk| - 1]], matcher)
  }

  ghost predicate HasLineage(changes: seq<Change>, matcher: Path -> bool, k: nat) {
    exists walk :: Lineage(changes, matcher, k, walk)
  }

  ghost predicate Touches(change: Change, matcher: Path -> bool) {
    exists p :: p in PathsOf(change) && matcher(p)
  }

  ghost predicate RenameStep(changes: seq<Change>, walk: seq<nat>, i: nat)
    requires i + 1 < |walk| && forall j :: 0 <= j < |walk| ==> walk[j] < |changes|
  {
    && walk[i + 1] < walk[i]
    && changes[walk[i + 1]].renamedFrom.Some?
    && changes[walk[i + 1]].renamedFrom.value in PathsOf(changes[walk[i]])
  }

  /** Change k is hit when its lineage is followed. */
  ghost predicate Hit(changes: seq<Change>, k: nat, matcher: Path -> bool)
    requires k < |changes|
  {
    FileHit(changes[k], matcher, true, TrackAll(changes, k, matcher, true, {}))
  }

  /** A tracked path matches, or is where a matched newer rename came from. */
  lemma {:induction false} TrackedMeans(changes: seq<Change>, n: nat, matcher: Path -> bool, p: Path)
    requires n <= |changes| && p in TrackAll(changes, n, matcher, true, {})
    ensures matcher(p) || exists j: nat :: j < n && changes[j].renamedFrom == Some(p) && Hit(changes, j, matcher)
  {
    if n > 0 {
      if p in TrackAll(changes, n - 1, matcher, true, {}) {
        TrackedMeans(changes, n - 1, matcher, p);
      } else {
        assert matcher(p) || (changes[n - 1].renamedFrom == Some(p) && Hit(changes, n - 1, matcher));
      }
    }
  }

  lemma {:induction false} RenamedIsTracked(changes: seq<Change>, j: nat, n: nat, matcher: Path -> bool)
    requires j < n <= |changes| && changes[j].renamedFrom.Some?
    requires Hit(changes, j, matcher)
    ensures changes[j].renamedFrom.value in TrackAll(changes, n, matcher, true, {})
  {
    if j < n - 1 {
      RenamedIsTracked(changes, j, n - 1, matcher);
    }
  }

  lemma LongerLineage(changes: seq<Change>, matcher: Path -> bool, k: nat, j: nat, rest: seq<nat>)
    requires j < k < |changes| && Lineage(changes, matcher, j, rest)
    requires changes[j].renamedFrom.Some? && changes[j].renamedFrom.value in PathsOf(changes[k])
    ensures Lineage(changes, matcher, k, [k] + rest)
  {
    var walk := [k] + rest;
    forall i: nat | i < |walk| - 1 ensures RenameStep(changes, walk, i) {
      assert i == 0 || RenameStep(changes, rest, i - 1);
    }
  }

  lemma {:induction false} HitHasLineage(changes: seq<Change>, k: nat, matcher: Path -> bool) returns (walk: seq<nat>)
    requires k < |changes| && Hit(changes, k, matcher)
    ensures Lineage(changes, matcher, k, walk)
    decreases k
  {
    if Touches(changes[k], matcher) {
      walk := [k];
    } else {
      var p := UntouchedHit(changes, k, matcher);
      TrackedMeans(changes, k, matcher, p);
      var j: nat :| j < k && changes[j].renamedFrom == Some(p) && Hit(changes, j, matcher);
      var rest := HitHasLineage(changes, j, matcher);
      LongerLineage(changes, matcher, k, j, rest);
      walk := [k] + rest;
    }
  }

  lemma UntouchedHit(changes: seq<Change>, k: nat, matcher: Path -> bool) returns (p: Path)
    requires k < |changes| && Hit(changes, k, matcher) && !Touches(changes[k], matcher)
    ensures p in PathsOf(changes[k]) && !matcher(p) && p in TrackAll(changes, k, matcher, true, {})
  {
    var change := changes[k];
    assert change.path in PathsOf(change);
    p := if change.path in TrackAll(changes, k, matcher, true, {}) then change.path else change.renamedFrom.value;
  }

  lemma {:induction false} LineageHits(changes: seq<Change>, k: nat, matcher: Path -> bool, walk: seq<nat>)
    requires k < |changes| && Lineage(changes, matcher, k, walk)
    ensures Hit(changes, k, matcher)
    decreases |walk|
  {
    if |walk| == 1 {
      var p :| p in PathsOf(changes[walk[0]]) && matcher(p);
    } else {
      var rest := walk[1..];
      assert RenameStep(changes, walk, 0);
      forall i: nat | i < |rest| - 1 ensures RenameStep(changes, rest, i) {
        assert RenameStep(changes, walk, i + 1);
      }
      LineageHits(changes, walk[1], matcher, rest);
      RenamedIsTracked(changes, walk[1], k, matcher);
    }
  }

  /** With rename following, a change matches exactly when its lineage reaches a matching path. */
  lemma MatchFollowsLineage(changes: seq<Change>, k: nat, matcher: Path -> bool)
    requires k < |changes|
    ensures Hit(changes, k, matcher) <==> HasLineage(changes, matcher, k)
  {
    if Hit(changes, k, matcher) {
      var walk := HitHasLineage(changes, k, matcher);
    }
    if HasLineage(changes, matcher, k) {
      var walk :| Lineage(changes, matcher, k, walk);
      LineageHits(changes, k, matcher, walk);
    }
  }

  // ------------------------------------------------------ what a commit matches

  /** The tracked paths of every FILE predicate. */
  type Tracked = seq<set<Path>>

  function TrackChange(q: Query, change: Change, tracked: Tracked): (r: Tracked)
    requires |q.matchers| == |q.predicates| == |tracked|
    ensures |r| == |tracked|
  {
    seq(|tracked|, i requires 0 <= i < |tracked| =>
      if q.predicates[i].source == File then Track(change, q.matchers[i], q.follow, tracked[i]) else tracked[i])
  }

  function TrackChanges(q: Query, changes: seq<Change>, n: nat, tracked: Tracked): (r: Tracked)
    requires |q.matchers| == |q.predicates| == |tracked| && n <= |changes|
    ensures |r| == |tracked|
  {
    if n == 0 then tracked else TrackChange(q, changes[n - 1], TrackChanges(q, changes, n - 1, tracked))
  }

  function NothingTracked(q: Query): (r: Tracked)
    ensures |r| == |q.predicates|
  {
    seq(|q.predicates|, i => {})
  }

  /** The tracked paths when commit i is reached. */
  function TrackedBefore(q: Query, commits: seq<Commit>, i: nat): (r: Tracked)
    requires |q.matchers| == |q.predicates| && i <= |commits|
    ensures |r| == |q.predicates|
  {
    if i == 0 then NothingTracked(q)
    else TrackChanges(q, commits[i - 1].changes, |commits[i - 1].changes|, TrackedBefore(q, commits, i - 1))
  }

  function MessageHits(q: Query, c: Commit): (r: seq<bool>)
    requires CommitAnswered(q, c)
    ensures |r| == |q.predicates|
  {
    seq(|q.predicates|, i requires 0 <= i < |q.predicates| => q.predicates[i].source == Msg && c.messageHits[i])
  }

  function ChangeHits(q: Query, c: Commit, change: Change, tracked: Tracked): (r: seq<bool>)
    requires CommitAnswered(q, c) && |change.diffHits| == |q.predicates| == |q.matchers| == |tracked|
    ensures |r| == |q.predicates|
  {
    seq(|q.predicates|, i requires 0 <= i < |q.predicates| =>
      match q.predicates[i].source
      case Msg => c.messageHits[i]
      case File => FileHit(change, q.matchers[i], q.follow, tracked[i])
      case Diff => change.diffHits[i])
  }

  ghost predicate Satisfies(q: Query, hits: seq<bool>) {
    var tree := Parse(Tokens(q.predicates, |q.predicates|));
    tree.Some? && Value(tree.value, hits)
  }

  predicate FileScoped(q: Query) {
    exists i :: 0 <= i < |q.predicates| && q.predicates[i].source != Msg
  }

  ghost predicate ChangeSatisfies(q: Query, c: Commit, tracked: Tracked, d: nat)
    requires CommitAnswered(q, c) && |q.predicates| == |q.matchers| == |tracked| && d < |c.changes|
  {
    Satisfies(q, ChangeHits(q, c, c.changes[d], TrackChanges(q, c.changes, d, tracked)))
  }

  /** The per-file-or-message meaning of the expression. */
  ghost predicate CommitSatisfies(q: Query, c: Commit, tracked: Tracked)
    requires CommitAnswered(q, c) && |q.predicates| == |q.matchers| == |tracked|
  {
    || Satisfies(q, MessageHits(q, c))
    || (FileScoped(q) && exists d :: 0 <= d < |c.changes| && ChangeSatisfies(q, c, tracked, d))
  }

  ghost predicate MatchesAt(q: Query, commits: seq<Commit>, i: nat)
    requires |q.matchers| == |q.predicates| && Answered(q, commits) && i < |commits|
  {
    commits[i].eligible && CommitSatisfies(q, commits[i], TrackedBefore(q, commits, i))
  }

  /** The matching commits among the first n. */
  ghost function Matching(q: Query, commits: seq<Commit>, n: nat): (r: seq<nat>)
    requires |q.matchers| == |q.predicates| && Answered(q, commits) && n <= |commits|
    ensures |r| <= n
  {
    if n == 0 then []
    else if MatchesAt(q, commits, n - 1) then Matching(q, commits, n - 1) + [n - 1]
    else Matching(q, commits, n - 1)
  }

  /** They are exactly the commits that match, each once, in order. */
  lemma {:induction false} MatchingIsExact(q: Query, commits: seq<Commit>, n: nat)
    requires |q.matchers| == |q.predicates| && Answered(q, commits) && n <= |commits|
    ensures forall i: nat :: i in Matching(q, commits, n) <==> i < n && MatchesAt(q, commits, i)
    ensures forall j, k :: 0 <= j < k < |Matching(q, commits, n)| ==>
            Matching(q, commits, n)[j] < Matching(q, commits, n)[k]
  {
    hide MatchesAt;
    if n > 0 {
      var before := Matching(q, commits, n - 1);
      MatchingIsExact(q, commits, n - 1);
      assert forall k :: 0 <= k < |before| ==> before[k] in before;
    }
  }

  // ------------------------------------------------- what the tracked paths mean

  /** The changes of the first n commits, newest first. */
  function Flat(commits: seq<Commit>, n: nat): seq<Change>
    requires n <= |commits|
  {
    if n == 0 then [] else Flat(commits, n - 1) + commits[n - 1].changes
  }

  lemma {:induction false} TrackAllOfPrefix(
      a: seq<Change>, b: seq<Change>, n: nat, matcher: Path -> bool, follow: bool, tracked: set<Path>)
    requires n <= |a|
    ensures TrackAll(a + b, n, matcher, follow, tracked) == TrackAll(a, n, matcher, follow, tracked)
  {
    if n > 0 {
      TrackAllOfPrefix(a, b, n - 1, matcher, follow, tracked);
    }
  }

  lemma {:induction false} TrackAllGoesOn(
      a: seq<Change>, b: seq<Change>, n: nat, matcher: Path -> bool, follow: bool, tracked: set<Path>)
    requires n <= |b|
    ensures TrackAll(a + b, |a| + n, matcher, follow, tracked)
            == TrackAll(b, n, matcher, follow, TrackAll(a, |a|, matcher, follow, tracked))
  {
    if n == 0 {
      TrackAllOfPrefix(a, b, |a|, matcher, follow, tracked);
    } else {
      TrackAllGoesOn(a, b, n - 1, matcher, follow, tracked);
    }
  }

  /** Every FILE predicate tracks by itself. */
  lemma {:induction false} TracksByItself(q: Query, changes: seq<Change>, n: nat, tracked: Tracked, p: nat)
    requires |q.matchers| == |q.predicates| == |tracked| && n <= |changes|
    requires p < |q.predicates| && q.predicates[p].source == File
    ensures TrackChanges(q, changes, n, tracked)[p] == TrackAll(changes, n, q.matchers[p], q.follow, tracked[p])
  {
    if n > 0 {
      TracksByItself(q, changes, n - 1, tracked, p);
    }
  }

  /** What the search tracks when it reaches a commit is what the flat list of changes tracks. */
  lemma {:induction false} TrackedIsFlat(q: Query, commits: seq<Commit>, i: nat, p: nat)
    requires |q.matchers| == |q.predicates| && i <= |commits|
    requires p < |q.predicates| && q.predicates[p].source == File
    ensures TrackedBefore(q, commits, i)[p]
            == TrackAll(Flat(commits, i), |Flat(commits, i)|, q.matchers[p], q.follow, {})
  {
    if i > 0 {
      var changes := commits[i - 1].changes;
      TrackedIsFlat(q, commits, i - 1, p);
      TracksByItself(q, changes, |changes|, TrackedBefore(q, commits, i - 1), p);
      TrackAllGoesOn(Flat(commits, i - 1), changes, |changes|, q.matchers[p], q.follow, {});
    }
  }

  /** Where change d of commit i is in the flat list. */
  function Place(commits: seq<Commit>, i: nat, d: nat): (k: nat)
    requires i < |commits| && d < |commits[i].changes|
    ensures k < |Flat(commits, i + 1)| && Flat(commits, i + 1)[k] == commits[i].changes[d]
  {
    |Flat(commits, i)| + d
  }

  /** What a FILE predicate says of change d of commit i: its path matches or, when renames are
      followed, its lineage through this and newer commits reaches a matching path. */
  ghost predicate FileMeans(q: Query, commits: seq<Commit>, i: nat, d: nat, p: nat)
    requires p < |q.matchers| && i < |commits| && d < |commits[i].changes|
  {
    if q.follow then HasLineage(Flat(commits, i + 1), q.matchers[p], Place(commits, i, d))
    else q.matchers[p](commits[i].changes[d].path)
  }

  lemma FileHitFollowsLineage(q: Query, commits: seq<Commit>, i: nat, d: nat, p: nat)
    requires |q.matchers| == |q.predicates| && i < |commits| && d < |commits[i].changes|
    requires p < |q.predicates| && q.predicates[p].source == File
    ensures var tracked := TrackChanges(q, commits[i].changes, d, TrackedBefore(q, commits, i));
      FileHit(commits[i].changes[d], q.matchers[p], q.follow, tracked[p]) <==> FileMeans(q, commits, i, d, p)
  {
    var before, changes := Flat(commits, i), commits[i].changes;
    TrackedIsFlat(q, commits, i, p);
    TracksByItself(q, changes, d, TrackedBefore(q, commits, i), p);
    TrackAllGoesOn(before, changes, d, q.matchers[p], q.follow, {});
    if q.follow {
      MatchFollowsLineage(Flat(commits, i + 1), Place(commits, i, d), q.matchers[p]);
    }
  }

  /** What every predicate says of change d of commit i, without any tracking. */
  ghost function Meaning(q: Query, commits: seq<Commit>, i: nat, d: nat): (r: seq<bool>)
    requires |q.matchers| == |q.predicates| && i < |commits| && d < |commits[i].changes|
    requires CommitAnswered(q, commits[i])
    ensures |r| == |q.predicates|
  {
    seq(|q.predicates|, p requires 0 <= p < |q.predicates| =>
      match q.predicates[p].source
      case Msg => commits[i].messageHits[p]
      case File => FileMeans(q, commits, i, d, p)
      case Diff => commits[i].changes[d].diffHits[p])
  }

  lemma HitsMean(q: Query, commits: seq<Commit>, i: nat, d: nat)
    requires |q.matchers| == |q.predicates| && i < |commits| && d < |commits[i].changes|
    requires CommitAnswered(q, commits[i])
    ensures var tracked := TrackChanges(q, commits[i].changes, d, TrackedBefore(q, commits, i));
      ChangeHits(q, commits[i], commits[i].changes[d], tracked) == Meaning(q, commits, i, d)
  {
    var tracked := TrackChanges(q, commits[i].changes, d, TrackedBefore(q, commits, i));
    var hits, meaning := ChangeHits(q, commits[i], commits[i].changes[d], tracked), Meaning(q, commits, i, d);
    forall p | 0 <= p < |q.predicates| ensures hits[p] == meaning[p] {
      if q.predicates[p].source == File {
        FileHitFollowsLineage(q, commits, i, d, p);
      }
    }
  }

  /** A change that satisfies the expression is listed with its commit when a file predicate is hit. */
  predicate AnyFileHit(q: Query, hits: seq<bool>)
    requires |hits| == |q.predicates|
  {
    exists i :: 0 <= i < |hits| && hits[i] && q.predicates[i].source != Msg
  }

  ghost predicate IsShown(q: Query, c: Commit, tracked: Tracked, d: nat)
    requires CommitAnswered(q, c) && |q.predicates| == |q.matchers| == |tracked| && d < |c.changes|
  {
    && ChangeSatisfies(q, c, tracked, d)
    && AnyFileHit(q, ChangeHits(q, c, c.changes[d], TrackChanges(q, c.changes, d, tracked)))
  }

  /** The matched files of a commit, among its first n changes. */
  ghost function FilesShown(q: Query, c: Commit, tracked: Tracked, n: nat): seq<nat>
    requires CommitAnswered(q, c) && |q.predicates| == |q.matchers| == |tracked| && n <= |c.changes|
  {
    if n == 0 then []
    else if IsShown(q, c, tracked, n - 1) then FilesShown(q, c, tracked, n - 1) + [n - 1]
    else FilesShown(q, c, tracked, n - 1)
  }

  ghost function FilesAt(q: Query, commits: seq<Commit>, i: nat): seq<nat>
    requires |q.matchers| == |q.predicates| && Answered(q, commits) && i < |commits|
  {
    FilesShown(q, commits[i], TrackedBefore(q, commits, i), |commits[i].changes|)
  }

  /** The matched files of every commit found. */
  ghost function FilesOf(q: Query, commits: seq<Commit>, found: seq<nat>): (r: seq<seq<nat>>)
    requires |q.matchers| == |q.predicates| && Answered(q, commits)
    requires forall k :: 0 <= k < |found| ==> found[k] < |commits|
    ensures |r| == |found|
  {
    if found == [] then []
    else
      var last := |found| - 1;
      FilesOf(q, commits, found[..last]) + [FilesAt(q, commits, found[last])]
  }

  lemma {:induction false} ShownExactly(q: Query, c: Commit, tracked: Tracked, n: nat, d: nat)
    requires CommitAnswered(q, c) && |q.predicates| == |q.matchers| == |tracked| && d < |c.changes|
    requires n <= |c.changes|
    ensures d in FilesShown(q, c, tracked, n) <==> d < n && IsShown(q, c, tracked, d)
  {
    hide IsShown;
    if n > 0 {
      ShownExactly(q, c, tracked, n - 1, d);
    }
  }

  /** The files listed with a commit are those of its changes that, with their lineage, satisfy the
      expression and a file predicate. */
  lemma FilesFollowLineage(q: Query, commits: seq<Commit>, i: nat, d: nat)
    requires |q.matchers| == |q.predicates| && Answered(q, commits) && i < |commits| && d < |commits[i].changes|
    ensures CommitAnswered(q, commits[i])
    ensures d in FilesAt(q, commits, i)
            <==> ChangeMeans(q, commits, i, d) && MeansFile(q, commits, i, d)
  {
    hide Satisfies;
    assert commits[i] in commits;
    ShownExactly(q, commits[i], TrackedBefore(q, commits, i), |commits[i].changes|, d);
    HitsMean(q, commits, i, d);
  }

  /** Some predicate on files or diffs holds of change d of commit i. */
  ghost predicate MeansFile(q: Query, commits: seq<Commit>, i: nat, d: nat)
    requires |q.matchers| == |q.predicates| && i < |commits| && d < |commits[i].changes|
    requires CommitAnswered(q, commits[i])
  {
    || (exists p: nat :: p < |q.predicates| && q.predicates[p].source == File && FileMeans(q, commits, i, d, p))
    || (exists p: nat ::
          p < |q.predicates| && q.predicates[p].source == Diff && commits[i].changes[d].diffHits[p])
  }

  ghost predicate ChangeMeans(q: Query, commits: seq<Commit>, i: nat, d: nat)
    requires |q.matchers| == |q.predicates| && i < |commits| && d < |commits[i].changes|
    requires CommitAnswered(q, commits[i])
  {
    Satisfies(q, Meaning(q, commits, i, d))
  }

  /** What every predicate says of a commit when no file is looked at: one on messages what it says of
      the message, any other nothing. */
  ghost function MessageMeaning(q: Query, c: Commit): (r: seq<bool>)
    requires CommitAnswered(q, c)
    ensures |r| == |q.predicates|
  {
    seq(|q.predicates|, p requires 0 <= p < |q.predicates| =>
      match q.predicates[p].source
      case Msg => c.messageHits[p]
      case File => false
      case Diff => false)
  }

  /** The meaning of a search: an admitted commit whose message, or one of whose changes with its
      lineage, satisfies the expression. */
  ghost predicate Meant(q: Query, commits: seq<Commit>, i: nat)
    requires |q.matchers| == |q.predicates| && i < |commits| && CommitAnswered(q, commits[i])
  {
    && commits[i].eligible
    && (Satisfies(q, MessageMeaning(q, commits[i]))
        || ((exists p :: 0 <= p < |q.predicates| && q.predicates[p].source in {File, Diff})
            && exists d :: 0 <= d < |commits[i].changes| && ChangeMeans(q, commits, i, d)))
  }

  /** The commits a search finds are those it is meant to find. */
  lemma SearchFollowsLineage(q: Query, commits: seq<Commit>, n: nat, i: nat)
    requires |q.matchers| == |q.predicates| && Answered(q, commits) && i < n <= |commits|
    ensures CommitAnswered(q, commits[i])
    ensures i in Matching(q, commits, n) <==> Meant(q, commits, i)
  {
    MatchingIsExact(q, commits, n);
    assert commits[i] in commits;
    assert MessageHits(q, commits[i]) == MessageMeaning(q, commits[i]);
    var c, tracked := commits[i], TrackedBefore(q, commits, i);
    forall d | 0 <= d < |c.changes| ensures ChangeSatisfies(q, c, tracked, d) <==> ChangeMeans(q, commits, i, d) {
      HitsMean(q, commits, i, d);
    }
  }

  // -------------------------------------------------------------------- the scan

  method Evaluate(q: Query, hits: seq<bool>) returns (matched: bool)
    requires WellFormed(q) && |hits| == |q.predicates|
    ensures matched == Satisfies(q, hits)
  {
    var malformed;
    matched, malformed := EvaluateSearchExpression(q.predicates, hits);
  }

  /** One changed file: updates every FILE predicate's lineage, and the hits that go with it. */
  method HitsOfChange(q: Query, c: Commit, change: Change, tracked: Tracked)
    returns (hits: seq<bool>, tracked': Tracked)
    requires CommitAnswered(q, c) && |change.diffHits| == |q.predicates| == |q.matchers| == |tracked|
    ensures hits == ChangeHits(q, c, change, tracked) && tracked' == TrackChange(q, change, tracked)
  {
    hits, tracked' := MessageHits(q, c), tracked;
    ghost var wanted, lineage := ChangeHits(q, c, change, tracked), TrackChange(q, change, tracked);
    for i := 0 to |q.predicates|
      invariant |hits| == |q.predicates| == |tracked'|
      invariant forall j :: 0 <= j < i ==> hits[j] == (if q.predicates[j].source == Diff then false else wanted[j])
      invariant forall j :: i <= j < |hits| ==> hits[j] == MessageHits(q, c)[j]
      invariant forall j :: 0 <= j < |tracked'| ==> tracked'[j] == if j < i then lineage[j] else tracked[j]
    {
      if q.predicates[i].source == File {
        var hit, paths := MatchFileChange(change, q.matchers[i], q.follow, tracked'[i]);
        hits, tracked' := hits[i := hit], tracked'[i := paths];
      }
    }
    for i := 0 to |q.predicates|
      invariant |hits| == |q.predicates|
      invariant forall j :: 0 <= j < |hits| ==>
                hits[j] == if j >= i && q.predicates[j].source == Diff then false else wanted[j]
    {
      if q.predicates[i].source == Diff { hits := hits[i := change.diffHits[i]]; }
    }
  }

  /** The lineage must go through commits the author and date filters exclude. */
  method ScanCommit(q: Query, c: Commit, tracked: Tracked)
    returns (matched: bool, files: seq<nat>, tracked': Tracked)
    requires WellFormed(q) && CommitAnswered(q, c) && |tracked| == |q.predicates|
    ensures matched == (c.eligible && CommitSatisfies(q, c, tracked))
    ensures tracked' == TrackChanges(q, c.changes, |c.changes|, tracked)
    ensures files == if c.eligible then FilesShown(q, c, tracked, |c.changes|) else []
  {
    hide Satisfies, ChangeHits, TrackChange, AnyFileHit;
    matched, tracked', files := false, tracked, [];
    if !FileScoped(q) {
      NothingToTrack(q, c.changes, |c.changes|, tracked);
      NothingToShow(q, c, tracked, |c.changes|);
      if c.eligible { matched := Evaluate(q, MessageHits(q, c)); }
      return;
    }
    for d := 0 to |c.changes|
      invariant tracked' == TrackChanges(q, c.changes, d, tracked)
      invariant matched <==> c.eligible && exists e :: 0 <= e < d && ChangeSatisfies(q, c, tracked, e)
      invariant files == if c.eligible then FilesShown(q, c, tracked, d) else []
    {
      var hits;
      assert c.changes[d] in c.changes;
      hits, tracked' := HitsOfChange(q, c, c.changes[d], tracked');
      if c.eligible {
        var hit := Evaluate(q, hits);
        assert hit == ChangeSatisfies(q, c, tracked, d);
        if hit {
          matched := true;
          if AnyFileHit(q, hits) { files := files + [d]; }
        }
      }
    }
    if c.eligible {
      var hit := Evaluate(q, MessageHits(q, c));
      if hit { matched := true; }
    }
  }

  lemma {:induction false} NothingToTrack(q: Query, changes: seq<Change>, n: nat, tracked: Tracked)
    requires |q.matchers| == |q.predicates| == |tracked| && n <= |changes| && !FileScoped(q)
    ensures TrackChanges(q, changes, n, tracked) == tracked
  {
    if n > 0 {
      NothingToTrack(q, changes, n - 1, tracked);
      assert forall i :: 0 <= i < |q.predicates| ==> q.predicates[i].source == Msg;
    }
  }

  lemma {:induction false} NothingToShow(q: Query, c: Commit, tracked: Tracked, n: nat)
    requires CommitAnswered(q, c) && |q.predicates| == |q.matchers| == |tracked| && n <= |c.changes|
    requires !FileScoped(q)
    ensures FilesShown(q, c, tracked, n) == []
  {
    hide Satisfies, ChangeHits, TrackChanges;
    if n > 0 {
      NothingToShow(q, c, tracked, n - 1);
    }
  }

  function Take(xs: seq<nat>, limit: nat): seq<nat> {
    if |xs| <= limit then xs else xs[..limit]
  }

  method Visit(q: Query, commits: seq<Commit>, i: nat, tracked: Tracked)
    returns (matched: bool, files: seq<nat>, tracked': Tracked)
    requires WellFormed(q) && Answered(q, commits) && i < |commits| && tracked == TrackedBefore(q, commits, i)
    ensures matched == MatchesAt(q, commits, i) && tracked' == TrackedBefore(q, commits, i + 1)
    ensures matched ==> files == FilesAt(q, commits, i)
  {
    hide CommitSatisfies, FilesShown;
    assert commits[i] in commits;
    matched, files, tracked' := ScanCommit(q, commits[i], tracked);
  }

  /**
   * SearchWithProgress: the first limit matching commits with their matched files, and whether
   * there are more. The size of a batch shows in none of them.
   */
  method Search(q: Query, commits: seq<Commit>, batchSize: nat)
    returns (results: seq<nat>, files: seq<seq<nat>>, hasMore: bool, visited: nat)
    requires WellFormed(q) && Answered(q, commits) && batchSize > 0
    ensures results == Take(Matching(q, commits, |commits|), q.limit)
    ensures results <= Matching(q, commits, |commits|)
            && |results| == Min(q.limit, |Matching(q, commits, |commits|)|)
    ensures (forall k :: 0 <= k < |results| ==> results[k] < |commits|) && files == FilesOf(q, commits, results)
    ensures hasMore == (|Matching(q, commits, |commits|)| > q.limit)
    ensures visited <= |commits| && (!hasMore ==> visited == |commits|)
    ensures hasMore ==> |Matching(q, commits, visited)| == q.limit + 1
  {
    hide MatchesAt, FilesAt, TrackChanges;
    results, files, visited := [], [], 0;
    var tracked := NothingTracked(q);
    var batchStart := 0;
    while batchStart < |commits|
      invariant visited == Min(batchStart, |commits|)
      invariant tracked == TrackedBefore(q, commits, visited)
      invariant results == Matching(q, commits, visited) && |results| <= q.limit
      invariant (forall k :: 0 <= k < |results| ==> results[k] < |commits|) && files == FilesOf(q, commits, results)
      decreases |commits| - batchStart
    {
      var batchEnd := Min(batchStart + batchSize, |commits|);
      results, files, hasMore, visited, tracked :=
        ScanBatch(q, commits, batchStart, batchEnd, results, files, tracked);
      if hasMore {
        MatchingGrows(q, commits, visited, |commits|);
        return;
      }
      batchStart := batchStart + batchSize;
    }
    hasMore := false;
  }

  /** The commits of one batch, until one matches beyond the limit. */
  method ScanBatch(
      q: Query, commits: seq<Commit>, batchStart: nat, batchEnd: nat, found: seq<nat>, files0: seq<seq<nat>>,
      tracked0: Tracked)
    returns (results: seq<nat>, files: seq<seq<nat>>, hasMore: bool, visited: nat, tracked: Tracked)
    requires WellFormed(q) && Answered(q, commits) && batchStart <= batchEnd <= |commits|
    requires tracked0 == TrackedBefore(q, commits, batchStart)
    requires found == Matching(q, commits, batchStart) && |found| <= q.limit
    requires (forall k :: 0 <= k < |found| ==> found[k] < |commits|) && files0 == FilesOf(q, commits, found)
    ensures (forall k :: 0 <= k < |results| ==> results[k] < |commits|) && files == FilesOf(q, commits, results)
    ensures visited <= batchEnd && |results| <= q.limit
    ensures !hasMore ==>
            visited == batchEnd && tracked == TrackedBefore(q, commits, batchEnd)
            && results == Matching(q, commits, batchEnd)
    ensures hasMore ==> |results| == q.limit && Matching(q, commits, visited) == results + [visited - 1]
  {
    hide MatchesAt, FilesAt, TrackChanges, Matching, FilesOf;
    results, files, visited, tracked := found, files0, batchStart, tracked0;
    while visited < batchEnd
      invariant batchStart <= visited <= batchEnd
      invariant tracked == TrackedBefore(q, commits, visited)
      invariant results == Matching(q, commits, visited) && |results| <= q.limit
      invariant (forall k :: 0 <= k < |results| ==> results[k] < |commits|) && files == FilesOf(q, commits, results)
    {
      var matched, shown;
      matched, shown, tracked := Visit(q, commits, visited, tracked);
      OneMoreMatching(q, commits, visited);
      visited := visited + 1;
      if matched {
        if |results| >= q.limit { return results, files, true, visited, tracked; }
        OneMoreFiles(q, commits, results, visited - 1);
        results, files := results + [visited - 1], files + [shown];
      }
    }
    hasMore := false;
  }

  lemma OneMoreMatching(q: Query, commits: seq<Commit>, n: nat)
    requires |q.matchers| == |q.predicates| && Answered(q, commits) && n < |commits|
    ensures Matching(q, commits, n + 1)
            == if MatchesAt(q, commits, n) then Matching(q, commits, n) + [n] else Matching(q, commits, n)
  {
  }

  lemma OneMoreFiles(q: Query, commits: seq<Commit>, found: seq<nat>, i: nat)
    requires |q.matchers| == |q.predicates| && Answered(q, commits) && i < |commits|
    requires forall k :: 0 <= k < |found| ==> found[k] < |commits|
    ensures FilesOf(q, commits, found + [i]) == FilesOf(q, commits, found) + [FilesAt(q, commits, i)]
  {
    hide FilesAt;
    assert (found + [i])[..|found|] == found;
  }

  lemma {:induction false} MatchingGrows(q: Query, commits: seq<Commit>, m: nat, n: nat)
    requires |q.matchers| == |q.predicates| && Answered(q, commits) && m <= n <= |commits|
    ensures Matching(q, commits, m) <= Matching(q, commits, n)
    decreases n
  {
    if m < n {
      MatchingGrows(q, commits, m, n - 1);
    }
  }

  // ------------------------------------------------------------ filters commute

  function AllEligible(commits: seq<Commit>): (r: seq<Commit>)
    ensures |r| == |commits| && forall i :: 0 <= i < |r| ==> r[i] == commits[i].(eligible := true)
  {
    seq(|commits|, i requires 0 <= i < |commits| => commits[i].(eligible := true))
  }

  lemma {:induction false} FiltersKeepLineage(q: Query, commits: seq<Commit>, i: nat)
    requires |q.matchers| == |q.predicates| && i <= |commits|
    ensures TrackedBefore(q, AllEligible(commits), i) == TrackedBefore(q, commits, i)
  {
    if i > 0 {
      FiltersKeepLineage(q, commits, i - 1);
    }
  }

  /** Eligibility takes no part in what a commit satisfies. */
  lemma EligibleOrNot(q: Query, c: Commit, all: Commit, tracked: Tracked)
    requires CommitAnswered(q, c) && |q.predicates| == |q.matchers| == |tracked| && all == c.(eligible := true)
    ensures CommitSatisfies(q, c, tracked) <==> CommitSatisfies(q, all, tracked)
  {
    assert MessageHits(q, c) == MessageHits(q, all);
    forall d | 0 <= d < |c.changes| ensures ChangeSatisfies(q, c, tracked, d) <==> ChangeSatisfies(q, all, tracked, d) {
      assert ChangeHits(q, c, c.changes[d], TrackChanges(q, c.changes, d, tracked))
        == ChangeHits(q, all, c.changes[d], TrackChanges(q, c.changes, d, tracked));
    }
  }

  lemma FilteringCommutesAt(q: Query, commits: seq<Commit>, i: nat)
    requires |q.matchers| == |q.predicates| && Answered(q, commits) && i < |commits|
    requires Answered(q, AllEligible(commits))
    ensures MatchesAt(q, commits, i) <==> commits[i].eligible && MatchesAt(q, AllEligible(commits), i)
  {
    FiltersKeepLineage(q, commits, i);
    assert commits[i] in commits;
    EligibleOrNot(q, commits[i], AllEligible(commits)[i], TrackedBefore(q, commits, i));
  }

  /** The indices in xs of commits the author and date filters admit. */
  function Admitted(commits: seq<Commit>, xs: seq<nat>): seq<nat> {
    if xs == [] then []
    else
      var last := xs[|xs| - 1];
      Admitted(commits, xs[..|xs| - 1]) + if last < |commits| && commits[last].eligible then [last] else []
  }

  /**
   * Filtering by author and date while renames are followed through the whole history selects,
   * from the matches of the unfiltered search, exactly those the filters admit, in order.
   */
  lemma {:induction false} FilteringCommutes(q: Query, commits: seq<Commit>, n: nat)
    requires |q.matchers| == |q.predicates| && Answered(q, commits) && n <= |commits|
    ensures Answered(q, AllEligible(commits))
    ensures Matching(q, commits, n) == Admitted(commits, Matching(q, AllEligible(commits), n))
  {
    hide MatchesAt, Answered, AllEligible;
    AnsweredAll(q, commits);
    if n > 0 {
      hide Matching, Admitted;
      FilteringCommutes(q, commits, n - 1);
      FilteringCommutesAt(q, commits, n - 1);
      FilteringGoesOn(q, commits, AllEligible(commits), n - 1);
    }
  }

  lemma FilteringGoesOn(q: Query, commits: seq<Commit>, all: seq<Commit>, i: nat)
    requires |q.matchers| == |q.predicates| && Answered(q, commits) && Answered(q, all) && i < |commits| == |all|
    requires MatchesAt(q, commits, i) <==> commits[i].eligible && MatchesAt(q, all, i)
    requires Matching(q, commits, i) == Admitted(commits, Matching(q, all, i))
    ensures Matching(q, commits, i + 1) == Admitted(commits, Matching(q, all, i + 1))
  {
    hide Matching, MatchesAt, Admitted, Answered;
    OneMoreMatching(q, commits, i);
    OneMoreMatching(q, all, i);
    OneMoreAdmitted(commits, Matching(q, all, i), i);
  }

  lemma OneMoreAdmitted(commits: seq<Commit>, xs: seq<nat>, i: nat)
    requires i < |commits|
    ensures Admitted(commits, xs + [i])
         == if commits[i].eligible then Admitted(commits, xs) + [i] else Admitted(commits, xs)
  {
    assert (xs + [i])[..|xs|] == xs;
  }

  /** The places of the first n commits that the filters admit. */
  function Listed(commits: seq<Commit>, n: nat): seq<nat>
    requires n <= |commits|
  {
    if n == 0 then []
    else if commits[n - 1].eligible then Listed(commits, n - 1) + [n - 1]
    else Listed(commits, n - 1)
  }

  /** The history that is listed, and searched, when renames are not followed. */
  function Listing(commits: seq<Commit>, n: nat): (r: seq<Commit>)
    requires n <= |commits|
    ensures |r| == |Listed(commits, n)|
  {
    if n == 0 then []
    else if commits[n - 1].eligible then Listing(commits, n - 1) + [commits[n - 1]]
    else Listing(commits, n - 1)
  }

  /** The places xs of a listing, as places of the whole history. */
  function Places(listed: seq<nat>, xs: seq<nat>): seq<nat> {
    if xs == [] then []
    else
      var last := xs[|xs| - 1];
      Places(listed, xs[..|xs| - 1]) + if last < |listed| then [listed[last]] else []
  }

  lemma {:induction false} NothingFollowed(q: Query, commits: seq<Commit>, i: nat)
    requires |q.matchers| == |q.predicates| && i <= |commits| && !q.follow
    ensures TrackedBefore(q, commits, i) == NothingTracked(q)
  {
    if i > 0 {
      NothingFollowed(q, commits, i - 1);
      NothingChanges(q, commits[i - 1].changes, |commits[i - 1].changes|, NothingTracked(q));
    }
  }

  lemma {:induction false} NothingChanges(q: Query, changes: seq<Change>, n: nat, tracked: Tracked)
    requires |q.matchers| == |q.predicates| == |tracked| && n <= |changes| && !q.follow
    ensures TrackChanges(q, changes, n, tracked) == tracked
  {
    if n > 0 {
      NothingChanges(q, changes, n - 1, tracked);
    }
  }

  ghost predicate MatchesAlone(q: Query, c: Commit)
    requires |q.matchers| == |q.predicates| && CommitAnswered(q, c)
  {
    c.eligible && CommitSatisfies(q, c, NothingTracked(q))
  }

  /** When renames are not followed a commit matches or not wherever it stands. */
  lemma MatchesAnywhere(q: Query, commits: seq<Commit>, i: nat)
    requires |q.matchers| == |q.predicates| && Answered(q, commits) && i < |commits| && !q.follow
    ensures CommitAnswered(q, commits[i])
    ensures MatchesAt(q, commits, i) == MatchesAlone(q, commits[i])
  {
    assert commits[i] in commits;
    NothingFollowed(q, commits, i);
  }

  lemma {:induction false} MatchingOfPrefix(q: Query, commits: seq<Commit>, more: seq<Commit>, n: nat)
    requires |q.matchers| == |q.predicates| && !q.follow && n <= |commits|
    requires Answered(q, commits) && Answered(q, commits + more)
    ensures Matching(q, commits + more, n) == Matching(q, commits, n)
  {
    hide MatchesAt;
    if n > 0 {
      MatchingOfPrefix(q, commits, more, n - 1);
      MatchesAnywhere(q, commits, n - 1);
      MatchesAnywhere(q, commits + more, n - 1);
    }
  }

  lemma OneMoreListed(q: Query, before: seq<Commit>, c: Commit)
    requires |q.matchers| == |q.predicates| && !q.follow && CommitAnswered(q, c)
    requires Answered(q, before) && Answered(q, before + [c])
    ensures var found := Matching(q, before, |before|);
      Matching(q, before + [c], |before| + 1) == if MatchesAlone(q, c) then found + [|before|] else found
  {
    MatchingOfPrefix(q, before, [c], |before|);
    OneMoreMatching(q, before + [c], |before|);
    MatchesAnywhere(q, before + [c], |before|);
  }

  lemma {:induction false} PlacesOfPrefix(listed: seq<nat>, more: seq<nat>, xs: seq<nat>)
    requires forall k :: 0 <= k < |xs| ==> xs[k] < |listed|
    ensures Places(listed + more, xs) == Places(listed, xs)
  {
    if xs != [] {
      PlacesOfPrefix(listed, more, xs[..|xs| - 1]);
    }
  }

  lemma OneMorePlace(listed: seq<nat>, at: nat, xs: seq<nat>)
    requires forall k :: 0 <= k < |xs| ==> xs[k] < |listed|
    ensures Places(listed + [at], xs) == Places(listed, xs)
    ensures Places(listed + [at], xs + [|listed|]) == Places(listed, xs) + [at]
  {
    PlacesOfPrefix(listed, [at], xs);
    assert (xs + [|listed|])[..|xs|] == xs;
  }

  lemma {:induction false} MatchingIsBounded(q: Query, commits: seq<Commit>, n: nat, k: nat)
    requires |q.matchers| == |q.predicates| && Answered(q, commits) && n <= |commits|
    requires k < |Matching(q, commits, n)|
    ensures Matching(q, commits, n)[k] < n
  {
    if k < |Matching(q, commits, n - 1)| {
      MatchingIsBounded(q, commits, n - 1, k);
    }
  }

  lemma {:induction false} AnsweredListing(q: Query, commits: seq<Commit>, n: nat)
    requires Answered(q, commits) && n <= |commits|
    ensures Answered(q, Listing(commits, n))
  {
    if n > 0 {
      AnsweredListing(q, commits, n - 1);
      assert commits[n - 1] in commits;
    }
  }

  /** The matches of the listing are those of the history. */
  ghost predicate SameMatches(q: Query, listing: seq<Commit>, listed: seq<nat>, matches: seq<nat>)
    requires |q.matchers| == |q.predicates| && Answered(q, listing)
  {
    Places(listed, Matching(q, listing, |listing|)) == matches
  }

  /**
   * When renames are not followed, searching only the commits the filters admit finds the
   * commits that filtering a search of the whole history would.
   */
  lemma {:induction false} FilteredListingSuffices(q: Query, commits: seq<Commit>, n: nat)
    requires |q.matchers| == |q.predicates| && Answered(q, commits) && n <= |commits| && !q.follow
    ensures Answered(q, Listing(commits, n))
    ensures SameMatches(q, Listing(commits, n), Listed(commits, n), Matching(q, commits, n))
  {
    AnsweredListing(q, commits, n);
    if n > 0 {
      FilteredListingSuffices(q, commits, n - 1);
      MatchesAnywhere(q, commits, n - 1);
      if commits[n - 1].eligible {
        ListedMatch(q, Listing(commits, n - 1), commits[n - 1], Listed(commits, n - 1), n - 1,
                    Matching(q, commits, n - 1));
      }
    }
  }

  lemma ListedMatch(q: Query, before: seq<Commit>, c: Commit, listed: seq<nat>, at: nat, matches: seq<nat>)
    requires |q.matchers| == |q.predicates| && !q.follow && CommitAnswered(q, c)
    requires Answered(q, before) && Answered(q, before + [c]) && |listed| == |before|
    requires SameMatches(q, before, listed, matches)
    ensures SameMatches(q, before + [c], listed + [at], if MatchesAlone(q, c) then matches + [at] else matches)
  {
    var found := Matching(q, before, |before|);
    forall k | 0 <= k < |found| ensures found[k] < |listed| {
      MatchingIsBounded(q, before, |before|, k);
    }
    OneMoreListed(q, before, c);
    OneMorePlace(listed, at, found);
  }

  lemma AnsweredAll(q: Query, commits: seq<Commit>)
    requires Answered(q, commits)
    ensures Answered(q, AllEligible(commits))
  {
    forall c | c in AllEligible(commits) ensures CommitAnswered(q, c) {
      var i :| 0 <= i < |commits| && AllEligible(commits)[i] == c;
      assert commits[i] in commits;
    }
  }
}
