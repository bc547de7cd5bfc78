/**
 * Planning a change of a cone-mode sparse checkout
 * (apps/desktop/frontend/src/lib/sparse-plan.ts) and carrying it out
 * (internal/app/worktree.go): the plan, whichever action it chooses, must leave the
 * checkout covering what the selection asks for.
 *
 * Sorted arrays without repetition are sets here.
 */
module SparsePlan {
  import opened Common

  // ----------------------------------------------------------------------- paths

  function NormalizePath(path: string): string {
    var trimmed := TrimEnd(SkipSpace(path));
    DropTrailing(DropLeading(trimmed, c => c == '/'), c => c == '/')
  }

  predicate Ancestor(a: string, path: string) {
    a + "/" <= path
  }

  predicate Within(path: string, a: string) {
    path == a || Ancestor(a, path)
  }

  lemma AncestorIsShorter(a: string, path: string)
    requires Ancestor(a, path)
    ensures |a| < |path| && a == path[..|a|] && path[|a|] == '/'
  {
    var p := a + "/";
    assert p == path[..|p|];
    assert a == p[..|a|];
    assert path[|a|] == p[|a|];
  }

  lemma AncestorMeans(a: string, path: string)
    requires |a| < |path| && a == path[..|a|] && path[|a|] == '/'
    ensures Ancestor(a, path)
  {
    assert path[..|a| + 1] == a + "/";
  }

  lemma WithinIsTransitive(a: string, b: string, c: string)
    requires Within(b, a) && Within(c, b)
    ensures Within(c, a)
  {
    if b != a && c != b {
      AncestorIsShorter(a, b);
      AncestorIsShorter(b, c);
      assert c[..|a|] == b[..|a|] && c[|a|] == b[|a|];
      AncestorMeans(a, c);
    }
  }

  /** Two directories around one path lie one within the other. */
  lemma AroundOnePath(a: string, b: string, path: string)
    requires Within(path, a) && Within(path, b)
    ensures Within(a, b) || Within(b, a)
  {
    if path != a && path != b {
      AncestorIsShorter(a, path);
      AncestorIsShorter(b, path);
      if |a| < |b| {
        assert b[..|a|] == a && b[|a|] == '/';
        AncestorMeans(a, b);
      } else if |b| < |a| {
        assert a[..|b|] == b && a[|b|] == '/';
        AncestorMeans(b, a);
      } else {
        assert a == b;
      }
    }
  }

  // -------------------------------------------------------------------- coverage

  /**
   * The files directly in directory x are checked out: x is the root, lies in a selected
   * directory, or leads to one.
   */
  ghost predicate Covers(selection: set<string>, x: string) {
    x == "" || exists d :: d in selection && Touches(d, x)
  }

  predicate Touches(d: string, x: string) {
    Within(x, d) || Within(d, x)
  }

  ghost predicate SameCoverage(a: set<string>, b: set<string>) {
    forall x :: Covers(a, x) <==> Covers(b, x)
  }

  predicate AncestorFree(s: set<string>) {
    forall a, b :: a in s && b in s ==> !Ancestor(a, b)
  }

  function Cleaned(paths: seq<string>): set<string> {
    set p | p in paths && NormalizePath(p) != "" :: NormalizePath(p)
  }

  function Topmost(s: set<string>): set<string> {
    set p | p in s && !exists other :: other in s && other != p && Ancestor(other, p)
  }

  function Normalize(paths: seq<string>): set<string> {
    Topmost(Cleaned(paths))
  }

  lemma {:induction false} HasTopmost(s: set<string>, p: string) returns (top: string)
    requires p in s
    ensures top in Topmost(s) && Within(p, top)
    decreases |p|
  {
    if other :| other in s && other != p && Ancestor(other, p) {
      AncestorIsShorter(other, p);
      top := HasTopmost(s, other);
      WithinIsTransitive(top, other, p);
    } else {
      top := p;
    }
  }

  /** What one directory touches, a directory around it touches. */
  lemma TouchesThroughTop(p: string, top: string, x: string)
    requires Within(p, top) && Touches(p, x)
    ensures Touches(top, x)
  {
    if Within(x, p) {
      WithinIsTransitive(top, p, x);
    } else {
      AroundOnePath(top, x, p);
    }
  }

  /** Replacing directories by ones around them, and only by ones already there, keeps the coverage. */
  lemma CoverageThroughTops(s: set<string>, tops: set<string>)
    requires tops <= s && forall p :: p in s ==> exists top :: top in tops && Within(p, top)
    ensures SameCoverage(s, tops)
  {
    forall x ensures Covers(s, x) <==> Covers(tops, x) {
      if x != "" && Covers(s, x) {
        var p :| p in s && Touches(p, x);
        var top :| top in tops && Within(p, top);
        TouchesThroughTop(p, top, x);
      }
    }
  }

  lemma TopmostKeepsCoverage(s: set<string>)
    ensures SameCoverage(s, Topmost(s))
  {
    forall p | p in s ensures exists top :: top in Topmost(s) && Within(p, top) {
      var top := HasTopmost(s, p);
    }
    CoverageThroughTops(s, Topmost(s));
  }

  lemma TopmostIsAncestorFree(s: set<string>)
    ensures AncestorFree(Topmost(s))
  {
    forall a, b | a in Topmost(s) && b in Topmost(s) && Ancestor(a, b) ensures a == b {
    }
    forall a ensures !Ancestor(a, a) {
      if Ancestor(a, a) { AncestorIsShorter(a, a); }
    }
  }

  /** Normalising leaves no directory inside another and changes no coverage. */
  lemma NormalizationKeepsCoverage(paths: seq<string>)
    ensures AncestorFree(Normalize(paths)) && SameCoverage(Cleaned(paths), Normalize(paths))
  {
    TopmostIsAncestorFree(Cleaned(paths));
    TopmostKeepsCoverage(Cleaned(paths));
  }

  // ------------------------------------------------- coverage decides a selection

  function Stretch(n: nat): (r: string)
    ensures |r| == n && forall i :: 0 <= i < n ==> r[i] == 'x'
  {
    seq(n, i => 'x')
  }

  lemma {:induction false} LongerThanAll(s: set<string>) returns (n: nat)
    ensures forall d :: d in s ==> |d| < n
    decreases |s|
  {
    if s == {} {
      n := 0;
    } else {
      var d :| d in s;
      var m := LongerThanAll(s - {d});
      n := if m > |d| then m else |d| + 1;
      assert forall e :: e in s ==> e == d || e in s - {d};
    }
  }

  /** Everything below a selected directory is covered, so another selection with the same coverage reaches it. */
  lemma ReachedByTheOther(a: set<string>, b: set<string>, d: string) returns (e: string)
    requires SameCoverage(a, b) && d in a
    ensures e in b && Within(d, e)
  {
    var n := LongerThanAll(b);
    var x := d + "/" + Stretch(n);
    assert Ancestor(d, x) by {
      assert x[..|d| + 1] == d + "/";
    }
    assert Covers(a, x) by { assert Touches(d, x); }
    assert Covers(b, x);
    e :| e in b && Touches(e, x);
    assert |e| < n;
    assert Ancestor(e, x) by {
      if Ancestor(x, e) { AncestorIsShorter(x, e); }
    }
    AncestorIsShorter(e, x);
    assert forall i :: |d| < i < |x| ==> x[i] == Stretch(n)[i - |d| - 1];
    if |e| < |d| {
      assert x[..|e|] == d[..|e|] && x[|e|] == d[|e|];
      AncestorMeans(e, d);
    } else {
      assert x[..|d|] == d;
    }
  }

  /** Two selections without nested directories that cover the same are the same. */
  lemma CoverageDecidesSelection(a: set<string>, b: set<string>)
    requires AncestorFree(a) && AncestorFree(b) && SameCoverage(a, b)
    ensures a == b
  {
    forall d | d in a ensures d in b { FoundInOther(a, b, d); }
    forall d | d in b ensures d in a { FoundInOther(b, a, d); }
  }

  lemma FoundInOther(a: set<string>, b: set<string>, d: string)
    requires AncestorFree(a) && SameCoverage(a, b) && d in a
    ensures d in b
  {
    var e := ReachedByTheOther(a, b, d);
    var c := ReachedByTheOther(b, a, e);
    WithinIsTransitive(c, e, d);
    assert c == d;
    WithinIsLonger(d, e);
    WithinIsLonger(e, d);
  }

  lemma WithinIsLonger(path: string, a: string)
    requires Within(path, a)
    ensures |a| <= |path| && (|a| == |path| ==> a == path)
  {
    if path != a { AncestorIsShorter(a, path); }
  }

  // -------------------------------------------------------------------- the plan

  datatype Action = SetTo | Expand | Contract | Nothing

  datatype Plan = Plan(action: Action, directories: set<string>, added: set<string>, removed: set<string>)

  datatype SparseState = SparseState(enabled: bool, cone: bool, directories: seq<string>)

  function ContractPayload(reported: seq<string>, removed: set<string>): set<string> {
    var payload := set d | d in reported
        && (NormalizePath(d) in removed || exists r :: r in removed && Ancestor(r, NormalizePath(d)));
    if payload != {} then payload else removed
  }

  function Planned(current: SparseState, selection: seq<string>): Plan {
    var next := Normalize(selection);
    if !current.enabled then Plan(if next != {} then SetTo else Nothing, next, next, {})
    else
      var existing := Normalize(current.directories);
      var added, removed := next - existing, existing - next;
      if added == {} && removed == {} then Plan(Nothing, next, added, removed)
      else if removed == {} then Plan(Expand, added, added, removed)
      else if added == {} then Plan(Contract, ContractPayload(current.directories, removed), added, removed)
      else Plan(SetTo, next, added, removed)
  }

  // ----------------------------------------------------------- carrying it out

  datatype Refusal = InvalidDirectory | NonCone | DirtyPaths | MissingDirectories | SparseDisabled | DirectoryMissing

  /** What the backend makes of one directory name: None is refused, the empty name is dropped. */
  type Tidy = string -> Option<string>

  function Tidied(directories: seq<string>, tidy: Tidy): Option<seq<string>> {
    if directories == [] then Some([])
    else
      var last := |directories| - 1;
      match (Tidied(directories[..last], tidy), tidy(directories[last]))
      case (Some(before), Some(d)) => Some(if d == "" || d in before then before else before + [d])
      case _ => None
  }

  function AfterSet(s: SparseState, directories: seq<string>, tidy: Tidy, dirty: bool): Result<SparseState, Refusal> {
    match Tidied(directories, tidy)
    case None => Err(InvalidDirectory)
    case Some(tidied) =>
      if s.enabled && !s.cone then Err(NonCone)
      else if s.enabled && dirty then Err(DirtyPaths)
      else Ok(SparseState(true, true, tidied))
  }

  function Union(a: seq<string>, b: seq<string>): seq<string> {
    if b == [] then a
    else
      var before := Union(a, b[..|b| - 1]);
      if b[|b| - 1] in before then before else before + [b[|b| - 1]]
  }

  function AfterExpand(s: SparseState, directories: seq<string>, tidy: Tidy, dirty: bool): Result<SparseState, Refusal>
  {
    match Tidied(directories, tidy)
    case None => Err(InvalidDirectory)
    case Some(tidied) =>
      if tidied == [] then Err(MissingDirectories)
      else if s.enabled && !s.cone then Err(NonCone)
      else if !s.enabled then AfterSet(s, tidied, tidy, dirty)
      else Ok(s.(directories := Union(s.directories, tidied)))
  }

  function Without(directories: seq<string>, remove: seq<string>): seq<string> {
    if directories == [] then []
    else
      var before := Without(directories[..|directories| - 1], remove);
      if directories[|directories| - 1] in remove then before else before + [directories[|directories| - 1]]
  }

  function AfterContract(
      s: SparseState, directories: seq<string>, tidy: Tidy, dirty: bool): Result<SparseState, Refusal>
  {
    match Tidied(directories, tidy)
    case None => Err(InvalidDirectory)
    case Some(tidied) =>
      if tidied == [] then Err(MissingDirectories)
      else if !s.enabled then Err(SparseDisabled)
      else if !s.cone then Err(NonCone)
      else
        var next := Without(s.directories, tidied);
        if |next| == |s.directories| then Err(DirectoryMissing) else AfterSet(s, next, tidy, dirty)
  }

  /** The checkout of one worktree. */
  class Checkout {
    var enabled: bool
    var cone: bool
    var directories: seq<string>
    const tidy: Tidy

    ghost function State(): SparseState
      reads this
    {
      SparseState(enabled, cone, directories)
    }

    constructor (tidy: Tidy)
      ensures State() == SparseState(false, false, []) && this.tidy == tidy
    {
      enabled, cone, directories := false, false, [];
      this.tidy := tidy;
    }

    method NormalizeSparseDirectories(names: seq<string>) returns (r: Option<seq<string>>)
      ensures r == Tidied(names, tidy)
    {
      var result: seq<string> := [];
      for i := 0 to |names|
        invariant Tidied(names[..i], tidy) == Some(result)
      {
        assert names[..i + 1][..i] == names[..i];
        var directory := tidy(names[i]);
        if directory.None? {
          RefusalStays(names, i + 1, tidy);
          return None;
        }
        if directory.value == "" { continue; }
        if directory.value !in result { result := result + [directory.value]; }
      }
      assert names[..|names|] == names;
      return Some(result);
    }

    method SparseSet(names: seq<string>, dirty: bool) returns (r: Option<Refusal>)
      modifies this
      ensures var after := AfterSet(old(State()), names, tidy, dirty);
        r == (if after.Ok? then None else Some(after.error))
          && State() == if after.Ok? then after.value else old(State())
    {
      var tidied := NormalizeSparseDirectories(names);
      if tidied.None? { return Some(InvalidDirectory); }
      if enabled && !cone { return Some(NonCone); }
      if enabled && dirty { return Some(DirtyPaths); }
      enabled, cone, directories := true, true, tidied.value;
      return None;
    }

    method SparseExpand(names: seq<string>, dirty: bool) returns (r: Option<Refusal>)
      modifies this
      ensures var after := AfterExpand(old(State()), names, tidy, dirty);
        r == (if after.Ok? then None else Some(after.error))
          && State() == if after.Ok? then after.value else old(State())
    {
      var tidied := NormalizeSparseDirectories(names);
      if tidied.None? { return Some(InvalidDirectory); }
      if |tidied.value| == 0 { return Some(MissingDirectories); }
      if enabled && !cone { return Some(NonCone); }
      if !enabled {
        r := SparseSet(tidied.value, dirty);
        return;
      }
      directories := Union(directories, tidied.value);
      return None;
    }

    method SparseContract(names: seq<string>, dirty: bool) returns (r: Option<Refusal>)
      modifies this
      ensures var after := AfterContract(old(State()), names, tidy, dirty);
        r == (if after.Ok? then None else Some(after.error))
          && State() == if after.Ok? then after.value else old(State())
    {
      var tidied := NormalizeSparseDirectories(names);
      if tidied.None? { return Some(InvalidDirectory); }
      if |tidied.value| == 0 { return Some(MissingDirectories); }
      if !enabled { return Some(SparseDisabled); }
      if !cone { return Some(NonCone); }
      var next: seq<string> := [];
      for i := 0 to |directories|
        invariant next == Without(directories[..i], tidied.value)
      {
        assert directories[..i + 1][..i] == directories[..i];
        if directories[i] !in tidied.value { next := next + [directories[i]]; }
      }
      assert directories[..|directories|] == directories;
      if |next| == |directories| { return Some(DirectoryMissing); }
      r := SparseSet(next, dirty);
    }
  }

  lemma {:induction false} RefusalStays(names: seq<string>, n: nat, tidy: Tidy)
    requires n <= |names| && Tidied(names[..n], tidy).None?
    ensures Tidied(names, tidy).None?
    decreases |names| - n
  {
    if n == |names| {
      assert names[..n] == names;
    } else {
      assert names[..n + 1][..n] == names[..n];
      RefusalStays(names, n + 1, tidy);
    }
  }

  // ------------------------------------------------------------ the plan arrives

  function Members(names: seq<string>): set<string> {
    set d | d in names
  }

  /** Names the picker and the backend both leave alone. */
  ghost predicate Clean(names: seq<string>, tidy: Tidy) {
    forall d :: d in names ==> d != "" && NormalizePath(d) == d && tidy(d) == Some(d)
  }

  lemma {:induction false} CleanIsTidied(names: seq<string>, tidy: Tidy)
    requires Clean(names, tidy)
    ensures Tidied(names, tidy).Some? && Members(Tidied(names, tidy).value) == Members(names)
  {
    hide NormalizePath;
    if names != [] {
      var last := |names| - 1;
      assert names == names[..last] + [names[last]];
      assert forall d :: d in names[..last] ==> d in names;
      assert names[last] in names;
      CleanIsTidied(names[..last], tidy);
      assert Members(names) == Members(names[..last]) + {names[last]};
      assert forall d :: d in Tidied(names[..last], tidy).value <==> d in Members(names[..last]);
    }
  }

  lemma {:induction false} UnionMembers(a: seq<string>, b: seq<string>)
    ensures Members(Union(a, b)) == Members(a) + Members(b)
  {
    if b != [] {
      var last := |b| - 1;
      UnionMembers(a, b[..last]);
      assert b == b[..last] + [b[last]];
      assert Members(b) == Members(b[..last]) + {b[last]};
      assert forall d :: d in Union(a, b[..last]) <==> d in Members(Union(a, b[..last]));
    }
  }

  lemma {:induction false} WithoutMembers(names: seq<string>, remove: seq<string>)
    ensures Members(Without(names, remove)) == Members(names) - Members(remove)
    ensures |Without(names, remove)| <= |names|
    ensures |Without(names, remove)| == |names| ==> Members(names) !! Members(remove)
  {
    if names != [] {
      var last := |names| - 1;
      WithoutMembers(names[..last], remove);
      assert names == names[..last] + [names[last]];
      assert Members(names) == Members(names[..last]) + {names[last]};
      var before := Without(names[..last], remove);
      assert forall d :: d in before <==> d in Members(before);
      assert Members(before + [names[last]]) == Members(before) + {names[last]};
    }
  }

  lemma CleanNames(names: seq<string>, tidy: Tidy)
    requires Clean(names, tidy)
    ensures Cleaned(names) == Members(names)
  {
    assert forall p :: p in names ==> NormalizePath(p) == p;
  }

  /** Removing the payload leaves the reported directories whose topmost directory stays. */
  lemma ContractionKeepsTheRest(reported: seq<string>, next: set<string>, tidy: Tidy)
    requires Clean(reported, tidy) && next <= Normalize(reported) && next != Normalize(reported)
    ensures var payload := ContractPayload(reported, Normalize(reported) - next);
      payload != {} && payload <= Members(reported) && SameCoverage(Members(reported) - payload, next)
  {
    hide NormalizePath, Within, Ancestor;
    var existing := Normalize(reported);
    var removed := existing - next;
    CleanNames(reported, tidy);
    NormalizationKeepsCoverage(reported);
    var payload := ContractPayload(reported, removed);
    var gone: string :| gone in removed;
    assert gone in reported && NormalizePath(gone) == gone;
    var raw := set d | d in reported
        && (NormalizePath(d) in removed || exists r :: r in removed && Ancestor(r, NormalizePath(d)));
    assert gone in raw;
    assert payload == raw;
    var left := Members(reported) - payload;
    forall p | p in left ensures exists top :: top in next && Within(p, top) {
      var top := HasTopmost(Members(reported), p);
      assert NormalizePath(p) == p;
      assert top !in removed;
    }
    forall d | d in next ensures d in left {
      assert d in existing && NormalizePath(d) == d;
    }
    CoverageThroughTops(left, next);
  }

  lemma UnionCoverage(a: set<string>, b: set<string>, more: set<string>)
    requires SameCoverage(a, b)
    ensures SameCoverage(a + more, b + more)
  {
    forall x ensures Covers(a + more, x) <==> Covers(b + more, x) {
      assert Covers(a, x) <==> Covers(b, x);
      assert Covers(a + more, x) <==> Covers(a, x) || Covers(more, x);
      assert Covers(b + more, x) <==> Covers(b, x) || Covers(more, x);
    }
  }

  /** What the dialog sends: the planned directories as a list, to the operation of the planned action. */
  function Carried(
      s: SparseState, plan: Plan, names: seq<string>, tidy: Tidy, dirty: bool): Result<SparseState, Refusal>
  {
    match plan.action
    case SetTo => AfterSet(s, names, tidy, dirty)
    case Expand => AfterExpand(s, names, tidy, dirty)
    case Contract => AfterContract(s, names, tidy, dirty)
    case Nothing => Ok(s)
  }

  /**
   * For an enabled cone checkout with clean names and no dirty path in the way, carrying
   * out the planned action leaves exactly the coverage of the selection.
   */
  lemma PlanReachesTheSelection(s: SparseState, selection: seq<string>, names: seq<string>, tidy: Tidy)
    requires s.enabled && s.cone && Clean(s.directories, tidy)
    requires Members(names) == Planned(s, selection).directories && Clean(names, tidy)
    ensures var after := Carried(s, Planned(s, selection), names, tidy, false);
      && after.Ok? && after.value.enabled && after.value.cone
      && SameCoverage(Members(after.value.directories), Cleaned(selection))
  {
    var plan, next, existing := Planned(s, selection), Normalize(selection), Normalize(s.directories);
    NormalizationKeepsCoverage(selection);
    NormalizationKeepsCoverage(s.directories);
    CleanNames(s.directories, tidy);
    CleanIsTidied(names, tidy);
    var tidied := Tidied(names, tidy).value;
    match plan.action
    case Nothing => assert next == existing;
    case SetTo =>
    case Expand =>
      EmptyDifference(existing, next);
      ExpansionArrives(s, next, names, tidy);
    case Contract =>
      EmptyDifference(next, existing);
      ContractionArrives(s, next, names, tidy);
  }

  lemma EmptyDifference(a: set<string>, b: set<string>)
    ensures a - b == {} <==> a <= b
  {
    if a - b == {} {
      forall x | x in a ensures x in b {
        assert x !in a - b;
      }
    }
  }

  lemma ExpansionArrives(s: SparseState, next: set<string>, names: seq<string>, tidy: Tidy)
    requires s.enabled && s.cone && Clean(s.directories, tidy) && Clean(names, tidy)
    requires var existing := Normalize(s.directories);
             existing <= next && existing != next && Members(names) == next - existing
    ensures var after := AfterExpand(s, names, tidy, false);
      && after.Ok? && after.value.enabled && after.value.cone
      && SameCoverage(Members(after.value.directories), next)
  {
    var existing := Normalize(s.directories);
    NormalizationKeepsCoverage(s.directories);
    CleanNames(s.directories, tidy);
    CleanIsTidied(names, tidy);
    var tidied := Tidied(names, tidy).value;
    EmptyDifference(next, existing);
    assert Members(tidied) != {};
    UnionMembers(s.directories, tidied);
    UnionCoverage(Members(s.directories), existing, next - existing);
    assert existing + (next - existing) == next;
  }

  lemma ContractionArrives(s: SparseState, next: set<string>, names: seq<string>, tidy: Tidy)
    requires s.enabled && s.cone && Clean(s.directories, tidy) && Clean(names, tidy)
    requires var existing := Normalize(s.directories);
      next <= existing && existing != next && Members(names) == ContractPayload(s.directories, existing - next)
    ensures var after := AfterContract(s, names, tidy, false);
      && after.Ok? && after.value.enabled && after.value.cone
      && SameCoverage(Members(after.value.directories), next)
  {
    hide NormalizePath, Normalize, Within, Ancestor;
    ContractionKeepsTheRest(s.directories, next, tidy);
    CleanIsTidied(names, tidy);
    var tidied := Tidied(names, tidy).value;
    assert Members(tidied) != {};
    WithoutMembers(s.directories, tidied);
    var rest := Without(s.directories, tidied);
    assert forall d :: d in rest ==> d in Members(rest);
    CleanIsTidied(rest, tidy);
  }

  /** Nothing is planned exactly when the checkout covers what is asked for already. */
  lemma NothingMeansCovered(s: SparseState, selection: seq<string>)
    requires s.enabled
    ensures Planned(s, selection).action == Nothing <==> SameCoverage(Cleaned(s.directories), Cleaned(selection))
  {
    NormalizationKeepsCoverage(selection);
    NormalizationKeepsCoverage(s.directories);
    if SameCoverage(Cleaned(s.directories), Cleaned(selection)) {
      CoverageDecidesSelection(Normalize(s.directories), Normalize(selection));
    }
  }

  /** The first plan for a whole checkout: nothing when nothing is asked for, and otherwise a sparse
      checkout of exactly what is, which no dirty path can refuse. */
  lemma FirstPlanReachesTheSelection(
      s: SparseState, selection: seq<string>, names: seq<string>, tidy: Tidy, dirty: bool)
    requires !s.enabled && Members(names) == Planned(s, selection).directories && Clean(names, tidy)
    ensures Planned(s, selection).action == if Cleaned(selection) == {} then Nothing else SetTo
    ensures var after := Carried(s, Planned(s, selection), names, tidy, dirty);
      after.Ok? && if Cleaned(selection) == {} then after.value == s
                   else
                     && after.value.enabled && after.value.cone
                     && SameCoverage(Members(after.value.directories), Cleaned(selection))
  {
    NormalizationKeepsCoverage(selection);
    CleanIsTidied(names, tidy);
    if p :| p in Cleaned(selection) {
      var top := HasTopmost(Cleaned(selection), p);
      assert top in Normalize(selection);
    }
  }

  /**
   * A plan for a sparse checkout says what changes, in topmost directories: what is added and what is
   * removed. It expands when nothing is removed and contracts when nothing is added, naming then only
   * what goes; only when both happen does it replace the whole selection.
   */
  lemma PlanSaysWhatChanges(s: SparseState, selection: seq<string>)
    requires s.enabled
    ensures var plan, old', new' := Planned(s, selection), Normalize(s.directories), Normalize(selection);
      && (forall d :: d in plan.added <==> d in new' && d !in old')
      && (forall d :: d in plan.removed <==> d in old' && d !in new')
      && (plan.action == Nothing <==> old' == new')
      && (plan.action == Expand <==> old' < new')
      && (plan.action == Contract <==> new' < old')
      && (plan.action == Expand ==> plan.directories == plan.added)
      && (plan.action == Contract ==> NamesRemoved(s.directories, plan.removed, plan.directories))
      && (plan.action == SetTo || plan.action == Nothing ==> plan.directories == new')
  {
    hide NormalizePath, Normalize, Ancestor;
    var old', new' := Normalize(s.directories), Normalize(selection);
    EmptyDifference(old', new');
    EmptyDifference(new', old');
    PayloadNames(s.directories, old' - new');
  }

  lemma PayloadNames(reported: seq<string>, removed: set<string>)
    ensures NamesRemoved(reported, removed, ContractPayload(reported, removed))
  {
    hide NormalizePath, Ancestor, LiesInRemoved;
    var named := set d | d in reported
        && (NormalizePath(d) in removed || exists r :: r in removed && Ancestor(r, NormalizePath(d)));
    forall d | d in reported ensures d in named <==> LiesInRemoved(NormalizePath(d), removed) {
      LiesInOrIs(NormalizePath(d), removed);
    }
    assert ContractPayload(reported, removed) == if named != {} then named else removed;
  }

  lemma LiesInOrIs(d: string, removed: set<string>)
    ensures LiesInRemoved(d, removed) <==> d in removed || exists r :: r in removed && Ancestor(r, d)
  {
    if d in removed {
      assert Within(d, d);
    }
    if r :| r in removed && Ancestor(r, d) {
      assert Within(d, r);
    }
  }

  /** The reported directories that are, or lie in, a removed one; or the removed ones if none is reported so. */
  ghost predicate NamesRemoved(reported: seq<string>, removed: set<string>, named: set<string>) {
    || (named != {} && forall d :: d in named <==> d in reported && LiesInRemoved(NormalizePath(d), removed))
    || (named == removed && forall d :: d in reported ==> !LiesInRemoved(NormalizePath(d), removed))
  }

  ghost predicate LiesInRemoved(d: string, removed: set<string>) {
    exists r :: r in removed && Within(d, r)
  }

  /** What the picker makes of a path: white space goes at both ends, then slashes. */
  lemma NormalizedPathIs(path: string) returns (a: nat, b: nat, c: nat, d: nat)
    ensures a <= b <= |path| && a <= c <= d <= b && NormalizePath(path) == path[c..d]
    ensures forall i :: 0 <= i < a || b <= i < |path| ==> IsSpace(path[i])
    ensures a < b ==> !IsSpace(path[a]) && !IsSpace(path[b - 1])
    ensures forall i :: a <= i < c || d <= i < b ==> path[i] == '/'
    ensures c < d ==> path[c] != '/' && path[d - 1] != '/'
  {
    hide DropLeading, DropTrailing;
    a, b := DroppedAround(path, IsSpace);
    var trimmed := path[a..b];
    var m, k := DroppedAround(trimmed, c => c == '/');
    c, d := a + m, a + k;
    assert trimmed[m..k] == path[c..d];
    forall i | a <= i < c || d <= i < b ensures path[i] == '/' {
      assert path[i] == trimmed[i - a];
    }
  }

  // ---------------------------------------------------------------- what is refused

  ghost predicate AllTidy(names: seq<string>, tidy: Tidy) {
    forall d :: d in names ==> tidy(d).Some?
  }

  /** The names the backend works with are the tidied ones but the empty name, each once. */
  lemma {:induction false} TidiedIs(names: seq<string>, tidy: Tidy)
    ensures Tidied(names, tidy).Some? <==> AllTidy(names, tidy)
    ensures Tidied(names, tidy).Some? ==>
              && Distinct(Tidied(names, tidy).value)
              && forall x :: x in Tidied(names, tidy).value <==> x != "" && exists d :: d in names && tidy(d) == Some(x)
  {
    if names != [] {
      var last := |names| - 1;
      TidiedIs(names[..last], tidy);
      assert names == names[..last] + [names[last]];
      assert forall d :: d in names <==> d in names[..last] || d == names[last];
    }
  }

  /** Replacing is refused exactly for a bad name, a checkout not in cone mode, or dirty paths in a sparse one. */
  lemma SetIsRefused(s: SparseState, names: seq<string>, tidy: Tidy, dirty: bool)
    ensures var after := AfterSet(s, names, tidy, dirty);
      && (after.Ok? <==> AllTidy(names, tidy) && !(s.enabled && (!s.cone || dirty)))
      && (after.Ok? ==> after.value == SparseState(true, true, Tidied(names, tidy).value))
      && (after == Err(InvalidDirectory) <==> !AllTidy(names, tidy))
      && (after == Err(NonCone) <==> AllTidy(names, tidy) && s.enabled && !s.cone)
      && (after == Err(DirtyPaths) <==> AllTidy(names, tidy) && s.enabled && s.cone && dirty)
  {
    TidiedIs(names, tidy);
  }

  /** Adding is never refused for dirty paths in a sparse checkout, and keeps what was there. */
  lemma ExpandIsRefused(s: SparseState, names: seq<string>, tidy: Tidy, dirty: bool)
    requires Tidied(names, tidy).Some?
    ensures var after, tidied := AfterExpand(s, names, tidy, dirty), Tidied(names, tidy).value;
      && (tidied == [] <==> after == Err(MissingDirectories))
      && (tidied != [] && s.enabled ==> (after.Ok? <==> s.cone))
      && (tidied != [] && s.enabled && !s.cone ==> after == Err(NonCone))
      && (tidied != [] && s.enabled && s.cone ==>
            after.value.enabled && after.value.cone
            && Members(after.value.directories) == Members(s.directories) + Members(tidied))
      && (tidied != [] && !s.enabled ==> after == AfterSet(s, tidied, tidy, dirty))
  {
    TidiedIs(names, tidy);
    if Tidied(names, tidy).value != [] {
      UnionMembers(s.directories, Tidied(names, tidy).value);
    }
  }

  /** Removing is refused for a checkout that is not sparse, not in cone mode, or has none of the directories. */
  lemma ContractIsRefused(s: SparseState, names: seq<string>, tidy: Tidy, dirty: bool)
    requires Tidied(names, tidy).Some? && Tidied(names, tidy).value != []
    ensures var after, tidied := AfterContract(s, names, tidy, dirty), Tidied(names, tidy).value;
      && (after == Err(SparseDisabled) <==> !s.enabled)
      && (after == Err(NonCone) <==> s.enabled && !s.cone)
      && (after == Err(DirectoryMissing) <==> s.enabled && s.cone && Members(s.directories) !! Members(tidied))
      && (s.enabled && s.cone && !(Members(s.directories) !! Members(tidied)) ==>
            after == AfterSet(s, Without(s.directories, tidied), tidy, dirty)
            && Members(Without(s.directories, tidied)) == Members(s.directories) - Members(tidied))
  {
    var tidied := Tidied(names, tidy).value;
    WithoutMembers(s.directories, tidied);
    if Members(s.directories) !! Members(tidied) {
      NothingWithout(s.directories, tidied);
    }
    TidiedIs(Without(s.directories, tidied), tidy);
  }

  lemma {:induction false} NothingWithout(names: seq<string>, remove: seq<string>)
    requires Members(names) !! Members(remove)
    ensures Without(names, remove) == names
  {
    if names != [] {
      var last := |names| - 1;
      assert names == names[..last] + [names[last]];
      assert names[last] in Members(names) && forall d :: d in names[..last] ==> d in Members(names);
      NothingWithout(names[..last], remove);
    }
  }
}