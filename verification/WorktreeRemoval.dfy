/**
 * Removing merged worktrees and deleting their branches
 * (internal/desktop/service.go, RemoveMergedWorktrees).
 *
 * Commits are immutable; refs may be changed by other processes between any two reads.
 */
module WorktreeRemoval {
  import opened Common
  import opened Ancestry
  import CommitGraph

  type Oid = CommitGraph.Oid

  type Graph = seq<CommitGraph.Commit>

  // -------------------------------------------------------------- validation

  datatype Worktree = Worktree(
    path: string,
    branch: string,
    head: Oid,
    detached: bool,
    locked: bool,
    dirty: bool,
    merged: bool)

  /** What the snapshot taken at the start says. */
  datatype Snapshot = Snapshot(
    root: string,
    projectRoot: string,
    defaultBranch: string,
    defaultHead: Oid,
    worktrees: map<string, Worktree>)      // by canonical path

  /** What Git answers while one path is validated. */
  datatype Answers = Answers(
    clean: Option<bool>,                   // git status, None if it failed
    branchHead: Option<Oid>,               // the branch ref as read, None if it could not be
    merged: bool)                          // merge-base --is-ancestor branchHead defaultHead

  datatype Error =
    | NotRegistered | MainWorktree | CurrentWorktree | DetachedWorktree | LockedWorktree | DefaultWorktree
    | DirtyWorktree | NotMerged | StatusFailed | ChangedWorktree | BranchUnreadable | ChangedBranch | NoLongerMerged

  datatype Target = Target(path: string, branch: string, branchHead: Oid)

  function Check(snapshot: Snapshot, path: string, answers: Answers): Result<Target, Error> {
    if path !in snapshot.worktrees then Err(NotRegistered)
    else
      var w := snapshot.worktrees[path];
      if path == snapshot.projectRoot then Err(MainWorktree)
      else if path == snapshot.root then Err(CurrentWorktree)
      else if w.detached || w.branch == "" then Err(DetachedWorktree)
      else if w.locked then Err(LockedWorktree)
      else if w.branch == snapshot.defaultBranch then Err(DefaultWorktree)
      else if w.dirty then Err(DirtyWorktree)
      else if !w.merged then Err(NotMerged)
      else if answers.clean.None? then Err(StatusFailed)
      else if !answers.clean.value then Err(ChangedWorktree)
      else if answers.branchHead.None? then Err(BranchUnreadable)
      else if answers.branchHead.value != w.head then Err(ChangedBranch)
      else if !answers.merged then Err(NoLongerMerged)
      else Ok(Target(path, w.branch, answers.branchHead.value))
  }

  /** What an error says of the path, its worktree or Git's answers. */
  ghost predicate Faulty(snapshot: Snapshot, path: string, answers: Answers, error: Error) {
    match error
    case NotRegistered => path !in snapshot.worktrees
    case MainWorktree => path == snapshot.projectRoot
    case CurrentWorktree => path == snapshot.root
    case StatusFailed => answers.clean == None
    case ChangedWorktree => answers.clean == Some(false)
    case BranchUnreadable => answers.branchHead == None
    case NoLongerMerged => !answers.merged
    case _ => path in snapshot.worktrees && FaultyWorktree(snapshot, snapshot.worktrees[path], answers, error)
  }

  ghost predicate FaultyWorktree(snapshot: Snapshot, w: Worktree, answers: Answers, error: Error) {
    match error
    case DetachedWorktree => w.detached || w.branch == ""
    case LockedWorktree => w.locked
    case DefaultWorktree => w.branch == snapshot.defaultBranch
    case DirtyWorktree => w.dirty
    case NotMerged => !w.merged
    case ChangedBranch => answers.branchHead.Some? && answers.branchHead.value != w.head
    case _ => false
  }

  /** The order in which the faults are looked for. */
  function Place(error: Error): nat {
    match error
    case NotRegistered => 0
    case MainWorktree => 1
    case CurrentWorktree => 2
    case DetachedWorktree => 3
    case LockedWorktree => 4
    case DefaultWorktree => 5
    case DirtyWorktree => 6
    case NotMerged => 7
    case StatusFailed => 8
    case ChangedWorktree => 9
    case BranchUnreadable => 10
    case ChangedBranch => 11
    case NoLongerMerged => 12
  }

  ghost predicate FirstFault(snapshot: Snapshot, path: string, answers: Answers, error: Error) {
    && Faulty(snapshot, path, answers, error)
    && forall other :: Faulty(snapshot, path, answers, other) ==> Place(error) <= Place(other)
  }

  /** A registered worktree other than the two roots, attached, unlocked, not on the default branch,
      clean and merged, of which Git answered: clean, at this head, merged. */
  ghost predicate Acceptable(snapshot: Snapshot, path: string, answers: Answers) {
    && path in snapshot.worktrees && path != snapshot.projectRoot && path != snapshot.root
    && var w := snapshot.worktrees[path];
    && !w.detached && w.branch != "" && w.branch != snapshot.defaultBranch
    && !w.locked && !w.dirty && w.merged
    && answers == Answers(Some(true), Some(w.head), true)
  }

  function TargetOf(snapshot: Snapshot, path: string): Target
    requires path in snapshot.worktrees
  {
    Target(path, snapshot.worktrees[path].branch, snapshot.worktrees[path].head)
  }

  lemma ErrorIsFirstFault(snapshot: Snapshot, path: string, answers: Answers)
    ensures var r := Check(snapshot, path, answers);
      && (r.Ok? <==> Acceptable(snapshot, path, answers))
      && (r.Ok? ==> r.value == TargetOf(snapshot, path) && forall e :: !Faulty(snapshot, path, answers, e))
      && (r.Err? ==> FirstFault(snapshot, path, answers, r.error))
  {
  }

  /** A path is accepted exactly when nothing is wrong with it, and otherwise the first fault is the error. */
  lemma FirstFaultDecides(snapshot: Snapshot, path: string, answers: Answers, error: Error)
    ensures Check(snapshot, path, answers).Ok? <==> Acceptable(snapshot, path, answers)
    ensures Acceptable(snapshot, path, answers) ==> Check(snapshot, path, answers) == Ok(TargetOf(snapshot, path))
    ensures Check(snapshot, path, answers) == Err(error) <==> FirstFault(snapshot, path, answers, error)
  {
    hide Check, Acceptable, Faulty;
    ErrorIsFirstFault(snapshot, path, answers);
  }

  /** The first n requested paths, checked in order, duplicates skipped. */
  function Validated(snapshot: Snapshot, paths: seq<string>, answers: seq<Answers>, n: nat): Result<seq<Target>, Error>
    requires n <= |paths| && n <= |answers|
  {
    if n == 0 then Ok([])
    else
      match Validated(snapshot, paths, answers, n - 1)
      case Err(error) => Err(error)
      case Ok(targets) =>
        if paths[n - 1] in paths[..n - 1] then Ok(targets)
        else
          match Check(snapshot, paths[n - 1], answers[n - 1])
          case Err(error) => Err(error)
          case Ok(target) => Ok(targets + [target])
  }

  /** The validating loop of RemoveMergedWorktrees, over canonical paths. */
  method ValidateTargets(snapshot: Snapshot, paths: seq<string>, answers: seq<Answers>)
    returns (r: Result<seq<Target>, Error>)
    requires |paths| == |answers|
    ensures r == Validated(snapshot, paths, answers, |paths|)
  {
    var seen: set<string> := {};
    var targets: seq<Target> := [];
    for i := 0 to |paths|
      invariant seen == set p | p in paths[..i]
      invariant Validated(snapshot, paths, answers, i) == Ok(targets)
    {
      assert paths[..i + 1] == paths[..i] + [paths[i]];
      if paths[i] !in seen {
        seen := seen + {paths[i]};
        match Check(snapshot, paths[i], answers[i]) {
          case Err(error) =>
            ErrorStays(snapshot, paths, answers, i + 1, |paths|);
            return Err(error);
          case Ok(target) => targets := targets + [target];
        }
      }
    }
    return Ok(targets);
  }

  lemma {:induction false} ErrorStays(snapshot: Snapshot, paths: seq<string>, answers: seq<Answers>, m: nat, n: nat)
    requires m <= n <= |paths| == |answers| && Validated(snapshot, paths, answers, m).Err?
    ensures Validated(snapshot, paths, answers, n) == Validated(snapshot, paths, answers, m)
    decreases n
  {
    if m < n {
      ErrorStays(snapshot, paths, answers, m, n - 1);
    }
  }

  /** The path's first mention passed every check. */
  ghost predicate Passed(snapshot: Snapshot, paths: seq<string>, answers: seq<Answers>, i: nat)
    requires i < |paths| == |answers|
  {
    paths[i] in paths[..i] || Acceptable(snapshot, paths[i], answers[i])
  }

  ghost predicate Names(targets: seq<Target>, path: string) {
    exists j :: 0 <= j < |targets| && targets[j].path == path
  }

  /** Every target is what some requested path was checked to. */
  ghost predicate Checked(snapshot: Snapshot, paths: seq<string>, answers: seq<Answers>, n: nat, target: Target)
    requires n <= |paths| == |answers|
  {
    exists i :: 0 <= i < n && Acceptable(snapshot, paths[i], answers[i]) && target == TargetOf(snapshot, paths[i])
  }

  /** Removal starts exactly when every requested path passed every check. */
  lemma {:induction false} AllPathsPassed(snapshot: Snapshot, paths: seq<string>, answers: seq<Answers>, n: nat)
    requires n <= |paths| == |answers|
    ensures Validated(snapshot, paths, answers, n).Ok?
            <==> forall i :: 0 <= i < n ==> Passed(snapshot, paths, answers, i)
  {
    hide Check, Acceptable;
    if n > 0 {
      AllPathsPassed(snapshot, paths, answers, n - 1);
      ErrorIsFirstFault(snapshot, paths[n - 1], answers[n - 1]);
      if Validated(snapshot, paths, answers, n - 1).Ok? {
        assert Validated(snapshot, paths, answers, n).Ok? <==> Passed(snapshot, paths, answers, n - 1);
      }
    }
  }

  /** The i-th requested path, mentioned there first, is refused with this error after all before it passed. */
  ghost predicate RefusedAt(
      snapshot: Snapshot, paths: seq<string>, answers: seq<Answers>, i: nat, error: Error)
    requires i < |paths| == |answers|
  {
    && paths[i] !in paths[..i] && FirstFault(snapshot, paths[i], answers[i], error)
    && forall j :: 0 <= j < i ==> Passed(snapshot, paths, answers, j)
  }

  /** Validation fails with the error of the first path that does not pass. */
  lemma {:induction false} FirstRefusalDecides(
      snapshot: Snapshot, paths: seq<string>, answers: seq<Answers>, n: nat, error: Error)
    requires n <= |paths| == |answers|
    ensures Validated(snapshot, paths, answers, n) == Err(error)
            <==> exists i :: 0 <= i < n && RefusedAt(snapshot, paths, answers, i, error)
  {
    hide FirstFault, Acceptable, Check;
    if n > 0 {
      FirstRefusalDecides(snapshot, paths, answers, n - 1, error);
      AllPathsPassed(snapshot, paths, answers, n - 1);
      FirstFaultDecides(snapshot, paths[n - 1], answers[n - 1], error);
      if Validated(snapshot, paths, answers, n - 1).Err? {
        var j :| 0 <= j < n - 1 && !Passed(snapshot, paths, answers, j);
        assert !RefusedAt(snapshot, paths, answers, n - 1, error);
      } else {
        assert Validated(snapshot, paths, answers, n) == Err(error)
          <==> RefusedAt(snapshot, paths, answers, n - 1, error);
      }
    }
  }

  ghost predicate FirstAt(paths: seq<string>, i: nat, path: string) {
    i < |paths| && paths[i] == path && path !in paths[..i]
  }

  /** Targets come in the order in which their paths are first requested. */
  ghost predicate InRequestOrder(paths: seq<string>, targets: seq<Target>) {
    forall j, k, p: nat, q: nat ::
      0 <= j < k < |targets| && FirstAt(paths, p, targets[j].path) && FirstAt(paths, q, targets[k].path) ==> p < q
  }

  lemma {:induction false} TargetsAreInOrder(
      snapshot: Snapshot, paths: seq<string>, answers: seq<Answers>, n: nat)
    requires n <= |paths| == |answers| && Validated(snapshot, paths, answers, n).Ok?
    ensures InRequestOrder(paths, Validated(snapshot, paths, answers, n).value)
  {
    hide Check;
    if n > 0 {
      TargetsAreInOrder(snapshot, paths, answers, n - 1);
      TargetsAreThePaths(snapshot, paths, answers, n - 1);
      var before := Validated(snapshot, paths, answers, n - 1).value;
      ErrorIsFirstFault(snapshot, paths[n - 1], answers[n - 1]);
      forall j, p: nat | 0 <= j < |before| && FirstAt(paths, p, before[j].path) ensures p < n - 1 {
        assert Names(before, before[j].path);
      }
    }
  }

  /** The targets are the requested paths, each once, each with the branch head that was read. */
  lemma {:induction false} TargetsAreThePaths(snapshot: Snapshot, paths: seq<string>, answers: seq<Answers>, n: nat)
    requires n <= |paths| == |answers| && Validated(snapshot, paths, answers, n).Ok?
    ensures var targets := Validated(snapshot, paths, answers, n).value;
      && (forall j :: 0 <= j < |targets| ==> Checked(snapshot, paths, answers, n, targets[j]))
      && (forall p :: Names(targets, p) <==> p in paths[..n])
      && (forall j, k :: 0 <= j < k < |targets| ==> targets[j].path != targets[k].path)
  {
    hide Check, Acceptable;
    if n > 0 {
      TargetsAreThePaths(snapshot, paths, answers, n - 1);
      ErrorIsFirstFault(snapshot, paths[n - 1], answers[n - 1]);
      var before := Validated(snapshot, paths, answers, n - 1).value;
      assert paths[..n] == paths[..n - 1] + [paths[n - 1]];
      forall j | 0 <= j < |before| ensures Checked(snapshot, paths, answers, n, before[j]) {
        assert Checked(snapshot, paths, answers, n - 1, before[j]);
      }
      if paths[n - 1] !in paths[..n - 1] {
        var target := Check(snapshot, paths[n - 1], answers[n - 1]).value;
        OneMoreTarget(before, target);
      }
    }
  }

  lemma OneMoreTarget(targets: seq<Target>, target: Target)
    requires !Names(targets, target.path)
    requires forall j, k :: 0 <= j < k < |targets| ==> targets[j].path != targets[k].path
    ensures forall p :: Names(targets + [target], p) <==> Names(targets, p) || p == target.path
    ensures forall j, k :: 0 <= j < k < |targets| + 1 ==> (targets + [target])[j].path != (targets + [target])[k].path
  {
    var more := targets + [target];
    forall p ensures Names(more, p) <==> Names(targets, p) || p == target.path {
      assert more[|targets|] == target;
      if Names(targets, p) {
        var j :| 0 <= j < |targets| && targets[j].path == p;
        assert more[j].path == p;
      }
    }
    forall j | 0 <= j < |targets| ensures targets[j].path != target.path {
      assert Names(targets, targets[j].path);
    }
  }

  // ------------------------------------------------------------------ removal

  type Refs = map<string, Oid>             // local branches

  /** What became of the transaction. Killed by its deadline, it may have been committed. */
  datatype Reply = Succeeds | Fails | FailsAfterEffect

  /** deleteBranchIfDefaultUnchanged: one atomic transaction, verify then delete. */
  function DeleteIfDefaultUnchanged(refs: Refs, snapshot: Snapshot, target: Target): Option<Refs> {
    if snapshot.defaultBranch in refs && refs[snapshot.defaultBranch] == snapshot.defaultHead
       && target.branch in refs && refs[target.branch] == target.branchHead
    then Some(refs - {target.branch})
    else None
  }

  datatype Pc = Validating(n: nat) | Refused | Removing(n: nat) | Stopped

  datatype State = State(
    refs: Refs,
    pc: Pc,
    targets: seq<Target>,
    seen: seq<string>,                     // paths validated so far
    deleted: seq<Target>)                  // branches known to be deleted

  datatype Step =
    | Validate(answers: Answers)           // checks the next path
    | Begin                                // every path has been checked
    | Remove(worktree: bool, reply: Reply) // removes the next worktree, and if that worked its branch
    | Others(refs: Refs)

  /** The branch ref is read, and ancestry is asked, of the repository as it is. */
  ghost predicate Truthful(graph: Graph, snapshot: Snapshot, s: State, path: string, answers: Answers) {
    path in snapshot.worktrees ==>
      && (answers.branchHead.Some? ==>
            var branch := snapshot.worktrees[path].branch;
            branch in s.refs && s.refs[branch] == answers.branchHead.value)
      && (answers.branchHead.Some? && answers.merged ==>
            Reaches(graph, snapshot.defaultHead, answers.branchHead.value))
  }

  ghost predicate Enabled(graph: Graph, snapshot: Snapshot, paths: seq<string>, s: State, step: Step) {
    match step
    case Validate(answers) =>
      s.pc.Validating? && s.pc.n < |paths| && Truthful(graph, snapshot, s, paths[s.pc.n], answers)
    case Begin => s.pc.Validating? && s.pc.n == |paths|
    case Remove(_, _) => s.pc.Removing? && s.pc.n < |s.targets|
    case Others(_) => true
  }

  function Apply(snapshot: Snapshot, paths: seq<string>, s: State, step: Step): State
    requires step.Validate? ==> s.pc.Validating? && s.pc.n < |paths|
    requires step.Remove? ==> s.pc.Removing? && s.pc.n < |s.targets|
  {
    match step
    case Validate(answers) =>
      var path := paths[s.pc.n];
      if path in s.seen then s.(pc := Validating(s.pc.n + 1))
      else
        (match Check(snapshot, path, answers)
         case Err(_) => s.(pc := Refused)
         case Ok(target) =>
           s.(pc := Validating(s.pc.n + 1), targets := s.targets + [target], seen := s.seen + [path]))
    case Begin => s.(pc := Removing(0))
    case Remove(worktree, reply) =>
      var target := s.targets[s.pc.n];
      (match if worktree && reply != Fails then DeleteIfDefaultUnchanged(s.refs, snapshot, target) else None
       case None => s.(pc := Stopped)
       case Some(refs) =>
         if reply == FailsAfterEffect then s.(refs := refs, pc := Stopped)
         else s.(refs := refs, pc := Removing(s.pc.n + 1), deleted := s.deleted + [target]))
    case Others(refs) => s.(refs := refs)
  }

  /** States, and the steps between them. */
  datatype Run = Run(states: seq<State>, steps: seq<Step>)

  ghost predicate IsRun(graph: Graph, snapshot: Snapshot, paths: seq<string>, run: Run) {
    && |run.states| == |run.steps| + 1
    && run.states[0].pc == Validating(0)
    && run.states[0].targets == [] && run.states[0].seen == [] && run.states[0].deleted == []
    && forall i: nat :: i < |run.steps| ==> StepTaken(graph, snapshot, paths, run, i)
  }

  ghost predicate StepTaken(graph: Graph, snapshot: Snapshot, paths: seq<string>, run: Run, i: nat)
    requires i < |run.steps| < |run.states|
  {
    && Enabled(graph, snapshot, paths, run.states[i], run.steps[i])
    && run.states[i + 1] == Apply(snapshot, paths, run.states[i], run.steps[i])
  }

  /** What Git answered in the first n steps, path by path. */
  function Asked(steps: seq<Step>, n: nat): seq<Answers>
    requires n <= |steps|
  {
    if n == 0 then []
    else if steps[n - 1].Validate? then Asked(steps, n - 1) + [steps[n - 1].answers]
    else Asked(steps, n - 1)
  }

  /** What Git answered was what makes a path a target. */
  ghost predicate AnswersAgree(snapshot: Snapshot, target: Target, answers: Answers) {
    && answers.clean == Some(true) && answers.merged && answers.branchHead == Some(target.branchHead)
    && Acceptable(snapshot, target.path, answers) && target == TargetOf(snapshot, target.path)
  }

  /** Every test a target has to pass. */
  ghost predicate GoodTarget(graph: Graph, snapshot: Snapshot, target: Target) {
    && target.path in snapshot.worktrees
    && target.path != snapshot.projectRoot && target.path != snapshot.root
    && var w := snapshot.worktrees[target.path];
    && !w.detached && w.branch != "" && !w.locked && !w.dirty && w.merged
    && w.branch == target.branch != snapshot.defaultBranch
    && w.head == target.branchHead && Reaches(graph, snapshot.defaultHead, target.branchHead)
  }

  /** The validating loop, given what Git answered, makes these the targets of the first n paths. */
  ghost predicate ValidatedTo(
      snapshot: Snapshot, paths: seq<string>, asked: seq<Answers>, n: nat, targets: seq<Target>) {
    n <= |paths| && |asked| == n && Validated(snapshot, paths, asked, n) == Ok(targets)
  }

  lemma {:induction false} MoreAnswers(
      snapshot: Snapshot, paths: seq<string>, answers: seq<Answers>, more: seq<Answers>, n: nat)
    requires n <= |paths| && n <= |answers|
    ensures Validated(snapshot, paths, answers + more, n) == Validated(snapshot, paths, answers, n)
  {
    if n > 0 {
      MoreAnswers(snapshot, paths, answers, more, n - 1);
    }
  }

  /** A Validate step of a run goes the way of the validating loop. */
  lemma OneMoreValidated(
      snapshot: Snapshot, paths: seq<string>, asked: seq<Answers>, n: nat, targets: seq<Target>, answers: Answers,
      targets': seq<Target>)
    requires n < |paths| && ValidatedTo(snapshot, paths, asked, n, targets)
    requires if paths[n] in paths[..n] then targets' == targets
             else
               var r := Check(snapshot, paths[n], answers);
               r.Ok? && targets' == targets + [r.value]
    ensures ValidatedTo(snapshot, paths, asked + [answers], n + 1, targets')
  {
    MoreAnswers(snapshot, paths, asked, [answers], n);
  }

  lemma OneRefused(
      snapshot: Snapshot, paths: seq<string>, asked: seq<Answers>, n: nat, targets: seq<Target>, answers: Answers)
    requires n < |paths| && ValidatedTo(snapshot, paths, asked, n, targets)
    requires paths[n] !in paths[..n] && Check(snapshot, paths[n], answers).Err?
    ensures Validated(snapshot, paths, asked + [answers], n + 1).Err?
  {
    MoreAnswers(snapshot, paths, asked, [answers], n);
  }

  /** How far the requested paths have been validated. */
  function Done(paths: seq<string>, s: State): nat {
    if s.pc.Validating? then s.pc.n else |paths|
  }

  ghost predicate Inv(graph: Graph, snapshot: Snapshot, paths: seq<string>, s: State, asked: seq<Answers>) {
    && (forall j :: 0 <= j < |s.targets| ==> GoodTarget(graph, snapshot, s.targets[j]))
    && (s.pc.Validating? ==> s.pc.n <= |paths| && s.deleted == [] && forall p :: p in s.seen <==> p in paths[..s.pc.n])
    && (s.pc.Removing? ==> s.pc.n <= |s.targets|)
    && if s.pc.Refused? then
         |asked| <= |paths| && s.deleted == [] && Validated(snapshot, paths, asked, |asked|).Err?
       else ValidatedTo(snapshot, paths, asked, Done(paths, s), s.targets)
  }

  lemma StepKeeps(
      graph: Graph, snapshot: Snapshot, paths: seq<string>, s: State, s': State, step: Step, asked: seq<Answers>)
    requires Inv(graph, snapshot, paths, s, asked)
    requires Enabled(graph, snapshot, paths, s, step) && s' == Apply(snapshot, paths, s, step)
    ensures Inv(graph, snapshot, paths, s', if step.Validate? then asked + [step.answers] else asked)
  {
    if step.Validate? {
      var n := s.pc.n;
      assert paths[..n + 1] == paths[..n] + [paths[n]];
      if s'.pc.Validating? {
        OneMoreValidated(snapshot, paths, asked, n, s.targets, step.answers, s'.targets);
      } else {
        OneRefused(snapshot, paths, asked, n, s.targets, step.answers);
      }
    }
  }

  lemma Initially(graph: Graph, snapshot: Snapshot, paths: seq<string>, s: State)
    requires s.pc == Validating(0) && s.targets == [] && s.seen == [] && s.deleted == []
    ensures Inv(graph, snapshot, paths, s, [])
  {
  }

  lemma {:induction false} RunsKeep(graph: Graph, snapshot: Snapshot, paths: seq<string>, run: Run, i: nat)
    requires IsRun(graph, snapshot, paths, run) && i < |run.states|
    ensures Inv(graph, snapshot, paths, run.states[i], Asked(run.steps, i))
  {
    hide Inv, Enabled, Apply;
    if i == 0 {
      Initially(graph, snapshot, paths, run.states[0]);
    } else {
      RunsKeep(graph, snapshot, paths, run, i - 1);
      assert StepTaken(graph, snapshot, paths, run, i - 1);
      StepKeeps(graph, snapshot, paths, run.states[i - 1], run.states[i], run.steps[i - 1],
                Asked(run.steps, i - 1));
    }
  }

  /** Some branch keeps the commit reachable. */
  ghost predicate Kept(graph: Graph, refs: Refs, oid: Oid) {
    exists branch :: branch in refs && Reaches(graph, refs[branch], oid)
  }

  /**
   * A removal deletes a branch only after its worktree was removed, and only while default
   * branch and branch are at the heads that were verified. Whatever others did meanwhile, and
   * whether or not the deletion was reported, every commit reachable from that branch is at that
   * instant reachable from the default branch; so no removal makes any commit unreachable.
   */
  lemma DeletionLosesNothing(
      graph: Graph, snapshot: Snapshot, paths: seq<string>, run: Run, i: nat, step: Step, oid: Oid)
    requires IsRun(graph, snapshot, paths, run) && i < |run.states|
    requires step.Remove? && Enabled(graph, snapshot, paths, run.states[i], step)
    ensures var before, after := run.states[i], Apply(snapshot, paths, run.states[i], step);
      && (after.refs != before.refs ==>
            var target := before.targets[before.pc.n];
            && step.worktree && after.refs == before.refs - {target.branch}
            && target.branch in before.refs && before.refs[target.branch] == target.branchHead
            && snapshot.defaultBranch in after.refs && before.refs[snapshot.defaultBranch] == snapshot.defaultHead
            && (Reaches(graph, before.refs[target.branch], oid) ==>
                  Reaches(graph, after.refs[snapshot.defaultBranch], oid)))
      && (Kept(graph, before.refs, oid) ==> Kept(graph, after.refs, oid))
  {
    RunsKeep(graph, snapshot, paths, run, i);
    var before, after := run.states[i], Apply(snapshot, paths, run.states[i], step);
    if after.refs != before.refs {
      var target := before.targets[before.pc.n];
      assert GoodTarget(graph, snapshot, target);
      if Reaches(graph, before.refs[target.branch], oid) {
        ReachesTransitive(graph, snapshot.defaultHead, target.branchHead, oid);
      }
      if Kept(graph, before.refs, oid) {
        var branch :| branch in before.refs && Reaches(graph, before.refs[branch], oid);
        var keeper := if branch == target.branch then snapshot.defaultBranch else branch;
        assert keeper in after.refs && Reaches(graph, after.refs[keeper], oid);
      }
    }
  }

  /** Both refs are where they were verified. */
  predicate AtHeads(refs: Refs, snapshot: Snapshot, target: Target) {
    && snapshot.defaultBranch in refs && refs[snapshot.defaultBranch] == snapshot.defaultHead
    && target.branch in refs && refs[target.branch] == target.branchHead
  }

  /**
   * A removal goes on to the next target exactly when its worktree was removed, both refs were at
   * the verified heads, and the deletion was reported done; it has then deleted that branch and
   * nothing else. Otherwise the run ends there, the branch still in place unless the deletion
   * took effect although it was reported failed.
   */
  lemma RemovalGoesOn(graph: Graph, snapshot: Snapshot, paths: seq<string>, run: Run, i: nat)
    requires IsRun(graph, snapshot, paths, run) && i < |run.steps| && run.steps[i].Remove?
    ensures run.states[i].pc.Removing? && run.states[i].pc.n < |run.states[i].targets|
    ensures var before, after, step := run.states[i], run.states[i + 1], run.steps[i];
      var target := before.targets[before.pc.n];
      && after.targets == before.targets
      && (after.pc == Removing(before.pc.n + 1)
          <==> step.worktree && AtHeads(before.refs, snapshot, target) && step.reply == Succeeds)
      && (after.pc != Removing(before.pc.n + 1) ==> after.pc == Stopped && after.deleted == before.deleted)
      && (after.pc == Removing(before.pc.n + 1) ==> after.deleted == before.deleted + [target])
      && after.refs ==
           if step.worktree && AtHeads(before.refs, snapshot, target) && step.reply != Fails
           then before.refs - {target.branch} else before.refs
  {
    assert StepTaken(graph, snapshot, paths, run, i);
  }

  /** Of steps from..to each removes a worktree and is reported done, with no other process in between. */
  ghost predicate AllWork(run: Run, from: nat, to: nat)
    requires to <= |run.steps|
  {
    forall k :: from <= k < to ==> run.steps[k] == Remove(true, Succeeds)
  }

  function Branches(targets: seq<Target>): (r: set<string>)
    ensures forall b :: b in r <==> exists j :: 0 <= j < |targets| && targets[j].branch == b
  {
    set j | 0 <= j < |targets| :: targets[j].branch
  }

  /** Removals that find every target at its head and work delete the branch of every target. */
  lemma {:induction false} AllBranchesGo(
      graph: Graph, snapshot: Snapshot, paths: seq<string>, run: Run, i: nat, n: nat)
    requires IsRun(graph, snapshot, paths, run) && i + n <= |run.steps| && AllWork(run, i, i + n)
    requires run.states[i].pc == Removing(0) && n <= |run.states[i].targets|
    requires var targets := run.states[i].targets;
      && (forall j, k :: 0 <= j < k < |targets| ==> targets[j].branch != targets[k].branch)
      && (forall j :: 0 <= j < |targets| ==> AtHeads(run.states[i].refs, snapshot, targets[j]))
    ensures var before, after := run.states[i], run.states[i + n];
      && after.pc == Removing(n) && after.targets == before.targets
      && after.refs == before.refs - Branches(before.targets[..n])
      && after.deleted == before.deleted + before.targets[..n]
  {
    hide Enabled, Apply;
    if n > 0 {
      AllBranchesGo(graph, snapshot, paths, run, i, n - 1);
      RunsKeep(graph, snapshot, paths, run, i);
      var before, between := run.states[i], run.states[i + n - 1];
      assert GoodTarget(graph, snapshot, before.targets[n - 1]);
      assert run.steps[i + n - 1] == Remove(true, Succeeds);
      RemovalGoesOn(graph, snapshot, paths, run, i + n - 1);
      assert before.targets[..n] == before.targets[..n - 1] + [before.targets[n - 1]];
      assert Branches(before.targets[..n]) == Branches(before.targets[..n - 1]) + {before.targets[n - 1].branch} by {
        OneMoreBranch(before.targets[..n - 1], before.targets[n - 1]);
      }
    }
  }

  lemma OneMoreBranch(targets: seq<Target>, target: Target)
    ensures Branches(targets + [target]) == Branches(targets) + {target.branch}
  {
    var more := targets + [target];
    assert more[|targets|] == target;
    forall b | b in Branches(targets) ensures b in Branches(more) {
      var j :| 0 <= j < |targets| && targets[j].branch == b;
      assert more[j].branch == b;
    }
  }

  /** Step k asked Git about the target: its worktree was clean, its branch merged and at this head. */
  ghost predicate AskedAt(snapshot: Snapshot, run: Run, k: nat, target: Target)
    requires k < |run.steps| < |run.states|
  {
    && run.steps[k].Validate? && AnswersAgree(snapshot, target, run.steps[k].answers)
    && target.branch in run.states[k].refs && run.states[k].refs[target.branch] == target.branchHead
  }

  ghost predicate AskedBefore(snapshot: Snapshot, run: Run, i: nat, target: Target)
    requires i <= |run.steps| < |run.states|
  {
    exists k :: 0 <= k < i && AskedAt(snapshot, run, k, target)
  }

  lemma {:induction false} TargetsWereAsked(
      graph: Graph, snapshot: Snapshot, paths: seq<string>, run: Run, i: nat, j: nat)
    requires IsRun(graph, snapshot, paths, run) && i < |run.states| && j < |run.states[i].targets|
    ensures AskedBefore(snapshot, run, i, run.states[i].targets[j])
  {
    assert i > 0;
    var before := i - 1;
    assert StepTaken(graph, snapshot, paths, run, before);
    if j < |run.states[before].targets| {
      TargetsWereAsked(graph, snapshot, paths, run, before, j);
    } else {
      assert AskedAt(snapshot, run, before, run.states[i].targets[j]);
    }
  }

  /**
   * No branch is deleted, and no worktree removed, unless every requested path passed
   * validation: from what Git answered in the run the validating loop makes these targets of
   * the requested paths. Each is a registered worktree other than the two roots, attached,
   * unlocked and clean in the snapshot, on a branch other than the default, at the head its
   * worktree reported, which the default head reaches; and of each Git answered, in an earlier
   * step of the run, that its worktree was clean and its branch merged and at that head.
   */
  lemma NothingStartsUnvalidated(graph: Graph, snapshot: Snapshot, paths: seq<string>, run: Run, i: nat)
    requires IsRun(graph, snapshot, paths, run) && i < |run.states|
    requires run.states[i].pc.Removing? || run.states[i].pc.Stopped?
    ensures |Asked(run.steps, i)| == |paths|
    ensures Validated(snapshot, paths, Asked(run.steps, i), |paths|) == Ok(run.states[i].targets)
    ensures forall p :: Names(run.states[i].targets, p) <==> p in paths
    ensures forall j :: 0 <= j < |run.states[i].targets| ==>
              && GoodTarget(graph, snapshot, run.states[i].targets[j])
              && AskedBefore(snapshot, run, i, run.states[i].targets[j])
  {
    RunsKeep(graph, snapshot, paths, run, i);
    var targets := run.states[i].targets;
    TargetsAreThePaths(snapshot, paths, Asked(run.steps, i), |paths|);
    assert paths[..|paths|] == paths;
    forall j | 0 <= j < |targets| ensures AskedBefore(snapshot, run, i, targets[j]) {
      TargetsWereAsked(graph, snapshot, paths, run, i, j);
    }
  }

  /** A path is passed over if it was requested before, and otherwise validated exactly when it is acceptable. */
  lemma ValidationGoesOn(graph: Graph, snapshot: Snapshot, paths: seq<string>, run: Run, i: nat)
    requires IsRun(graph, snapshot, paths, run) && i < |run.steps| && run.steps[i].Validate?
    ensures run.states[i].pc.Validating? && run.states[i].pc.n < |paths|
    ensures var n, after := run.states[i].pc.n, run.states[i + 1];
      && after.pc == (if paths[n] in paths[..n] || Acceptable(snapshot, paths[n], run.steps[i].answers)
                      then Validating(n + 1) else Refused)
      && after.refs == run.states[i].refs
  {
    hide Acceptable, Check;
    RunsKeep(graph, snapshot, paths, run, i);
    assert StepTaken(graph, snapshot, paths, run, i);
    ErrorIsFirstFault(snapshot, paths[run.states[i].pc.n], run.steps[i].answers);
  }

  /** The first n steps validate the first n requested paths, and each of them is acceptable. */
  ghost predicate AllAcceptable(snapshot: Snapshot, paths: seq<string>, run: Run, n: nat)
    requires n <= |paths| && n <= |run.steps|
  {
    forall k: nat :: k < n ==>
      run.steps[k].Validate? && (paths[k] in paths[..k] || Acceptable(snapshot, paths[k], run.steps[k].answers))
  }

  lemma {:induction false} AcceptableGoOn(graph: Graph, snapshot: Snapshot, paths: seq<string>, run: Run, n: nat)
    requires IsRun(graph, snapshot, paths, run) && n <= |paths| && n <= |run.steps|
    requires AllAcceptable(snapshot, paths, run, n)
    ensures run.states[n].pc == Validating(n) && run.states[n].refs == run.states[0].refs
  {
    hide Acceptable, StepTaken;
    if n > 0 {
      AcceptableGoOn(graph, snapshot, paths, run, n - 1);
      ValidationGoesOn(graph, snapshot, paths, run, n - 1);
    }
  }

  /**
   * What the operation is for: if every requested path is acceptable, the branches differ and are at
   * their heads, every removal works and no other process interferes, then exactly the branches of
   * the requested worktrees are deleted.
   */
  lemma GoodRunDeletesAll(graph: Graph, snapshot: Snapshot, paths: seq<string>, run: Run)
    requires IsRun(graph, snapshot, paths, run) && |paths| < |run.steps|
    requires AllAcceptable(snapshot, paths, run, |paths|) && run.steps[|paths|] == Begin
    requires AllWork(run, |paths| + 1, |run.steps|)
    requires |run.steps| == |paths| + 1 + |run.states[|paths| + 1].targets|
    requires forall p :: p in paths ==>
               p in snapshot.worktrees && AtHeads(run.states[0].refs, snapshot, TargetOf(snapshot, p))
    requires forall p, q :: p in paths && q in paths && p != q ==>
               snapshot.worktrees[p].branch != snapshot.worktrees[q].branch
    ensures var end := run.states[|run.steps|];
      && end.refs == run.states[0].refs - (set p | p in paths :: snapshot.worktrees[p].branch)
      && end.deleted == end.targets && end.pc == Removing(|end.targets|)
  {
    hide Acceptable, Reaches, Apply, Enabled, Validated;
    var first := |paths| + 1;
    AcceptableGoOn(graph, snapshot, paths, run, |paths|);
    RemovalBegins(graph, snapshot, paths, run, |paths|);
    NothingStartsUnvalidated(graph, snapshot, paths, run, first);
    RunsKeep(graph, snapshot, paths, run, first);
    var targets := run.states[first].targets;
    TargetsAreThePaths(snapshot, paths, Asked(run.steps, first), |paths|);
    forall j | 0 <= j < |targets|
      ensures targets[j].path in paths && targets[j] == TargetOf(snapshot, targets[j].path)
    {
      assert Names(targets, targets[j].path) && GoodTarget(graph, snapshot, targets[j]);
    }
    AllBranchesGo(graph, snapshot, paths, run, first, |targets|);
    assert targets[..|targets|] == targets;
    BranchesOfPaths(snapshot, paths, targets);
  }

  lemma RemovalBegins(graph: Graph, snapshot: Snapshot, paths: seq<string>, run: Run, i: nat)
    requires IsRun(graph, snapshot, paths, run) && i < |run.steps| && run.steps[i] == Begin
    ensures run.states[i + 1].pc == Removing(0)
    ensures run.states[i + 1].refs == run.states[i].refs && run.states[i + 1].deleted == []
  {
    RunsKeep(graph, snapshot, paths, run, i);
    assert StepTaken(graph, snapshot, paths, run, i);
  }

  lemma BranchesOfPaths(snapshot: Snapshot, paths: seq<string>, targets: seq<Target>)
    requires forall p :: p in paths ==> p in snapshot.worktrees
    requires forall p :: Names(targets, p) <==> p in paths
    requires forall j :: 0 <= j < |targets| ==>
               targets[j].path in paths && targets[j].branch == snapshot.worktrees[targets[j].path].branch
    ensures Branches(targets) == set p | p in paths :: snapshot.worktrees[p].branch
  {
    forall p | p in paths ensures snapshot.worktrees[p].branch in Branches(targets) {
      assert Names(targets, p);
    }
  }

  /** A run that is refused has changed nothing, and the validating loop refuses what Git answered in it. */
  lemma RefusalChangesNothing(graph: Graph, snapshot: Snapshot, paths: seq<string>, run: Run, i: nat)
    requires IsRun(graph, snapshot, paths, run) && i < |run.states| && run.states[i].pc.Refused?
    ensures var asked := Asked(run.steps, i);
      |asked| <= |paths| && Validated(snapshot, paths, asked, |asked|).Err?
    ensures forall k: nat :: k < i ==> !run.steps[k].Remove?
  {
    RunsKeep(graph, snapshot, paths, run, i);
    forall k: nat | k < i ensures !run.steps[k].Remove? {
      OnceRemoving(graph, snapshot, paths, run, k, i);
    }
  }

  lemma {:induction false} OnceRemoving(
      graph: Graph, snapshot: Snapshot, paths: seq<string>, run: Run, k: nat, i: nat)
    requires IsRun(graph, snapshot, paths, run) && k < i < |run.states|
    ensures run.steps[k].Remove? ==> run.states[i].pc.Removing? || run.states[i].pc.Stopped?
  {
    assert StepTaken(graph, snapshot, paths, run, i - 1);
    if k < i - 1 {
      OnceRemoving(graph, snapshot, paths, run, k, i - 1);
    }
  }
}
