/**
 * Installing rewritten commits on a branch, and rolling back
 * (internal/desktop/commit_rewrite.go).
 *
 * Git is a ref, a HEAD, backup refs and a worktree; any number of rewriters run at
 * once, other processes change everything but the backup refs between any two
 * commands, and a command may fail before or after it took effect.
 */
module RewriteInstall {
  import opened Common

  type Oid = nat
  type RefName = nat
  type WriterId = nat

  // Which commit's files the worktree and index hold, if any one's.
  datatype Tree = At(commit: Oid) | Torn

  datatype Git = Git(branch: Option<Oid>, detached: Option<Oid>, backups: map<RefName, Oid>, tree: Tree)

  // What became of one Git command. A command killed by its deadline may have done its work.
  datatype Reply = Succeeds | Fails | FailsAfterEffect

  datatype Outcome =
    | Succeeded
    | Refused                        // dry run, recovery ref or leased move failed
    | HeadElsewhere                  // installed, but HEAD was not seen at the new head
    | UpdateFailed(restored: bool)   // the worktree update failed; was everything put back?

  datatype Pc =
    | Checking | BackingUp | Moving | Updating | Verifying | RollingBackRef | RollingBackTree
    | Finished(outcome: Outcome)

  datatype Writer = Writer(
    oldHead: Oid,
    newHead: Oid,
    backup: RefName,
    pc: Pc,
    moved: bool,                     // has ever moved the branch
    seen: Option<Oid>)               // HEAD as last resolved

  function Head(git: Git): Option<Oid> {
    if git.detached.Some? then git.detached else git.branch
  }

  /** update-ref with an expected old value: does it take effect? */
  predicate Moves(git: Git, from: Oid, reply: Reply) {
    git.branch == Some(from) && reply != Fails
  }

  function AfterTree(git: Git, commit: Oid, reply: Reply): Git {
    match reply
    case Succeeds => git.(tree := At(commit))
    case Fails => git
    case FailsAfterEffect => git.(tree := Torn)
  }

  /** One command of the installer. */
  function Act(git: Git, w: Writer, reply: Reply): (Git, Writer) {
    match w.pc
    case Checking => (git, w.(pc := if reply.Succeeds? then BackingUp else Finished(Refused)))
    case BackingUp =>
      (if reply.Fails? then git else git.(backups := git.backups[w.backup := w.oldHead]),
       w.(pc := if reply.Succeeds? then Moving else Finished(Refused)))
    case Moving =>
      if Moves(git, w.oldHead, reply) then
        (git.(branch := Some(w.newHead)),
         w.(pc := if reply.Succeeds? then Updating else Finished(Refused), moved := true))
      else (git, w.(pc := Finished(Refused)))
    case Updating =>
      (AfterTree(git, w.newHead, reply), w.(pc := if reply.Succeeds? then Verifying else RollingBackRef))
    case Verifying =>
      var seen := if reply.Succeeds? then Head(git) else None;
      (git, w.(seen := seen, pc := Finished(if seen == Some(w.newHead) then Succeeded else HeadElsewhere)))
    case RollingBackRef =>
      if Moves(git, w.newHead, reply) then
        (git.(branch := Some(w.oldHead)),
         w.(pc := if reply.Succeeds? then RollingBackTree else Finished(UpdateFailed(false))))
      else (git, w.(pc := Finished(UpdateFailed(false))))
    case RollingBackTree => (AfterTree(git, w.oldHead, reply), w.(pc := Finished(UpdateFailed(reply.Succeeds?))))
    case Finished(_) => (git, w)
  }

  // ------------------------------------------------------------------ all runs

  datatype State = State(git: Git, writers: map<WriterId, Writer>)

  datatype Step =
    | Command(w: WriterId, reply: Reply)
    | Others(git: Git)

  /** Distinct recovery refs: each is named after the nanosecond it was made. */
  ghost predicate Init(s: State) {
    && (forall w :: w in s.writers ==>
          var x := s.writers[w]; x.pc == Checking && !x.moved && x.seen == None)
    && (forall v, w :: v in s.writers && w in s.writers && v != w ==> s.writers[v].backup != s.writers[w].backup)
  }

  predicate SameBackup(a: map<RefName, Oid>, b: map<RefName, Oid>, name: RefName) {
    (name in a) == (name in b) && (name in a ==> a[name] == b[name])
  }

  ghost predicate Enabled(s: State, step: Step) {
    match step
    case Command(w, _) => w in s.writers
    case Others(git) => forall w :: w in s.writers ==> SameBackup(s.git.backups, git.backups, s.writers[w].backup)
  }

  function Apply(s: State, step: Step): State
    requires step.Command? ==> step.w in s.writers
  {
    match step
    case Command(w, reply) =>
      var (git, writer) := Act(s.git, s.writers[w], reply);
      State(git, s.writers[w := writer])
    case Others(git) => s.(git := git)
  }

  ghost predicate Next(s: State, s': State) {
    exists step :: Enabled(s, step) && s' == Apply(s, step)
  }

  ghost predicate IsRun(states: seq<State>) {
    && states != [] && Init(states[0])
    && forall i :: 0 <= i < |states| - 1 ==> Next(states[i], states[i + 1])
  }

  /** A rewriter at or past the leased move has its recovery ref in place. */
  ghost predicate Protected(git: Git, w: Writer) {
    w.moved || w.pc in {Moving, Updating, Verifying, RollingBackRef, RollingBackTree} ==>
      w.backup in git.backups && git.backups[w.backup] == w.oldHead
  }

  ghost predicate Honest(w: Writer) {
    && (w.pc in {Updating, Verifying, RollingBackRef, RollingBackTree} ==> w.moved)
    && (w.pc == Finished(Succeeded) ==> w.moved && w.seen == Some(w.newHead))
  }

  ghost predicate Inv(s: State) {
    && (forall w :: w in s.writers ==> Protected(s.git, s.writers[w]) && Honest(s.writers[w]))
    && (forall v, w :: v in s.writers && w in s.writers && v != w ==> s.writers[v].backup != s.writers[w].backup)
  }

  lemma ActKeeps(git: Git, w: Writer, reply: Reply)
    requires Protected(git, w) && Honest(w)
    ensures var (git', w') := Act(git, w, reply);
      && Protected(git', w') && Honest(w')
      && w'.backup == w.backup && w'.oldHead == w.oldHead && w'.newHead == w.newHead
      && forall name :: name != w.backup ==> SameBackup(git.backups, git'.backups, name)
  {
  }

  lemma StepKeeps(s: State, s': State, step: Step)
    requires Inv(s) && Enabled(s, step) && s' == Apply(s, step)
    ensures Inv(s')
  {
    if step.Command? {
      ActKeeps(s.git, s.writers[step.w], step.reply);
    }
    forall w | w in s'.writers ensures Protected(s'.git, s'.writers[w]) && Honest(s'.writers[w]) {
      assert Protected(s.git, s.writers[w]);
    }
  }

  lemma {:induction false} RunsKeep(states: seq<State>, i: nat)
    requires IsRun(states) && i < |states|
    ensures Inv(states[i])
  {
    if i > 0 {
      RunsKeep(states, i - 1);
      assert Next(states[i - 1], states[i]);
      var step :| Enabled(states[i - 1], step) && states[i] == Apply(states[i - 1], step);
      StepKeeps(states[i - 1], states[i], step);
    }
  }

  /** Between states k and k + 1 a command of rewriter w changed the branch. */
  ghost predicate MovesAt(states: seq<State>, k: nat, w: WriterId)
    requires k + 1 < |states|
  {
    && w in states[k].writers && states[k + 1].git.branch != states[k].git.branch
    && exists reply :: states[k + 1] == Apply(states[k], Command(w, reply))
  }

  lemma StepKeepsWriter(s: State, s': State, w: WriterId)
    requires w in s.writers && Next(s, s')
    ensures w in s'.writers && (s.writers[w].moved ==> s'.writers[w].moved)
    ensures s'.writers[w].backup == s.writers[w].backup && s'.writers[w].oldHead == s.writers[w].oldHead
    ensures s'.writers[w].newHead == s.writers[w].newHead
  {
  }

  lemma {:induction false} WritersStay(states: seq<State>, k: nat, i: nat, w: WriterId)
    requires IsRun(states) && k <= i < |states| && w in states[k].writers
    ensures w in states[i].writers && (states[k].writers[w].moved ==> states[i].writers[w].moved)
    ensures states[i].writers[w].backup == states[k].writers[w].backup
    ensures states[i].writers[w].oldHead == states[k].writers[w].oldHead
    ensures states[i].writers[w].newHead == states[k].writers[w].newHead
  {
    if k < i {
      WritersStay(states, k, i - 1, w);
      StepKeepsWriter(states[i - 1], states[i], w);
    }
  }

  /** In every state after a rewriter first changed the branch, its recovery ref holds the old head. */
  lemma OldHeadStaysRecoverable(states: seq<State>, k: nat, i: nat, w: WriterId)
    requires IsRun(states) && k < i < |states| && MovesAt(states, k, w)
    ensures w in states[i].writers
    ensures var x := states[k].writers[w];
      x.backup in states[i].git.backups && states[i].git.backups[x.backup] == x.oldHead
  {
    RunsKeep(states, k);
    RunsKeep(states, i);
    assert Next(states[k], states[k + 1]);
    assert states[k + 1].writers[w].moved;
    StepKeepsWriter(states[k], states[k + 1], w);
    WritersStay(states, k + 1, i, w);
  }

  /** A rewriter changes the branch only from the old head it expects to its new head, with the
      old head already saved, or back. */
  lemma NothingElseIsOverwritten(states: seq<State>, i: nat, w: WriterId, reply: Reply)
    requires IsRun(states) && i < |states| && w in states[i].writers
    ensures var x := states[i].writers[w];
      var before, after := states[i].git, Apply(states[i], Command(w, reply)).git;
      before.branch != after.branch ==>
        && ((before.branch == Some(x.oldHead) && after.branch == Some(x.newHead))
            || (before.branch == Some(x.newHead) && after.branch == Some(x.oldHead) && x.moved))
        && x.backup in after.backups && after.backups[x.backup] == x.oldHead
  {
    RunsKeep(states, i);
    var x := states[i].writers[w];
    ActKeeps(states[i].git, x, reply);
  }

  /** The command with which rewriter w finishes found HEAD at its new head. */
  ghost predicate SeesHead(states: seq<State>, k: nat, w: WriterId)
    requires k + 1 < |states|
  {
    && w in states[k].writers && states[k].writers[w].pc == Verifying
    && w in states[k + 1].writers && states[k + 1].writers[w].pc == Finished(Succeeded)
    && Head(states[k].git) == Some(states[k].writers[w].newHead)
  }

  ghost predicate SawHead(states: seq<State>, i: nat, w: WriterId)
    requires i < |states|
  {
    exists k: nat :: k < i && SeesHead(states, k, w)
  }

  /** A rewriter succeeds only by finding HEAD at its new head, in that very state of the run,
      having moved the branch before. */
  lemma {:induction false} SuccessWasSeen(states: seq<State>, i: nat, w: WriterId)
    requires IsRun(states) && i < |states| && w in states[i].writers
    requires states[i].writers[w].pc == Finished(Succeeded)
    ensures SawHead(states, i, w) && states[i].writers[w].moved
  {
    RunsKeep(states, i);
    assert i > 0;
    var before := i - 1;
    assert Next(states[before], states[i]);
    var step :| Enabled(states[before], step) && states[i] == Apply(states[before], step);
    if states[before].writers[w].pc == Finished(Succeeded) {
      SuccessWasSeen(states, before, w);
    } else {
      assert SeesHead(states, before, w);
    }
  }

  // ---------------------------------------------------------------- undisturbed

  /** Runs a rewriter to the end, with no other process in between. */
  function Alone(git: Git, w: Writer, replies: seq<Reply>): (Git, Writer)
    decreases |replies|
  {
    if replies == [] then (git, w)
    else
      var (git', w') := Act(git, w, replies[0]);
      Alone(git', w', replies[1..])
  }

  /** The leased move took effect although it was reported failed. */
  predicate MoveLost(replies: seq<Reply>) {
    |replies| >= 3 && replies[0] == Succeeds && replies[1] == Succeeds && replies[2] == FailsAfterEffect
  }

  predicate Worked(replies: seq<Reply>, k: nat) {
    k < |replies| && replies[k] == Succeeds
  }

  predicate Failed(replies: seq<Reply>, k: nat) {
    k < |replies| && replies[k] != Succeeds
  }

  predicate TookEffect(replies: seq<Reply>, k: nat) {
    k < |replies| && replies[k] != Fails
  }

  /** The first three commands worked: the branch is moved, and known to be. */
  predicate Installed(replies: seq<Reply>) {
    Worked(replies, 0) && Worked(replies, 1) && Worked(replies, 2)
  }

  /** How an undisturbed rewriter ends, given what became of its commands. */
  ghost predicate EndsAs(replies: seq<Reply>, head: Option<Oid>, newHead: Oid, outcome: Outcome) {
    match outcome
    case Refused => Failed(replies, 0) || Failed(replies, 1) || Failed(replies, 2)
    case Succeeded => Installed(replies) && Worked(replies, 3) && Worked(replies, 4) && head == Some(newHead)
    case HeadElsewhere =>
      && Installed(replies) && Worked(replies, 3)
      && (Failed(replies, 4) || (Worked(replies, 4) && head != Some(newHead)))
    case UpdateFailed(restored) =>
      && Installed(replies) && Failed(replies, 3)
      && (if restored then Worked(replies, 4) && Worked(replies, 5)
          else Failed(replies, 4) || (Worked(replies, 4) && Failed(replies, 5)))
  }

  /** What an undisturbed rewriter leaves of each part of the repository. */
  ghost predicate Leaves(start: Git, w: Writer, replies: seq<Reply>, end: Git) {
    && end.detached == start.detached
    && end.backups == (if Worked(replies, 0) && TookEffect(replies, 1) then start.backups[w.backup := w.oldHead]
                       else start.backups)
    && end.branch == Some(if BranchAtNew(replies) then w.newHead else w.oldHead)
    && TreeLeft(start, w, replies, end.tree)
  }

  /** Moved, and not moved back. */
  predicate BranchAtNew(replies: seq<Reply>) {
    MoveLost(replies) || (Installed(replies) && !(Failed(replies, 3) && TookEffect(replies, 4)))
  }

  ghost predicate TreeLeft(start: Git, w: Writer, replies: seq<Reply>, tree: Tree) {
    if !Installed(replies) || |replies| == 3 then tree == start.tree
    else if Worked(replies, 3) then tree == At(w.newHead)
    else if Worked(replies, 4) && Worked(replies, 5) then tree == At(w.oldHead)
    else if TookEffect(replies, 3) || (Worked(replies, 4) && TookEffect(replies, 5)) then tree == Torn
    else tree == start.tree
  }

  /** Where an undisturbed rewriter and its repository are after these replies. */
  ghost predicate OnTrack(start: Git, done: seq<Reply>, git: Git, w: Writer) {
    && Leaves(start, w, done, git)
    && match w.pc
       case Checking => done == []
       case BackingUp => |done| == 1 && Worked(done, 0)
       case Moving => |done| == 2 && Worked(done, 0) && Worked(done, 1)
       case Updating => |done| == 3 && Installed(done)
       case Verifying => |done| == 4 && Installed(done) && Worked(done, 3)
       case RollingBackRef => |done| == 4 && Installed(done) && Failed(done, 3)
       case RollingBackTree => |done| == 5 && Installed(done) && Failed(done, 3) && Worked(done, 4)
       case Finished(outcome) => EndsAs(done, Head(git), w.newHead, outcome)
  }

  lemma ActStaysOnTrack(start: Git, done: seq<Reply>, git: Git, w: Writer, reply: Reply)
    requires OnTrack(start, done, git, w)
    ensures OnTrack(start, done + [reply], Act(git, w, reply).0, Act(git, w, reply).1)
  {
    if w.pc.Finished? {
      StaysFinished(start, done, git, w, reply);
    } else if |done| < 3 {
      InstallStaysOnTrack(start, done, git, w, reply);
    }
  }

  lemma StaysFinished(start: Git, done: seq<Reply>, git: Git, w: Writer, reply: Reply)
    requires OnTrack(start, done, git, w) && w.pc.Finished?
    ensures OnTrack(start, done + [reply], git, w)
  {
  }

  lemma InstallStaysOnTrack(start: Git, done: seq<Reply>, git: Git, w: Writer, reply: Reply)
    requires OnTrack(start, done, git, w) && w.pc in {Checking, BackingUp, Moving}
    ensures OnTrack(start, done + [reply], Act(git, w, reply).0, Act(git, w, reply).1)
  {
  }

  lemma {:induction false} AloneStaysOnTrack(start: Git, done: seq<Reply>, git: Git, w: Writer, replies: seq<Reply>)
    requires OnTrack(start, done, git, w)
    ensures OnTrack(start, done + replies, Alone(git, w, replies).0, Alone(git, w, replies).1)
    decreases |replies|
  {
    hide OnTrack;
    if replies == [] {
      assert done + replies == done;
    } else {
      var (git', w') := Act(git, w, replies[0]);
      ActStaysOnTrack(start, done, git, w, replies[0]);
      AloneStaysOnTrack(start, done + [replies[0]], git', w', replies[1..]);
      assert done + [replies[0]] + replies[1..] == done + replies;
    }
  }

  /**
   * The replies to an undisturbed rewriter decide how it ends and what it leaves. It is refused
   * exactly when one of the first three commands did not succeed; it begins to roll back exactly
   * when those succeeded and the worktree update did not, and everything is put back exactly when
   * the next two commands succeed as well; and with no detached HEAD, or one at the new head, it
   * succeeds exactly when the first five commands do.
   */
  lemma RepliesDecide(git: Git, w: Writer, replies: seq<Reply>)
    requires git.branch == Some(w.oldHead) && w.pc == Checking && |replies| >= 6
    ensures var (end, done) := Alone(git, w, replies);
      && done.pc.Finished? && Leaves(git, w, replies, end)
      && (forall outcome :: done.pc == Finished(outcome) <==> EndsAs(replies, Head(end), w.newHead, outcome))
      && (git.detached == None || git.detached == Some(w.newHead) ==>
            (done.pc == Finished(Succeeded) <==> forall k :: 0 <= k < 5 ==> replies[k] == Succeeds))
  {
    AloneStaysOnTrack(git, [], git, w, replies);
    AloneKeepsHeads(git, w, replies);
    assert [] + replies == replies;
  }

  /**
   * With no interference every outcome says where branch and worktree are. Success: at the new
   * head, with HEAD. HEAD elsewhere: at the new head, but HEAD is detached or could not be
   * resolved. Refused: at the old head, unless the leased move took effect although it was
   * reported failed. Rolled back: at the old head. Rollback failed: the branch is at the new
   * head exactly when the move back did not take effect.
   */
  lemma OutcomeTellsTheTruth(git: Git, w: Writer, replies: seq<Reply>)
    requires git.branch == Some(w.oldHead) && git.tree == At(w.oldHead) && w.pc == Checking
    ensures var (end, done) := Alone(git, w, replies);
      && (done.pc == Finished(Succeeded) ==>
            end.branch == Some(w.newHead) && end.tree == At(w.newHead) && Head(end) == Some(w.newHead))
      && (done.pc == Finished(HeadElsewhere) ==>
            && end.branch == Some(w.newHead) && end.tree == At(w.newHead)
            && |replies| > 4 && (replies[4] != Succeeds || Head(end) != Some(w.newHead)))
      && (done.pc == Finished(Refused) ==>
            end.tree == At(w.oldHead) && end.branch == Some(if MoveLost(replies) then w.newHead else w.oldHead))
      && (done.pc == Finished(UpdateFailed(true)) ==> end.branch == Some(w.oldHead) && end.tree == At(w.oldHead))
      && (done.pc == Finished(UpdateFailed(false)) ==>
            |replies| > 4 && end.branch == Some(if replies[4] == Fails then w.newHead else w.oldHead))
  {
    AloneStaysOnTrack(git, [], git, w, replies);
    AloneKeepsHeads(git, w, replies);
    assert [] + replies == replies;
  }

  lemma {:induction false} AloneKeepsHeads(git: Git, w: Writer, replies: seq<Reply>)
    ensures Alone(git, w, replies).1.oldHead == w.oldHead && Alone(git, w, replies).1.newHead == w.newHead
    ensures Alone(git, w, replies).1.backup == w.backup
    decreases |replies|
  {
    if replies != [] {
      var (git', w') := Act(git, w, replies[0]);
      AloneKeepsHeads(git', w', replies[1..]);
    }
  }

  // ------------------------------------------------------------------ the program

  /** The repository and rewriter after n commands, each finding what other processes left. */
  function Drive(w: Writer, found: seq<Git>, replies: seq<Reply>, n: nat): (r: (Git, Writer))
    requires 0 < n <= |found| && n <= |replies|
  {
    Act(found[n - 1], if n == 1 then w else Drive(w, found, replies, n - 1).1, replies[n - 1])
  }

  /** Other processes leave the recovery ref alone between the first n commands. */
  ghost predicate BackupKept(w: Writer, found: seq<Git>, replies: seq<Reply>, n: nat)
    requires 0 < n <= |found| && n <= |replies|
  {
    forall k :: 0 < k < n ==> SameBackup(Drive(w, found, replies, k).0.backups, found[k].backups, w.backup)
  }

  /** The first n commands as states of the model: before and after each of them. */
  function History(w: Writer, found: seq<Git>, replies: seq<Reply>, n: nat): (r: seq<State>)
    requires 0 < n <= |found| && n <= |replies|
    ensures |r| == 2 * n
    ensures r[2 * n - 1] == State(Drive(w, found, replies, n).0, map[0 := Drive(w, found, replies, n).1])
  {
    var before := if n == 1 then w else Drive(w, found, replies, n - 1).1;
    var after := Drive(w, found, replies, n);
    (if n == 1 then [] else History(w, found, replies, n - 1))
    + [State(found[n - 1], map[0 := before]), State(after.0, map[0 := after.1])]
  }

  lemma {:induction false} DriveKeepsNames(w: Writer, found: seq<Git>, replies: seq<Reply>, n: nat)
    requires 0 < n <= |found| && n <= |replies|
    ensures var x := Drive(w, found, replies, n).1;
      x.backup == w.backup && x.oldHead == w.oldHead && x.newHead == w.newHead
  {
    if n > 1 {
      DriveKeepsNames(w, found, replies, n - 1);
    }
  }

  lemma OneMoreState(states: seq<State>, s: State)
    requires IsRun(states) && Next(states[|states| - 1], s)
    ensures IsRun(states + [s])
  {
  }

  lemma CommandTaken(states: seq<State>, git: Git, w: Writer, reply: Reply)
    requires IsRun(states) && states[|states| - 1] == State(git, map[0 := w])
    ensures IsRun(states + [State(Act(git, w, reply).0, map[0 := Act(git, w, reply).1])])
  {
    var s, s' := states[|states| - 1], State(Act(git, w, reply).0, map[0 := Act(git, w, reply).1]);
    assert Enabled(s, Command(0, reply)) && s' == Apply(s, Command(0, reply));
    OneMoreState(states, s');
  }

  lemma OthersTaken(states: seq<State>, git: Git, w: Writer, git': Git)
    requires IsRun(states) && states[|states| - 1] == State(git, map[0 := w])
    requires SameBackup(git.backups, git'.backups, w.backup)
    ensures IsRun(states + [State(git', map[0 := w])])
  {
    var s, s' := states[|states| - 1], State(git', map[0 := w]);
    assert Enabled(s, Others(git')) && s' == Apply(s, Others(git'));
    OneMoreState(states, s');
  }

  lemma FirstState(git: Git, w: Writer)
    requires w.pc == Checking && !w.moved && w.seen == None
    ensures IsRun([State(git, map[0 := w])])
  {
  }

  /** What the installer does is a run of the model, in which its theorems hold. */
  lemma {:induction false} InstallationIsRun(w: Writer, found: seq<Git>, replies: seq<Reply>, n: nat)
    requires 0 < n <= |found| && n <= |replies| && BackupKept(w, found, replies, n)
    requires w.pc == Checking && !w.moved && w.seen == None
    ensures IsRun(History(w, found, replies, n))
  {
    if n == 1 {
      var first, after := State(found[0], map[0 := w]), Act(found[0], w, replies[0]);
      FirstState(found[0], w);
      CommandTaken([first], found[0], w, replies[0]);
      assert History(w, found, replies, 1) == [first] + [State(after.0, map[0 := after.1])];
    } else {
      InstallationIsRun(w, found, replies, n - 1);
      DriveKeepsNames(w, found, replies, n - 1);
      var (git, x) := Drive(w, found, replies, n - 1);
      var states := History(w, found, replies, n - 1);
      OneMoreRound(states, git, x, found[n - 1], replies[n - 1]);
      assert Drive(w, found, replies, n) == Act(found[n - 1], x, replies[n - 1]);
    }
  }

  lemma OneMoreRound(states: seq<State>, git: Git, w: Writer, found: Git, reply: Reply)
    requires IsRun(states) && states[|states| - 1] == State(git, map[0 := w])
    requires SameBackup(git.backups, found.backups, w.backup)
    ensures var after := Act(found, w, reply);
      IsRun(states + [State(found, map[0 := w]), State(after.0, map[0 := after.1])])
  {
    var s := State(found, map[0 := w]);
    var s' := State(Act(found, w, reply).0, map[0 := Act(found, w, reply).1]);
    OthersTaken(states, git, w, found);
    CommandTaken(states + [s], found, w, reply);
    assert states + [s] + [s'] == states + [s, s'];
  }

  /** Command k, counted from 0, changed the branch it found. */
  predicate MovedAt(w: Writer, found: seq<Git>, replies: seq<Reply>, k: nat)
    requires k < |found| && k < |replies|
  {
    Drive(w, found, replies, k + 1).0.branch != found[k].branch
  }

  /** Command k found HEAD at the new head. */
  predicate HeadFoundAt(w: Writer, found: seq<Git>, replies: seq<Reply>, k: nat)
    requires 0 < k < |found| && k < |replies|
  {
    Drive(w, found, replies, k).1.pc == Verifying && Head(found[k]) == Some(w.newHead)
  }

  lemma {:induction false} DriveIsHonest(w: Writer, found: seq<Git>, replies: seq<Reply>, n: nat)
    requires 0 < n <= |found| && n <= |replies| && w.pc == Checking
    ensures Drive(w, found, replies, n).1.pc in {Updating, Verifying, RollingBackRef, RollingBackTree} ==>
              Drive(w, found, replies, n).1.moved
  {
    if n > 1 {
      DriveIsHonest(w, found, replies, n - 1);
    }
  }

  lemma {:induction false} MovingIsNoted(w: Writer, found: seq<Git>, replies: seq<Reply>, k: nat, n: nat)
    requires k < n <= |found| && n <= |replies| && MovedAt(w, found, replies, k) && w.pc == Checking
    ensures Drive(w, found, replies, n).1.moved
  {
    if k < n - 1 {
      MovingIsNoted(w, found, replies, k, n - 1);
    } else if k > 0 {
      DriveIsHonest(w, found, replies, k);
    }
  }

  lemma {:induction false} HeadWasFound(w: Writer, found: seq<Git>, replies: seq<Reply>, n: nat)
    requires 0 < n <= |found| && n <= |replies| && w.pc == Checking
    requires Drive(w, found, replies, n).1.pc == Finished(Succeeded)
    ensures exists k :: 0 < k < n && HeadFoundAt(w, found, replies, k)
  {
    var k := n - 1;
    if k > 0 {
      DriveKeepsNames(w, found, replies, k);
      if Drive(w, found, replies, k).1.pc == Finished(Succeeded) {
        HeadWasFound(w, found, replies, k);
      } else {
        assert HeadFoundAt(w, found, replies, k);
      }
    }
  }

  /** However an installation ends: once it changed the branch the old head is recoverable, and
      it reports success only if one of its commands found HEAD at the new head. */
  lemma InstallationIsSafe(w: Writer, found: seq<Git>, replies: seq<Reply>, n: nat)
    requires 0 < n <= |found| && n <= |replies| && BackupKept(w, found, replies, n)
    requires w.pc == Checking && !w.moved && w.seen == None
    ensures var (git, x) := Drive(w, found, replies, n);
      && ((exists k :: 0 <= k < n && MovedAt(w, found, replies, k)) ==>
            w.backup in git.backups && git.backups[w.backup] == w.oldHead)
      && (x.pc == Finished(Succeeded) ==> exists k :: 0 < k < n && HeadFoundAt(w, found, replies, k))
  {
    InstallationIsRun(w, found, replies, n);
    DriveKeepsNames(w, found, replies, n);
    var states := History(w, found, replies, n);
    RunsKeep(states, 2 * n - 1);
    assert Protected(states[2 * n - 1].git, states[2 * n - 1].writers[0]);
    if k :| 0 <= k < n && MovedAt(w, found, replies, k) {
      MovingIsNoted(w, found, replies, k, n);
    }
    if Drive(w, found, replies, n).1.pc == Finished(Succeeded) {
      HeadWasFound(w, found, replies, n);
    }
  }

  /** How a rewriter ends, given what its commands found and what became of them. */
  ghost predicate EndsAsFound(w: Writer, found: seq<Git>, replies: seq<Reply>, outcome: Outcome)
    requires |found| == |replies| == 6
  {
    var installed := Installed(replies) && found[2].branch == Some(w.oldHead);
    var seen := Worked(replies, 4) && Head(found[4]) == Some(w.newHead);
    var restored := Worked(replies, 4) && found[4].branch == Some(w.newHead) && Worked(replies, 5);
    match outcome
    case Refused => !installed
    case Succeeded => installed && Worked(replies, 3) && seen
    case HeadElsewhere => installed && Worked(replies, 3) && !seen
    case UpdateFailed(all) => installed && Failed(replies, 3) && all == restored
  }

  /** Whatever other processes do: the leased move goes through exactly when it finds the branch at the
      old head, and what the commands find and reply decides how the installation ends. */
  lemma FoundDecides(w: Writer, found: seq<Git>, replies: seq<Reply>, outcome: Outcome)
    requires |found| == |replies| == 6 && w.pc == Checking
    ensures Drive(w, found, replies, 6).1.pc == Finished(outcome) <==> EndsAsFound(w, found, replies, outcome)
  {
    hide AfterTree, Head;
    var x1, x2 := Drive(w, found, replies, 1).1, Drive(w, found, replies, 2).1;
    assert x1 == Act(found[0], w, replies[0]).1 && x2 == Act(found[1], x1, replies[1]).1;
    var x3, x4 := Drive(w, found, replies, 3).1, Drive(w, found, replies, 4).1;
    assert x3 == Act(found[2], x2, replies[2]).1 && x4 == Act(found[3], x3, replies[3]).1;
    var x5, x6 := Drive(w, found, replies, 5).1, Drive(w, found, replies, 6).1;
    assert x5 == Act(found[4], x4, replies[4]).1 && x6 == Act(found[5], x5, replies[5]).1;
    assert x3.pc == (if Installed(replies) && found[2].branch == Some(w.oldHead) then Updating else Finished(Refused));
  }

  /** An installation that finds what it left is one that runs alone. */
  lemma {:induction false} UndisturbedIsAlone(w: Writer, found: seq<Git>, replies: seq<Reply>, n: nat)
    requires 0 < n <= |found| && n <= |replies|
    requires forall k :: 0 < k < n ==> found[k] == Drive(w, found, replies, k).0
    ensures Drive(w, found, replies, n) == Alone(found[0], w, replies[..n])
  {
    hide Act, Alone;
    NothingDone(found[0], w);
    AloneGoesOn(found[0], w, replies[..n - 1], replies[n - 1]);
    assert replies[..n - 1] + [replies[n - 1]] == replies[..n];
    if n > 1 {
      UndisturbedIsAlone(w, found, replies, n - 1);
    }
  }

  lemma NothingDone(git: Git, w: Writer)
    ensures Alone(git, w, []) == (git, w)
  {
  }

  lemma {:induction false} AloneGoesOn(git: Git, w: Writer, replies: seq<Reply>, reply: Reply)
    ensures var (end, done) := Alone(git, w, replies);
      Alone(git, w, replies + [reply]) == Act(end, done, reply)
    decreases |replies|
  {
    if replies != [] {
      var (git', w') := Act(git, w, replies[0]);
      AloneGoesOn(git', w', replies[1..], reply);
      assert (replies + [reply])[1..] == replies[1..] + [reply];
    }
  }

  class Repository {
    var git: Git

    constructor (git: Git)
      ensures this.git == git
    {
      this.git := git;
    }

    /** What other processes leave before the next command. */
    method Interfere(found: Git)
      modifies this
      ensures git == found
    {
      git := found;
    }

    method SaveBackup(name: RefName, oid: Oid, reply: Reply) returns (ok: bool)
      modifies this
      ensures ok == reply.Succeeds?
      ensures git == if reply.Fails? then old(git) else old(git).(backups := old(git).backups[name := oid])
    {
      if !reply.Fails? { git := git.(backups := git.backups[name := oid]); }
      ok := reply.Succeeds?;
    }

    method UpdateBranch(to: Oid, from: Oid, reply: Reply) returns (ok: bool)
      modifies this
      ensures ok == (old(git).branch == Some(from) && reply.Succeeds?)
      ensures git == if Moves(old(git), from, reply) then old(git).(branch := Some(to)) else old(git)
    {
      ok := git.branch == Some(from) && reply.Succeeds?;
      if git.branch == Some(from) && !reply.Fails? { git := git.(branch := Some(to)); }
    }

    method ReadTree(commit: Oid, reply: Reply) returns (ok: bool)
      modifies this
      ensures ok == reply.Succeeds? && git == AfterTree(old(git), commit, reply)
    {
      ok := reply.Succeeds?;
      git := AfterTree(git, commit, reply);
    }
  }

  /** rollbackInstalledRewrite, its two commands the at-th and the next. */
  method RollBack(repository: Repository, w: Writer, found: seq<Git>, replies: seq<Reply>, at: nat)
    returns (used: nat, outcome: Outcome)
    requires 0 < at && at + 2 <= |found| == |replies|
    requires Drive(w, found, replies, at).1 == w.(moved := true, pc := RollingBackRef)
    modifies repository
    ensures at < used <= |found|
    ensures repository.git == Drive(w, found, replies, used).0
    ensures Finished(outcome) == Drive(w, found, replies, used).1.pc
    ensures outcome == UpdateFailed(Worked(replies, at) && found[at].branch == Some(w.newHead)
                                    && Worked(replies, at + 1))
  {
    repository.Interfere(found[at]);
    var ok := repository.UpdateBranch(w.oldHead, w.newHead, replies[at]);
    used, outcome := at + 1, UpdateFailed(false);
    if ok {
      repository.Interfere(found[at + 1]);
      ok := repository.ReadTree(w.oldHead, replies[at + 1]);
      used, outcome := at + 2, UpdateFailed(ok);
    }
  }

  /** The installing half of rewriteCommits. */
  method InstallRewrite(repository: Repository, w: Writer, found: seq<Git>, replies: seq<Reply>)
    returns (used: nat, outcome: Outcome)
    requires |found| == |replies| == 6
    requires w.pc == Checking && !w.moved && w.seen == None
    modifies repository
    ensures 0 < used <= 6
    ensures repository.git == Drive(w, found, replies, used).0
    ensures Finished(outcome) == Drive(w, found, replies, used).1.pc
    ensures EndsAsFound(w, found, replies, outcome)
  {
    repository.Interfere(found[0]);
    if !replies[0].Succeeds? { return 1, Refused; }
    assert Drive(w, found, replies, 1).1 == w.(pc := BackingUp);

    repository.Interfere(found[1]);
    var ok := repository.SaveBackup(w.backup, w.oldHead, replies[1]);
    if !ok { return 2, Refused; }
    assert Drive(w, found, replies, 2).1 == w.(pc := Moving);

    repository.Interfere(found[2]);
    ok := repository.UpdateBranch(w.newHead, w.oldHead, replies[2]);
    if !ok { return 3, Refused; }
    assert Drive(w, found, replies, 3).1 == w.(moved := true, pc := Updating);

    repository.Interfere(found[3]);
    ok := repository.ReadTree(w.newHead, replies[3]);
    if !ok {
      assert Drive(w, found, replies, 4).1 == w.(moved := true, pc := RollingBackRef);
      used, outcome := RollBack(repository, w, found, replies, 4);
      return;
    }
    assert Drive(w, found, replies, 4).1 == w.(moved := true, pc := Verifying);

    repository.Interfere(found[4]);
    var installed := if replies[4].Succeeds? then Head(repository.git) else None;
    return 5, if installed == Some(w.newHead) then Succeeded else HeadElsewhere;
  }
}
