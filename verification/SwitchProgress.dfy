/**
 * What the calls of the switch protocol achieve (internal/desktop/operations.go and
 * service.go): a read gets the installed repository, the newest Open installs its own, and
 * no call waits for ever.
 */
module SwitchProgress {
  import opened Common
  import opened SwitchState
  import opened SwitchProtocol

  // ------------------------------------------------------------- two single steps

  /** A registered call gets the installed repository exactly when one is installed and no switch
      is pending, and goes on to work with it; otherwise it ends without one. */
  lemma RegisteredGetsTheRepository(states: seq<State>, i: nat, t: CallId)
    requires IsRun(states) && i < |states| && t in states[i].threads
    requires states[i].threads[t].pc == Registered && states[i].threads[t].toCall == {}
    ensures Enabled(states[i], Run(t))
    ensures var s, s' := states[i], Apply(states[i], Run(t));
      && s'.g == s.g && s'.mutex == s.mutex && s'.cancelled == s.cancelled
      && s'.threads[t] ==
           if !s.g.switching && s.g.repository.Some?
           then s.threads[t].(pc := Holding, handle := s.g.repository) else s.threads[t].(pc := Ending)
  {
  }

  /** An Open whose opening is done installs its repository and ends the switch exactly when no newer
      generation was reserved; otherwise it installs nothing. */
  lemma NewestOpeningInstalls(states: seq<State>, i: nat, t: CallId)
    requires IsRun(states) && i < |states| && t in states[i].threads
    requires states[i].threads[t].pc == Opening && states[i].threads[t].toCall == {}
    ensures Enabled(states[i], Run(t)) && states[i].threads[t].kind.Open?
    ensures var s, s' := states[i], Apply(states[i], Run(t));
      && s'.threads[t].pc == Ending
      && (s'.threads[t].completed <==> s.threads[t].generation == s.g.generation)
      && s'.g ==
           if s.threads[t].generation == s.g.generation
           then s.g.(repository := Some(s.threads[t].kind.target), switching := false) else s.g
  {
    RunsKeep(states, i);
    FactsOf(states[i], t);
  }

  // ------------------------------------------------------------ calls on their own

  /** The step from s to s' is call t's own: a step of its code, or one of the cancel functions it
      collected. Only an Open gives up here. */
  ghost predicate OwnStep(s: State, s': State, t: CallId) {
    && t in s.threads
    && exists step :: Enabled(s, step) && step.t == t && s' == Apply(s, step)
         && (step.Run? || step.Call? || (step.Abort? && s.threads[t].kind.Open?))
  }

  ghost predicate OwnSteps(states: seq<State>, i: nat, j: nat, t: CallId)
    requires j < |states|
  {
    forall k: nat :: i <= k < j ==> OwnStep(states[k], states[k + 1], t)
  }

  /** The operations a new one with this key leaves in the table. */
  function Others(g: Guarded, key: string): (r: map<nat, Token>)
  {
    map id | id in g.operations && !(key != "" && key in g.latest && g.latest[key] == id) :: g.operations[id]
  }

  /** The cancel functions of the operations it supersedes. */
  function Superseding(g: Guarded, key: string): set<Token> {
    set id | id in g.operations && key != "" && key in g.latest && g.latest[key] == id :: g.operations[id]
  }

  ghost predicate Available(g: Guarded) {
    !g.switching && g.repository.Some?
  }

  /** The guarded fields while a read, search or mutation begun at g has its operation registered. */
  ghost predicate Working(g: Guarded, g': Guarded, t: CallId, key: string) {
    && g'.repository == g.repository && g'.switching == g.switching && g'.generation == g.generation
    && g'.nextOperationId == g.nextOperationId + 1
    && g'.operations == Others(g, key)[g.nextOperationId + 1 := Op(t)]
    && g'.latest == if key == "" then g.latest else g.latest[key := g.nextOperationId + 1]
  }

  /** And once it has been forgotten. */
  ghost predicate Worked(g: Guarded, g': Guarded, key: string) {
    && g'.repository == g.repository && g'.switching == g.switching && g'.generation == g.generation
    && g'.nextOperationId == g.nextOperationId + 1
    && g'.operations == Others(g, key)
    && g'.latest == if key == "" then g.latest else g.latest - {key}
  }

  ghost predicate SameSearch(g: Guarded, g': Guarded) {
    g'.searchCancel == g.searchCancel && g'.searchId == g.searchId
  }

  ghost predicate SearchOver(g: Guarded, g': Guarded) {
    g'.searchCancel == None && g'.searchId == g.searchId + 1
  }

  /** A search that got a repository has replaced the search before it, and cancelled its own. */
  ghost predicate Searched(kind: Kind, g: Guarded) {
    kind.RunSearch? && Available(g)
  }

  /** Everything a read, search or mutation cancels but itself. */
  ghost function Cancels(s: State, t: CallId, kind: Kind): set<Token> {
    s.cancelled + Superseding(s.g, Key(kind))
    + if Searched(kind, s.g) then Slot(s.g.searchCancel) + {Search(t)} else {}
  }

  /** Nothing but call t, the guarded fields, the cancelled contexts and the mutex differs. */
  ghost predicate OthersRest(start: State, s: State, t: CallId) {
    && t in start.threads && t in s.threads && s.threads.Keys == start.threads.Keys
    && s.threads[t].kind == start.threads[t].kind
    && forall u :: u in s.threads && u != t ==> s.threads[u] == start.threads[u]
  }

  /** Where a read, search or mutation that runs on its own has come. */
  ghost predicate WorkOnTrack(start: State, s: State, t: CallId) {
    && OthersRest(start, s, t) && s.installs == start.installs
    && (start.threads[t].kind.Read? || start.threads[t].kind.RunSearch? || start.threads[t].kind.Mutate?)
    && var g, th, kind, key := start.g, s.threads[t], start.threads[t].kind, Key(start.threads[t].kind);
    && s.mutex == (if kind.Mutate? && th.pc != Start
                   then if th.pc == Done then None else Some(t) else start.mutex)
    && (HasOperation(th) ==> Working(g, s.g, t, key) && th.opId == g.nextOperationId + 1)
    && th.handle == (if Available(g) && th.pc !in {Start, Locked, Registered} then g.repository else None)
    && match th.pc
       case Start => s.g == g && s.cancelled == start.cancelled && th.toCall == {}
       case Locked => s.g == g && s.cancelled == start.cancelled && th.toCall == {} && kind.Mutate?
       case Registered =>
         SameSearch(g, s.g) && s.cancelled + th.toCall == start.cancelled + Superseding(g, key)
       case Holding =>
         && SameSearch(g, s.g) && s.cancelled == start.cancelled + Superseding(g, key)
         && Available(g) && th.toCall == {}
       case Searching =>
         && Searched(kind, g) && s.g.searchCancel == Some(Search(t)) && s.g.searchId == g.searchId + 1 == th.searchId
         && s.cancelled == start.cancelled + Superseding(g, key) + Slot(g.searchCancel) && th.toCall == {}
       case SearchStopped =>
         && Searched(kind, g) && s.g.searchCancel == Some(Search(t)) && s.g.searchId == g.searchId + 1 == th.searchId
         && s.cancelled == Cancels(start, t, kind) && th.toCall == {}
       case Ending =>
         && (if Searched(kind, g) then SearchOver(g, s.g) else SameSearch(g, s.g))
         && s.cancelled == Cancels(start, t, kind) && th.toCall == {}
       case Dropping | Unlocking | Done =>
         && (if Searched(kind, g) then SearchOver(g, s.g) else SameSearch(g, s.g))
         && s.cancelled == Cancels(start, t, kind) + {Op(t)} && th.toCall == {}
         && (th.pc == Dropping || Worked(g, s.g, key)) && (th.pc == Unlocking ==> kind.Mutate?)
       case _ => false
  }

  /** No operation has the next id yet. */
  ghost predicate NextIsFresh(g: Guarded) {
    g.nextOperationId + 1 !in g.operations
  }

  lemma WorkCalls(start: State, s: State, token: Token, t: CallId)
    requires WorkOnTrack(start, s, t) && Enabled(s, Call(t, token))
    ensures WorkOnTrack(start, Apply(s, Call(t, token)), t)
  {
    hide Superseding, Others, Working, SameSearch, SearchOver, Searched, Available, Cancels;
    var th := s.threads[t];
    assert s.cancelled + {token} + (th.toCall - {token}) == s.cancelled + th.toCall;
  }

  lemma WorkRegisters(start: State, s: State, t: CallId)
    requires WorkOnTrack(start, s, t) && CanRun(s, t) && s.threads[t].pc in {Start, Locked, Registered}
    ensures WorkOnTrack(start, RunThread(s, t), t)
  {
    hide Searched, Cancels, SearchOver, Worked;
    if s.threads[t].pc != Registered {
      assert Superseded(s.g, Key(s.threads[t].kind)) == Superseding(s.g, Key(s.threads[t].kind));
    }
    WorkReads(start, s, t);
  }

  /** A registered call without a repository ends at once. */
  lemma WorkReads(start: State, s: State, t: CallId)
    requires WorkOnTrack(start, s, t) && CanRun(s, t)
    ensures s.threads[t].pc == Registered ==> WorkOnTrack(start, RunThread(s, t), t)
  {
    hide Others, Superseding, Register;
    var th, kind := s.threads[t], start.threads[t].kind;
    if th.pc == Registered {
      assert s.cancelled + th.toCall == s.cancelled;
      assert !Searched(kind, start.g) ==> Cancels(start, t, kind) == start.cancelled + Superseding(start.g, Key(kind));
    }
  }

  lemma WorkSearches(start: State, s: State, t: CallId)
    requires WorkOnTrack(start, s, t) && CanRun(s, t) && s.threads[t].pc in {Holding, Searching, SearchStopped}
    ensures WorkOnTrack(start, RunThread(s, t), t)
  {
    hide Others, Superseding;
  }

  lemma WorkEnds(start: State, s: State, t: CallId)
    requires WorkOnTrack(start, s, t) && CanRun(s, t) && s.threads[t].pc in {Ending, Unlocking}
    ensures WorkOnTrack(start, RunThread(s, t), t)
  {
    hide Superseding, Cancels, Searched, Others, Key, Unregister;
  }

  lemma WorkForgets(start: State, s: State, t: CallId)
    requires WorkOnTrack(start, s, t) && CanRun(s, t) && s.threads[t].pc == Dropping && NextIsFresh(start.g)
    ensures WorkOnTrack(start, RunThread(s, t), t)
  {
    hide Superseding, Cancels, Searched;
  }

  lemma WorkStep(start: State, s: State, s': State, t: CallId)
    requires WorkOnTrack(start, s, t) && OwnStep(s, s', t) && NextIsFresh(start.g)
    ensures WorkOnTrack(start, s', t)
  {
    hide WorkOnTrack, CanRun, RunThread;
    WorkPoints(start, s, t);
    var step :| Enabled(s, step) && step.t == t && s' == Apply(s, step)
      && (step.Run? || step.Call? || (step.Abort? && s.threads[t].kind.Open?));
    if step.Call? {
      WorkCalls(start, s, step.token, t);
    } else if s.threads[t].pc in {Start, Locked, Registered} {
      WorkRegisters(start, s, t);
    } else if s.threads[t].pc in {Holding, Searching, SearchStopped} {
      WorkSearches(start, s, t);
    } else if s.threads[t].pc == Dropping {
      WorkForgets(start, s, t);
    } else {
      WorkEnds(start, s, t);
    }
  }

  lemma WorkPoints(start: State, s: State, t: CallId)
    requires WorkOnTrack(start, s, t)
    ensures t in s.threads && !s.threads[t].kind.Open?
    ensures s.threads[t].pc in {Start, Locked, Registered, Holding, Searching, SearchStopped, Ending, Dropping,
                                Unlocking, Done}
    ensures s.threads[t].pc == Done ==> !CanRun(s, t)
  {
  }

  lemma StartsOnTrack(states: seq<State>, i: nat, t: CallId)
    requires IsRun(states) && i < |states| && t in states[i].threads && states[i].threads[t].pc == Start
    ensures NextIsFresh(states[i].g) && OthersRest(states[i], states[i], t)
    ensures var th := states[i].threads[t]; th.toCall == {} && th.handle == None && !th.completed
    ensures var kind := states[i].threads[t].kind;
      kind.Read? || kind.RunSearch? || kind.Mutate? ==> WorkOnTrack(states[i], states[i], t)
  {
    RunsKeep(states, i);
    FactsOf(states[i], t);
  }

  lemma {:induction false} WorkStaysOnTrack(states: seq<State>, i: nat, j: nat, t: CallId)
    requires IsRun(states) && i <= j < |states| && OwnSteps(states, i, j, t)
    requires WorkOnTrack(states[i], states[i], t) && NextIsFresh(states[i].g)
    ensures WorkOnTrack(states[i], states[j], t)
  {
    hide WorkOnTrack, IsRun, OwnStep;
    if i < j {
      WorkStaysOnTrack(states, i, j - 1, t);
      assert OwnStep(states[j - 1], states[j], t);
      WorkStep(states[i], states[j - 1], states[j], t);
    }
  }

  /**
   * A read, search or mutation that runs on its own works on the installed repository exactly when
   * one is installed and no switch is pending. It cancels the operation whose key it takes, itself
   * at the end, and, if it is a search, the search before it; it leaves every other operation
   * registered, the repository and the switch as they were, and the mutex free.
   */
  lemma UndisturbedWork(states: seq<State>, i: nat, j: nat, t: CallId)
    requires IsRun(states) && i <= j < |states| && OwnSteps(states, i, j, t) && t in states[i].threads
    requires states[i].threads[t].pc == Start && t in states[j].threads && states[j].threads[t].pc == Done
    requires var kind := states[i].threads[t].kind; kind.Read? || kind.RunSearch? || kind.Mutate?
    ensures var before, after, kind := states[i], states[j], states[i].threads[t].kind;
      && OthersRest(before, after, t) && after.installs == before.installs
      && after.threads[t].handle == (if Available(before.g) then before.g.repository else None)
      && Worked(before.g, after.g, Key(kind))
      && (if Searched(kind, before.g) then SearchOver(before.g, after.g) else SameSearch(before.g, after.g))
      && after.cancelled == Cancels(before, t, kind) + {Op(t)}
      && after.mutex == if kind.Mutate? then None else before.mutex
  {
    StartsOnTrack(states, i, t);
    WorkStaysOnTrack(states, i, j, t);
  }

  // ------------------------------------------------------------- an Open on its own

  function Everything(g: Guarded): set<Token> {
    (set id | id in g.operations :: g.operations[id]) + Slot(g.searchCancel)
  }

  /** The fields a switch or CancelOperations empties. */
  ghost predicate Emptied(g: Guarded, g': Guarded) {
    g'.latest == map[] && SearchOver(g, g')
  }

  ghost predicate OpenOnTrack(start: State, s: State, t: CallId) {
    && OthersRest(start, s, t) && start.threads[t].kind.Open?
    && var g, th, own := start.g, s.threads[t], start.g.nextOperationId + 1;
    && s.mutex == (if th.pc == Start || th.pc == Reserved then start.mutex
                   else if th.pc == Done then None else Some(t))
    && (th.pc != Start ==> th.generation == g.generation + 1 == s.g.generation)
    && s.g.repository == (if th.completed then Some(th.kind.target) else g.repository)
    && s.installs == (if th.completed then start.installs + [g.generation + 1] else start.installs)
    && (th.pc in {Opening, Ending, Dropping, Failing, Unlocking, Done} ==>
          Emptied(g, s.g) && s.g.nextOperationId == own && (th.pc in {Opening, Ending, Dropping} ==> th.opId == own))
    && (th.pc != Opening ==> th.toCall == {})
    && match th.pc
       case Start => s.g == g && s.cancelled == start.cancelled && !th.completed
       case Reserved | Locked =>
         s.g == g.(generation := g.generation + 1) && s.cancelled == start.cancelled && !th.completed
       case Opening =>
         && s.g.operations == map[own := Op(t)] && s.g.switching && !th.completed
         && s.cancelled + th.toCall == start.cancelled + Everything(g)
       case Ending =>
         && s.g.operations == map[own := Op(t)] && s.g.switching == !th.completed
         && s.cancelled == start.cancelled + Everything(g)
       case Dropping =>
         && s.g.operations == map[own := Op(t)] && s.g.switching == !th.completed
         && s.cancelled == start.cancelled + Everything(g) + {Op(t)}
       case Failing =>
         && s.g.operations == map[] && s.g.switching && !th.completed
         && s.cancelled == start.cancelled + Everything(g) + {Op(t)}
       case Unlocking | Done =>
         && s.g.operations == map[] && !s.g.switching
         && s.cancelled == start.cancelled + Everything(g) + {Op(t)}
       case _ => false
  }

  lemma OpenCalls(start: State, s: State, token: Token, t: CallId)
    requires OpenOnTrack(start, s, t) && Enabled(s, Call(t, token))
    ensures OpenOnTrack(start, Apply(s, Call(t, token)), t)
  {
    hide Everything, Emptied;
    var th := s.threads[t];
    assert s.cancelled + {token} + (th.toCall - {token}) == s.cancelled + th.toCall;
  }

  lemma OpenBegins(start: State, s: State, t: CallId)
    requires OpenOnTrack(start, s, t) && CanRun(s, t) && s.threads[t].pc in {Start, Reserved, Locked}
    ensures OpenOnTrack(start, RunThread(s, t), t)
  {
    assert Collected(start.g) == Everything(start.g);
    if s.threads[t].pc == Locked {
      assert Collected(s.g) == Everything(start.g);
    }
  }

  lemma OpenInstalls(start: State, s: State, t: CallId)
    requires OpenOnTrack(start, s, t) && CanRun(s, t) && s.threads[t].pc == Opening
    ensures OpenOnTrack(start, RunThread(s, t), t)
    ensures OpenOnTrack(start, s.(threads := s.threads[t := s.threads[t].(pc := Ending)]), t)
  {
    hide Everything;
    assert s.cancelled + s.threads[t].toCall == s.cancelled;
  }

  lemma OpenEnds(start: State, s: State, t: CallId)
    requires OpenOnTrack(start, s, t) && CanRun(s, t) && s.threads[t].pc in {Ending, Dropping, Failing, Unlocking}
    ensures OpenOnTrack(start, RunThread(s, t), t)
  {
    hide OpenOnTrack, RunThread;
    if s.threads[t].pc == Dropping {
      OpenForgets(start, s, t);
    } else {
      OpenReleases(start, s, t);
    }
  }

  lemma OpenForgets(start: State, s: State, t: CallId)
    requires OpenOnTrack(start, s, t) && CanRun(s, t) && s.threads[t].pc == Dropping
    ensures OpenOnTrack(start, RunThread(s, t), t)
  {
    hide Everything;
  }

  lemma OpenReleases(start: State, s: State, t: CallId)
    requires OpenOnTrack(start, s, t) && CanRun(s, t) && s.threads[t].pc in {Ending, Failing, Unlocking}
    ensures OpenOnTrack(start, RunThread(s, t), t)
  {
    hide Everything, Unregister;
  }

  lemma OpenStep(start: State, s: State, s': State, t: CallId)
    requires OpenOnTrack(start, s, t) && OwnStep(s, s', t)
    ensures OpenOnTrack(start, s', t)
  {
    hide OpenOnTrack, RunThread;
    OpenPoints(start, s, t);
    var step :| Enabled(s, step) && step.t == t && s' == Apply(s, step)
      && (step.Run? || step.Call? || (step.Abort? && s.threads[t].kind.Open?));
    if step.Call? {
      OpenCalls(start, s, step.token, t);
    } else if s.threads[t].pc in {Start, Reserved, Locked} {
      OpenBegins(start, s, t);
    } else if s.threads[t].pc == Opening {
      OpenInstalls(start, s, t);
    } else {
      OpenEnds(start, s, t);
    }
  }

  lemma OpenPoints(start: State, s: State, t: CallId)
    requires OpenOnTrack(start, s, t)
    ensures t in s.threads && s.threads[t].kind.Open?
    ensures s.threads[t].pc in {Start, Reserved, Locked, Opening, Ending, Dropping, Failing, Unlocking, Done}
  {
  }

  lemma {:induction false} OpenStaysOnTrack(states: seq<State>, i: nat, j: nat, t: CallId)
    requires i <= j < |states| && OwnSteps(states, i, j, t) && OpenOnTrack(states[i], states[i], t)
    ensures OpenOnTrack(states[i], states[j], t)
  {
    hide OpenOnTrack, OwnStep;
    if i < j {
      OpenStaysOnTrack(states, i, j - 1, t);
      assert OwnStep(states[j - 1], states[j], t);
      OpenStep(states[i], states[j - 1], states[j], t);
    }
  }

  /**
   * An Open that runs on its own takes the next generation and cancels every operation and the
   * running search, itself at the end. If it does not give up it installs its repository, and
   * otherwise the one before stays; either way no switch is pending and the mutex is free.
   */
  lemma UndisturbedOpen(states: seq<State>, i: nat, j: nat, t: CallId)
    requires IsRun(states) && i <= j < |states| && OwnSteps(states, i, j, t) && t in states[i].threads
    requires states[i].threads[t].pc == Start && states[i].threads[t].kind.Open?
    requires t in states[j].threads && states[j].threads[t].pc == Done
    ensures var before, after := states[i], states[j];
      var installed := after.threads[t].completed;
      && OthersRest(before, after, t) && after.mutex == None
      && after.g == Guarded(if installed then Some(before.threads[t].kind.target) else before.g.repository, false,
                            before.g.generation + 1, map[], map[], before.g.nextOperationId + 1, None,
                            before.g.searchId + 1)
      && after.cancelled == before.cancelled + Everything(before.g) + {Op(t)}
    ensures (forall k: nat :: i <= k < j ==> !GivesUp(states[k], states[k + 1], t)) ==> states[j].threads[t].completed
  {
    hide Everything, OwnStep, OwnSteps, IsRun, GivesUp;
    StartsOnTrack(states, i, t);
    OpenStaysOnTrack(states, i, j, t);
    if forall k: nat :: i <= k < j ==> !GivesUp(states[k], states[k + 1], t) {
      OpenCompletes(states, i, j, t);
    }
  }

  ghost predicate GivesUp(s: State, s': State, t: CallId) {
    Enabled(s, Abort(t)) && s' == Apply(s, Abort(t))
  }

  lemma {:induction false} OpenCompletes(states: seq<State>, i: nat, j: nat, t: CallId)
    requires i <= j < |states| && OwnSteps(states, i, j, t) && OpenOnTrack(states[i], states[i], t)
    requires states[i].threads[t].pc == Start
    requires forall k: nat :: i <= k < j ==> !GivesUp(states[k], states[k + 1], t)
    ensures t in states[j].threads
    ensures states[j].threads[t].pc in {Ending, Dropping, Unlocking, Done} ==> states[j].threads[t].completed
    ensures states[j].threads[t].pc != Failing
  {
    hide OpenOnTrack, OwnStep;
    OpenStaysOnTrack(states, i, j, t);
    OpenPoints(states[i], states[j], t);
    if i < j {
      OpenCompletes(states, i, j - 1, t);
      OpenStaysOnTrack(states, i, j - 1, t);
      assert OwnStep(states[j - 1], states[j], t) && !GivesUp(states[j - 1], states[j], t);
      CompletesNext(states[i], states[j - 1], states[j], t);
    }
  }

  lemma CompletesNext(start: State, s: State, s': State, t: CallId)
    requires OpenOnTrack(start, s, t) && OwnStep(s, s', t) && !GivesUp(s, s', t)
    requires s.threads[t].pc != Failing
    requires s.threads[t].pc in {Ending, Dropping, Unlocking, Done} ==> s.threads[t].completed
    ensures t in s'.threads && s'.threads[t].pc != Failing
    ensures s'.threads[t].pc in {Ending, Dropping, Unlocking, Done} ==> s'.threads[t].completed
  {
    hide Everything, Emptied, Collected;
  }

  // ------------------------------------------------------------- cancelling calls

  /** CancelOperations cancels and forgets every operation and the running search, and nothing else. */
  lemma CancelAllForgets(states: seq<State>, i: nat, t: CallId)
    requires IsRun(states) && i < |states| && t in states[i].threads
    requires states[i].threads[t].pc == Start && states[i].threads[t].kind.CancelAll?
    ensures Enabled(states[i], Run(t))
    ensures var s, s' := states[i], Apply(states[i], Run(t));
      && OthersRest(s, s', t) && s'.threads[t].pc == Calling && s'.threads[t].toCall == Everything(s.g)
      && s'.g == s.g.(operations := map[], latest := map[], searchCancel := None, searchId := s.g.searchId + 1)
      && s'.mutex == s.mutex && s'.cancelled == s.cancelled
  {
  }

  /** CancelSearch cancels the running search, if any, and outdates its id. */
  lemma StopSearchStops(states: seq<State>, i: nat, t: CallId)
    requires IsRun(states) && i < |states| && t in states[i].threads
    requires states[i].threads[t].pc == Start && states[i].threads[t].kind.StopSearch?
    ensures Enabled(states[i], Run(t))
    ensures var s, s' := states[i], Apply(states[i], Run(t));
      && OthersRest(s, s', t) && s'.threads[t].pc == Done
      && s'.g == s.g.(searchCancel := None, searchId := s.g.searchId + 1)
      && s'.cancelled == s.cancelled + Slot(s.g.searchCancel) && s'.mutex == s.mutex
  {
  }

  // --------------------------------------------------------------------- progress

  lemma {:induction false} MutexIsHeld(states: seq<State>, i: nat)
    requires IsRun(states) && i < |states|
    ensures states[i].mutex.Some? ==> states[i].mutex.value in states[i].threads
  {
    if i > 0 {
      MutexIsHeld(states, i - 1);
      assert Next(states[i - 1], states[i]);
      var step :| Enabled(states[i - 1], step) && states[i] == Apply(states[i - 1], step);
      MutexStaysHeld(states[i - 1], step);
    }
  }

  lemma MutexStaysHeld(s: State, step: Step)
    requires Enabled(s, step) && (s.mutex.Some? ==> s.mutex.value in s.threads)
    ensures var s' := Apply(s, step); s'.mutex.Some? ==> s'.mutex.value in s'.threads
  {
    hide Collected, Slot, Superseded, AfterDropping, Reserve, ForgetAll, DropSearch, BeginSwitch, StartSearch,
         EndSearch, CompleteSwitch, FailSwitch, Register, Unregister, Current;
  }

  /** Some step of call t itself can be taken. */
  ghost predicate CanGoOn(s: State, t: CallId) {
    Enabled(s, Run(t)) || exists token :: Enabled(s, Call(t, token))
  }

  lemma GoesOnUnlessWaiting(s: State, t: CallId)
    requires t in s.threads && s.threads[t].pc != Done
    requires s.mutex == None
             || (s.threads[t].pc != Reserved && !(s.threads[t].pc == Start && s.threads[t].kind.Mutate?))
    ensures CanGoOn(s, t)
  {
    if s.threads[t].toCall != {} {
      var token :| token in s.threads[t].toCall;
      assert Enabled(s, Call(t, token));
    }
  }

  /** There is no deadlock: a call that has not ended can go on, or waits for the mutex that another
      call holds which can. */
  lemma NobodyWaitsForEver(states: seq<State>, i: nat, t: CallId)
    requires IsRun(states) && i < |states| && t in states[i].threads && states[i].threads[t].pc != Done
    ensures CanGoOn(states[i], t) || (states[i].mutex.Some? && CanGoOn(states[i], states[i].mutex.value))
  {
    hide CanGoOn, Inv;
    var s := states[i];
    RunsKeep(states, i);
    MutexIsHeld(states, i);
    if s.mutex.Some? {
      FactsOf(s, s.mutex.value);
      HolderGoesOn(s, s.mutex.value);
    } else {
      GoesOnUnlessWaiting(s, t);
    }
  }

  lemma HolderGoesOn(s: State, u: CallId)
    requires Facts(s, u) && s.mutex == Some(u)
    ensures CanGoOn(s, u)
  {
    hide CanGoOn;
    GoesOnUnlessWaiting(s, u);
  }

  function PcRank(pc: Pc): nat {
    match pc
    case Start => 13
    case Reserved => 12
    case Locked => 11
    case Registered => 10
    case Holding => 9
    case Searching => 8
    case SearchStopped => 7
    case Opening => 6
    case Calling => 6
    case Ending => 5
    case Dropping => 4
    case Failing => 3
    case Unlocking => 2
    case Done => 0
  }

  /** Every step of a call brings it nearer to its end, and no other call's step changes it; so it
      ends after finitely many steps of its own. */
  lemma CallsFinish(s: State, step: Step)
    requires Enabled(s, step)
    ensures var th, th' := s.threads[step.t], Apply(s, step).threads[step.t];
      if step.CancelParent? then th' == th
      else PcRank(th'.pc) < PcRank(th.pc) || (th'.pc == th.pc && th'.toCall < th.toCall)
    ensures forall u :: u in s.threads && u != step.t ==>
              u in Apply(s, step).threads && Apply(s, step).threads[u] == s.threads[u]
  {
    hide Collected, Slot, Superseded, Reserve, ForgetAll, DropSearch, BeginSwitch, StartSearch,
         EndSearch, CompleteSwitch, FailSwitch, Register, Unregister, Current;
  }
}
