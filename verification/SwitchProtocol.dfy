/**
 * The repository switch protocol: any number of concurrent calls, each critical section
 * and each call of a collected cancel function its own step, in every interleaving.
 */
module SwitchProtocol {
  import opened Common
  import opened SwitchState

  datatype Kind =
    | Read(key: string)      // a read, with its latest-wins key or ""
    | RunSearch              // SearchWithProgress
    | Mutate                 // RewriteCommits and RemoveMergedWorktrees, under rewriteMu
    | Open(target: Repo)     // a repository switch, under rewriteMu
    | CancelAll              // CancelOperations
    | StopSearch             // CancelSearch

  datatype Pc =
    | Start
    | Reserved               // Open: generation taken, waiting for rewriteMu
    | Locked                 // holds rewriteMu, nothing registered yet
    | Registered             // operation registered, repository not read yet
    | Holding                // has the handle it works on
    | Searching              // its search context is registered
    | SearchStopped          // search context cancelled, slot not yet cleared
    | Opening                // Open: switch begun, new repository being opened
    | Ending                 // about to cancel its own context
    | Dropping               // about to forget its operation
    | Failing                // Open: about to give the switch up
    | Unlocking              // about to release rewriteMu
    | Calling                // CancelAll: calling what it collected
    | Done

  datatype Thread = Thread(
    kind: Kind,
    pc: Pc,
    toCall: set<Token>,      // collected cancel functions it has not called yet
    opId: nat,
    handle: Option<Repo>,
    generation: nat,
    searchId: nat,
    completed: bool)

  datatype State = State(
    g: Guarded,
    mutex: Option<CallId>,
    cancelled: set<Token>,
    threads: map<CallId, Thread>,
    installs: seq<nat>)      // the generations installed so far, oldest first

  ghost predicate Init(s: State) {
    && s.g == INITIAL && s.mutex == None && s.cancelled == {} && s.installs == []
    && forall t :: t in s.threads ==>
         s.threads[t] == Thread(s.threads[t].kind, Start, {}, 0, None, 0, 0, false)
  }

  function Key(kind: Kind): string {
    if kind.Read? then kind.key else ""
  }

  // ------------------------------------------------------------------- the steps

  datatype Step =
    | Run(t: CallId)                    // the next step of a call
    | Abort(t: CallId)                  // the call gives up: opening failed, or bad search options
    | Call(t: CallId, token: Token)     // calls one collected cancel function
    | CancelParent(t: CallId)           // the caller cancels the call's parent context

  predicate CanRun(s: State, t: CallId) {
    && t in s.threads
    && var th := s.threads[t];
       match th.pc
       case Start => th.kind.Mutate? ==> s.mutex == None
       case Reserved => s.mutex == None
       case Registered | Opening | Calling => th.toCall == {}
       case Done => false
       case _ => true
  }

  predicate Enabled(s: State, step: Step) {
    match step
    case Run(t) => CanRun(s, t)
    case Abort(t) =>
      t in s.threads && ((s.threads[t].pc == Opening && s.threads[t].toCall == {})
                         || (s.threads[t].pc == Holding && s.threads[t].kind.RunSearch?))
    case Call(t, token) => t in s.threads && token in s.threads[t].toCall
    case CancelParent(t) => t in s.threads
  }

  function AfterDropping(th: Thread): Pc {
    if th.kind.Open? && !th.completed then Failing
    else if th.kind.Open? || th.kind.Mutate? then Unlocking
    else Done
  }

  function RunThread(s: State, t: CallId): State
    requires CanRun(s, t)
  {
    var th := s.threads[t];
    match th.pc
    case Start =>
      (match th.kind
       case Mutate => s.(mutex := Some(t), threads := s.threads[t := th.(pc := Locked)])
       case Open(_) =>
         s.(g := Reserve(s.g), threads := s.threads[t := th.(pc := Reserved, generation := s.g.generation + 1)])
       case CancelAll =>
         s.(g := ForgetAll(s.g), threads := s.threads[t := th.(pc := Calling, toCall := Collected(s.g))])
       case StopSearch =>
         s.(g := DropSearch(s.g), cancelled := s.cancelled + Slot(s.g.searchCancel),
            threads := s.threads[t := th.(pc := Done)])
       case _ => RegisterThread(s, t))
    case Reserved => s.(mutex := Some(t), threads := s.threads[t := th.(pc := Locked)])
    case Locked =>
      if th.kind.Open? then
        if th.generation != s.g.generation then
          s.(cancelled := s.cancelled + {Op(t)}, threads := s.threads[t := th.(pc := Unlocking)])
        else
          s.(g := BeginSwitch(s.g, Op(t)),
             threads := s.threads[t := th.(pc := Opening, toCall := Collected(s.g), opId := s.g.nextOperationId + 1)])
      else RegisterThread(s, t)
    case Registered =>
      s.(threads :=
           s.threads[t := if Current(s.g).Some? then th.(pc := Holding, handle := Current(s.g)) else th.(pc := Ending)])
    case Holding =>
      if th.kind.RunSearch? then
        s.(g := StartSearch(s.g, Search(t)), cancelled := s.cancelled + Slot(s.g.searchCancel),
           threads := s.threads[t := th.(pc := Searching, searchId := s.g.searchId + 1)])
      else s.(threads := s.threads[t := th.(pc := Ending)])
    case Searching => s.(cancelled := s.cancelled + {Search(t)}, threads := s.threads[t := th.(pc := SearchStopped)])
    case SearchStopped => s.(g := EndSearch(s.g, th.searchId), threads := s.threads[t := th.(pc := Ending)])
    case Opening =>
      var installed := th.kind.Open? && th.generation == s.g.generation;
      s.(g := if th.kind.Open? then CompleteSwitch(s.g, th.generation, th.kind.target) else s.g,
         installs := if installed then s.installs + [th.generation] else s.installs,
         threads := s.threads[t := th.(pc := Ending, completed := installed)])
    case Ending => s.(cancelled := s.cancelled + {Op(t)}, threads := s.threads[t := th.(pc := Dropping)])
    case Dropping =>
      s.(g := Unregister(s.g, th.opId, Key(th.kind)),
         threads := s.threads[t := th.(pc := AfterDropping(th))])
    case Failing => s.(g := FailSwitch(s.g, th.generation), threads := s.threads[t := th.(pc := Unlocking)])
    case Unlocking => s.(mutex := None, threads := s.threads[t := th.(pc := Done)])
    case Calling => s.(threads := s.threads[t := th.(pc := Done)])
  }

  function RegisterThread(s: State, t: CallId): State
    requires t in s.threads
  {
    var th := s.threads[t];
    s.(g := Register(s.g, Op(t), Key(th.kind)),
       threads := s.threads[t := th.(pc := Registered, toCall := Superseded(s.g, Key(th.kind)),
                                     opId := s.g.nextOperationId + 1)])
  }

  function Apply(s: State, step: Step): State
    requires Enabled(s, step)
  {
    match step
    case Run(t) => RunThread(s, t)
    case Abort(t) => s.(threads := s.threads[t := s.threads[t].(pc := Ending)])
    case Call(t, token) =>
      s.(cancelled := s.cancelled + {token},
         threads := s.threads[t := s.threads[t].(toCall := s.threads[t].toCall - {token})])
    case CancelParent(t) => s.(cancelled := s.cancelled + {Op(t)})
  }

  ghost predicate Next(s: State, s': State) {
    exists step :: Enabled(s, step) && s' == Apply(s, step)
  }

  ghost predicate IsRun(states: seq<State>) {
    && states != [] && Init(states[0])
    && forall i :: 0 <= i < |states| - 1 ==> Next(states[i], states[i + 1])
  }

  // --------------------------------------------------------------- the invariant

  predicate HasOperation(th: Thread) {
    th.pc in {Registered, Holding, Searching, SearchStopped, Opening, Ending, Dropping}
  }

  predicate HasGeneration(th: Thread) {
    th.kind.Open? && th.pc != Start
  }

  predicate IsSearching(th: Thread) {
    th.pc == Searching || th.pc == SearchStopped
  }

  predicate HasMutex(th: Thread) {
    || (th.kind.Open? && th.pc in {Locked, Opening, Ending, Dropping, Failing, Unlocking})
    || (th.kind.Mutate? && th.pc in {Locked, Registered, Holding, Ending, Dropping, Unlocking})
  }

  /** An Open that will still install its repository or give the switch up. */
  predicate Switching(th: Thread) {
    th.kind.Open? && !th.completed && th.pc in {Reserved, Locked, Opening, Ending, Dropping, Failing}
  }

  /** Cancelled, or about to be: on some call's list of collected cancel functions. */
  ghost predicate Due(s: State, token: Token) {
    token in s.cancelled || exists u :: u in s.threads && token in s.threads[u].toCall
  }

  ghost predicate Listed(s: State, t: CallId)
    requires t in s.threads
  {
    s.threads[t].opId in s.g.operations && s.g.operations[s.threads[t].opId] == Op(t)
  }

  // Which points each kind of call passes through.
  predicate ShapeAt(th: Thread) {
    && (th.toCall != {} ==> th.pc in {Registered, Opening, Calling})
    && (th.pc in {Reserved, Opening, Failing} ==> th.kind.Open?)
    && (th.pc == Locked || th.pc == Unlocking ==> th.kind.Open? || th.kind.Mutate?)
    && (th.pc in {Registered, Holding} ==> th.kind.Read? || th.kind.RunSearch? || th.kind.Mutate?)
    && (IsSearching(th) ==> th.kind.RunSearch?)
    && (th.pc in {Holding, Searching, SearchStopped} ==> th.handle.Some?)
    && (th.handle.Some? ==> !th.kind.Open? && th.pc !in {Start, Locked, Registered})
    && (th.completed ==> th.kind.Open? && th.pc in {Ending, Dropping, Unlocking, Done})
  }

  ghost predicate Shape(s: State) {
    forall t :: t in s.threads ==> ShapeAt(s.threads[t])
  }

  ghost predicate Operations(s: State) {
    && (forall id :: id in s.g.operations ==>
          && id <= s.g.nextOperationId
          && s.g.operations[id].Op? && s.g.operations[id].call in s.threads
          && HasOperation(s.threads[s.g.operations[id].call]) && s.threads[s.g.operations[id].call].opId == id)
    && (forall t :: t in s.threads && HasOperation(s.threads[t]) ==> s.threads[t].opId <= s.g.nextOperationId)
    && (forall t, u ::
          t in s.threads && u in s.threads && t != u && HasOperation(s.threads[t])
          && HasOperation(s.threads[u]) ==>
          s.threads[t].opId != s.threads[u].opId)
  }

  ghost predicate Accounted(s: State) {
    forall t :: t in s.threads && HasOperation(s.threads[t]) ==> Listed(s, t) || Due(s, Op(t))
  }

  ghost predicate Handles(s: State) {
    forall t :: t in s.threads && s.threads[t].handle.Some? && HasOperation(s.threads[t]) && Listed(s, t) ==>
      !s.g.switching && s.g.repository == s.threads[t].handle
  }

  ghost predicate Mutex(s: State) {
    && (forall t :: t in s.threads ==> (HasMutex(s.threads[t]) <==> s.mutex == Some(t)))
    && (forall t :: t in s.threads && s.threads[t].pc == Opening ==> s.g.switching)
    && (forall t ::
          t in s.threads && s.threads[t].kind.Mutate? && s.threads[t].handle.Some?
          && HasMutex(s.threads[t]) ==>
          !s.g.switching && s.g.repository == s.threads[t].handle)
  }

  ghost predicate Generations(s: State) {
    && (forall t :: t in s.threads && HasGeneration(s.threads[t]) ==> s.threads[t].generation <= s.g.generation)
    && (forall t, u ::
          t in s.threads && u in s.threads && t != u && HasGeneration(s.threads[t])
          && HasGeneration(s.threads[u]) ==>
          s.threads[t].generation != s.threads[u].generation)
    && (s.g.switching ==>
        exists u :: u in s.threads && Switching(s.threads[u]) && s.threads[u].generation == s.g.generation)
  }

  ghost predicate Installs(s: State) {
    && (forall i, j :: 0 <= i < j < |s.installs| ==> s.installs[i] < s.installs[j])
    && (forall i :: 0 <= i < |s.installs| ==>
        exists u :: u in s.threads && s.threads[u].completed && s.threads[u].generation == s.installs[i])
    && (if s.installs == [] then s.g.repository == None
        else exists u :: u in s.threads && s.threads[u].kind.Open? && s.threads[u].completed
               && s.threads[u].generation == s.installs[|s.installs| - 1]
               && s.g.repository == Some(s.threads[u].kind.target))
  }

  predicate KeyIsLatest(g: Guarded, th: Thread) {
    Key(th.kind) == "" || (Key(th.kind) in g.latest && g.latest[Key(th.kind)] == th.opId)
  }

  ghost predicate Keys(s: State) {
    forall t :: t in s.threads && HasOperation(s.threads[t]) && Listed(s, t) ==> KeyIsLatest(s.g, s.threads[t])
  }

  ghost predicate Searches(s: State) {
    && (s.g.searchCancel.Some? ==>
          var token := s.g.searchCancel.value;
          && token.Search? && token.call in s.threads && IsSearching(s.threads[token.call])
          && s.threads[token.call].searchId == s.g.searchId)
    && (forall t :: t in s.threads && IsSearching(s.threads[t]) ==> s.threads[t].searchId <= s.g.searchId)
    && (forall t, u ::
          t in s.threads && u in s.threads && t != u && IsSearching(s.threads[t])
          && IsSearching(s.threads[u]) ==>
          s.threads[t].searchId != s.threads[u].searchId)
    && (forall t :: t in s.threads && IsSearching(s.threads[t]) ==>
        s.g.searchCancel == Some(Search(t)) || Due(s, Search(t)))
  }

  ghost predicate Inv(s: State) {
    && Shape(s) && Operations(s) && Accounted(s) && Handles(s) && Mutex(s)
    && Generations(s) && Installs(s) && Keys(s) && Searches(s)
  }

  // ------------------------------------------------------------ it is inductive

  lemma InitInv(s: State)
    requires Init(s)
    ensures Inv(s)
  {
  }

  /** A step changes one call only. */
  ghost predicate Only(s: State, s': State, t: CallId) {
    && t in s.threads && s'.threads.Keys == s.threads.Keys
    && forall u :: u in s.threads && u != t ==> s'.threads[u] == s.threads[u]
  }

  ghost predicate DueGrows(s: State, s': State) {
    forall token :: Due(s, token) ==> Due(s', token)
  }

  lemma DueGrowsWhen(s: State, s': State, t: CallId)
    requires Only(s, s', t) && s.cancelled <= s'.cancelled
    requires forall token :: token in s.threads[t].toCall ==> token in s'.cancelled || token in s'.threads[t].toCall
    ensures DueGrows(s, s')
  {
    forall token | Due(s, token) ensures Due(s', token) {
      if token !in s.cancelled {
        var u :| u in s.threads && token in s.threads[u].toCall;
        assert u in s'.threads;
      }
    }
  }

  ghost predicate OperationStep(s: State, s': State, t: CallId)
    requires Only(s, s', t)
  {
    var th, th' := s.threads[t], s'.threads[t];
    && s.g.nextOperationId <= s'.g.nextOperationId
    && (forall id :: id in s'.g.operations ==>
          || (id in s.g.operations && s'.g.operations[id] == s.g.operations[id])
          || (id == s.g.nextOperationId + 1 && s'.g.operations[id] == Op(t) && HasOperation(th') && th'.opId == id))
    && (HasOperation(th') ==>
          || (HasOperation(th) && th'.opId == th.opId)
          || (!HasOperation(th) && th'.opId == s.g.nextOperationId + 1 == s'.g.nextOperationId && Listed(s', t)))
    && (HasOperation(th) && !HasOperation(th') ==> th.opId !in s'.g.operations)
    && (forall id :: id in s'.g.operations && id !in s.g.operations ==> id <= s'.g.nextOperationId)
  }

  /** An operation the step removes from the table is due, or has just finished. */
  ghost predicate AccountStep(s: State, s': State, t: CallId)
    requires Only(s, s', t)
  {
    forall id :: id in s.g.operations ==>
      || (id in s'.g.operations && s'.g.operations[id] == s.g.operations[id])
      || Due(s', s.g.operations[id])
      || (HasOperation(s.threads[t]) && !HasOperation(s'.threads[t]) && id == s.threads[t].opId)
  }

  ghost predicate HandleStep(s: State, s': State, t: CallId)
    requires Only(s, s', t)
  {
    var th, th' := s.threads[t], s'.threads[t];
    && ((!s.g.switching ==> !s'.g.switching && s'.g.repository == s.g.repository)
        || forall id :: id in s'.g.operations ==> s'.g.operations[id] == Op(t))
    && (th'.handle.Some? && HasOperation(th') ==>
          || (th'.handle == th.handle && HasOperation(th))
          || (!s'.g.switching && s'.g.repository == th'.handle))
    && (th'.handle.Some? && HasOperation(th') && !s.g.switching ==>
        !s'.g.switching && s'.g.repository == s.g.repository)
  }

  ghost predicate MutexStep(s: State, s': State, t: CallId)
    requires Only(s, s', t)
  {
    var th, th' := s.threads[t], s'.threads[t];
    && (HasMutex(th') <==> s'.mutex == Some(t))
    && (s'.mutex == s.mutex || (s.mutex == None && s'.mutex == Some(t)) || (s.mutex == Some(t) && s'.mutex == None))
    && ((s'.g.switching == s.g.switching && s'.g.repository == s.g.repository) || HasMutex(th))
    && (th'.pc == Opening ==> s'.g.switching)
    && (th'.kind.Mutate? && th'.handle.Some? && HasMutex(th') ==> !s'.g.switching && s'.g.repository == th'.handle)
  }

  ghost predicate GenerationStep(s: State, s': State, t: CallId)
    requires Only(s, s', t)
  {
    var th, th' := s.threads[t], s'.threads[t];
    && th'.kind == th.kind
    && s.g.generation <= s'.g.generation
    && (HasGeneration(th') ==>
          || (HasGeneration(th) && th'.generation == th.generation)
          || th'.generation == s.g.generation + 1 == s'.g.generation)
    && (s'.g.switching ==>
          || (s.g.switching && s'.g.generation == s.g.generation
              && (Switching(th) && th.generation == s.g.generation ==>
                  Switching(th') && th'.generation == s.g.generation))
          || (Switching(th') && th'.generation == s'.g.generation))
  }

  ghost predicate KeyStep(s: State, s': State, t: CallId)
    requires Only(s, s', t)
  {
    && (forall u ::
          u in s.threads && u != t && HasOperation(s.threads[u]) && Listed(s', u)
          && KeyIsLatest(s.g, s.threads[u]) ==>
          KeyIsLatest(s'.g, s.threads[u]))
    && (HasOperation(s'.threads[t]) && Listed(s', t) ==> KeyIsLatest(s'.g, s'.threads[t]))
  }

  lemma OperationsKeep(s: State, s': State, t: CallId)
    requires Operations(s) && Only(s, s', t) && OperationStep(s, s', t)
    ensures Operations(s')
  {
  }

  lemma AccountedKeep(s: State, s': State, t: CallId)
    requires Operations(s) && Accounted(s) && Only(s, s', t) && OperationStep(s, s', t) && DueGrows(s, s')
    requires AccountStep(s, s', t)
    ensures Accounted(s')
  {
    forall u | u in s'.threads && HasOperation(s'.threads[u]) ensures Listed(s', u) || Due(s', Op(u)) {
      if u != t || HasOperation(s.threads[t]) {
        assert Listed(s, u) || Due(s, Op(u));
      }
    }
  }

  lemma HandlesKeep(s: State, s': State, t: CallId)
    requires Operations(s) && Handles(s) && Only(s, s', t) && OperationStep(s, s', t) && HandleStep(s, s', t)
    ensures Handles(s')
  {
    forall u | u in s'.threads && s'.threads[u].handle.Some? && HasOperation(s'.threads[u]) && Listed(s', u)
      ensures !s'.g.switching && s'.g.repository == s'.threads[u].handle
    {
      if u != t {
        assert Listed(s, u);
      }
    }
  }

  lemma MutexKeep(s: State, s': State, t: CallId)
    requires Shape(s) && Mutex(s) && Only(s, s', t) && MutexStep(s, s', t)
    ensures Mutex(s')
  {
    forall u | u in s'.threads && u != t ensures HasMutex(s'.threads[u]) <==> s'.mutex == Some(u) {
      assert HasMutex(s.threads[u]) <==> s.mutex == Some(u);
    }
    forall u | u in s'.threads && s'.threads[u].pc == Opening ensures s'.g.switching {
      if u != t {
        assert HasMutex(s.threads[u]);
      }
    }
  }

  lemma GenerationsKeep(s: State, s': State, t: CallId)
    requires Generations(s) && Only(s, s', t) && GenerationStep(s, s', t)
    ensures Generations(s')
  {
    if s'.g.switching {
      if !(Switching(s'.threads[t]) && s'.threads[t].generation == s'.g.generation) {
        var u :| u in s.threads && Switching(s.threads[u]) && s.threads[u].generation == s.g.generation;
        assert u in s'.threads && s'.threads[u] == s.threads[u];
      }
    }
  }

  lemma InstallsKeep(s: State, s': State, t: CallId)
    requires Installs(s) && Only(s, s', t)
    requires s'.installs == s.installs && s'.g.repository == s.g.repository
    requires s.threads[t].completed ==> s'.threads[t].completed && s'.threads[t].generation == s.threads[t].generation
    requires s'.threads[t].kind == s.threads[t].kind
    ensures Installs(s')
  {
    forall i | 0 <= i < |s'.installs|
      ensures exists u :: u in s'.threads && s'.threads[u].completed && s'.threads[u].generation == s'.installs[i]
    {
      var u :| u in s.threads && s.threads[u].completed && s.threads[u].generation == s.installs[i];
      assert u in s'.threads && s'.threads[u].completed;
    }
    if s'.installs != [] {
      var u :| u in s.threads && s.threads[u].kind.Open? && s.threads[u].completed
        && s.threads[u].generation == s.installs[|s.installs| - 1] && s.g.repository == Some(s.threads[u].kind.target);
      assert u in s'.threads && s'.threads[u].completed;
    }
  }

  lemma KeysKeep(s: State, s': State, t: CallId)
    requires Keys(s) && Only(s, s', t) && OperationStep(s, s', t) && KeyStep(s, s', t)
    ensures Keys(s')
  {
    forall u | u in s'.threads && u != t && HasOperation(s'.threads[u]) && Listed(s', u)
      ensures KeyIsLatest(s'.g, s'.threads[u])
    {
      assert Listed(s, u);
    }
  }

  ghost predicate SearchStep(s: State, s': State, t: CallId)
    requires Only(s, s', t)
  {
    var th, th' := s.threads[t], s'.threads[t];
    && s.g.searchId <= s'.g.searchId
    && (s'.g.searchCancel.Some? ==>
          || (s'.g.searchCancel == s.g.searchCancel && s'.g.searchId == s.g.searchId
              && (s.g.searchCancel == Some(Search(t)) ==> IsSearching(th')))
          || (s'.g.searchCancel == Some(Search(t)) && IsSearching(th') && th'.searchId == s'.g.searchId))
    && (IsSearching(th') ==>
          || (IsSearching(th) && th'.searchId == th.searchId)
          || (th'.searchId == s.g.searchId + 1 == s'.g.searchId && s'.g.searchCancel == Some(Search(t))))
    && (s.g.searchCancel.Some? && s'.g.searchCancel != s.g.searchCancel ==>
          || Due(s', s.g.searchCancel.value)
          || (s.g.searchCancel == Some(Search(t)) && !IsSearching(th')))
  }

  lemma SearchesKeep(s: State, s': State, t: CallId)
    requires Searches(s) && Only(s, s', t) && SearchStep(s, s', t) && DueGrows(s, s')
    ensures Searches(s')
  {
    forall u | u in s'.threads && IsSearching(s'.threads[u])
      ensures s'.g.searchCancel == Some(Search(u)) || Due(s', Search(u))
    {
      if u != t || IsSearching(s.threads[t]) {
        assert s.g.searchCancel == Some(Search(u)) || Due(s, Search(u));
      }
    }
  }

  lemma ShapeKeep(s: State, s': State, t: CallId)
    requires Shape(s) && Only(s, s', t)
    requires ShapeAt(s'.threads[t])
    ensures Shape(s')
  {
  }

  /** A step that respects every clause of the invariant but the history of installations. */
  ghost predicate GoodStep(s: State, s': State, t: CallId) {
    && Only(s, s', t) && DueGrows(s, s')
    && ShapeAt(s'.threads[t]) && OperationStep(s, s', t) && AccountStep(s, s', t) && HandleStep(s, s', t)
    && MutexStep(s, s', t) && GenerationStep(s, s', t) && KeyStep(s, s', t) && SearchStep(s, s', t)
  }

  lemma GoodStepKeeps(s: State, s': State, t: CallId)
    requires Inv(s) && GoodStep(s, s', t) && Installs(s')
    ensures Inv(s')
  {
    assert Shape(s') by { ShapeKeep(s, s', t); }
    assert Operations(s') by { OperationsKeep(s, s', t); }
    assert Accounted(s') by { AccountedKeep(s, s', t); }
    assert Handles(s') by { HandlesKeep(s, s', t); }
    assert Mutex(s') by { MutexKeep(s, s', t); }
    assert Generations(s') by { GenerationsKeep(s, s', t); }
    assert Keys(s') by { KeysKeep(s, s', t); }
    assert Searches(s') by { SearchesKeep(s, s', t); }
  }

  /** What the invariant says of one call. */
  ghost predicate Facts(s: State, t: CallId) {
    && t in s.threads
    && var th := s.threads[t];
    && ShapeAt(th)
    && (HasMutex(th) <==> s.mutex == Some(t))
    && (HasOperation(th) ==> th.opId <= s.g.nextOperationId)
    && (forall id :: id in s.g.operations ==> id <= s.g.nextOperationId)
    && (HasGeneration(th) ==> th.generation <= s.g.generation)
    && (th.pc == Opening ==> s.g.switching)
    && (th.kind.Mutate? && th.handle.Some? && HasMutex(th) ==> !s.g.switching && s.g.repository == th.handle)
    && (HasOperation(th) && Listed(s, t) ==> KeyIsLatest(s.g, th))
    && (IsSearching(th) && s.g.searchId == th.searchId && s.g.searchCancel.Some? ==>
        s.g.searchCancel == Some(Search(t)))
    && (s.g.searchCancel == Some(Search(t)) ==> IsSearching(th) && th.searchId == s.g.searchId)
  }

  lemma FactsOf(s: State, t: CallId)
    requires Inv(s) && t in s.threads
    ensures Facts(s, t)
  {
  }

  // ---------------------------------------------------- one lemma a kind of step

  /** Steps that leave the guarded fields alone. */
  ghost predicate Quiet(s: State, s': State, t: CallId) {
    && Only(s, s', t) && s'.g == s.g && s'.installs == s.installs
    && var th, th' := s.threads[t], s'.threads[t];
    && th' == th.(pc := th'.pc, toCall := th'.toCall, handle := th'.handle)
    && ShapeAt(th')
    && HasOperation(th') == HasOperation(th) && IsSearching(th') == IsSearching(th)
    && HasGeneration(th') == HasGeneration(th)
    && (th'.handle == th.handle || (HasOperation(th) && th'.handle == Current(s.g)))
    && (s.g.switching && Switching(th) && th.generation == s.g.generation ==> Switching(th'))
    && (th'.pc == Opening ==> th.pc == Opening)
    && (th'.kind.Mutate? && HasMutex(th') && !HasMutex(th) ==> th'.handle == None)
    && (HasMutex(th') <==> s'.mutex == Some(t))
    && (s'.mutex == s.mutex || (s.mutex == None && s'.mutex == Some(t)) || (s.mutex == Some(t) && s'.mutex == None))
  }

  lemma QuietIsGood(s: State, s': State, t: CallId)
    requires Facts(s, t) && Quiet(s, s', t) && DueGrows(s, s')
    ensures GoodStep(s, s', t)
  {
  }

  lemma QuietKeep(s: State, s': State, t: CallId)
    requires Inv(s) && Quiet(s, s', t) && DueGrows(s, s')
    ensures Inv(s')
  {
    FactsOf(s, t);
    QuietIsGood(s, s', t);
    InstallsKeep(s, s', t);
    GoodStepKeeps(s, s', t);
  }

  ghost predicate CanRegister(s: State, t: CallId) {
    && t in s.threads
    && var th := s.threads[t];
       && th.handle == None && th.toCall == {}
       && ((th.pc == Start && (th.kind.Read? || th.kind.RunSearch?)) || (th.pc == Locked && th.kind.Mutate?))
  }

  lemma RegisterIsGood(s: State, s': State, t: CallId)
    requires Facts(s, t) && CanRegister(s, t) && s' == RegisterThread(s, t)
    ensures GoodStep(s, s', t)
  {
    DueGrowsWhen(s, s', t);
    RegisterAccounts(s, s', t);
    RegisterKeys(s, s', t);
  }

  lemma RegisterAccounts(s: State, s': State, t: CallId)
    requires Facts(s, t) && s' == RegisterThread(s, t) && Only(s, s', t) && !HasOperation(s.threads[t])
    ensures AccountStep(s, s', t) && OperationStep(s, s', t)
  {
    forall id | id in s.g.operations && id !in s'.g.operations ensures Due(s', s.g.operations[id]) {
      assert s.g.operations[id] in s'.threads[t].toCall;
    }
  }

  lemma RegisterKeys(s: State, s': State, t: CallId)
    requires t in s.threads && s' == RegisterThread(s, t) && Only(s, s', t)
    ensures KeyStep(s, s', t)
  {
  }

  /** Whatever the critical section collected is on the call's list. */
  lemma CollectedAreDue(s: State, s': State, t: CallId)
    requires t in s'.threads && s'.threads[t].toCall == Collected(s.g)
    ensures forall id :: id in s.g.operations ==> Due(s', s.g.operations[id])
    ensures s.g.searchCancel.Some? ==> Due(s', s.g.searchCancel.value)
  {
    forall id | id in s.g.operations ensures Due(s', s.g.operations[id]) {
      assert s.g.operations[id] in s'.threads[t].toCall;
    }
    if s.g.searchCancel.Some? {
      assert s.g.searchCancel.value in s'.threads[t].toCall;
    }
  }

  lemma ReserveIsGood(s: State, s': State, t: CallId)
    requires Facts(s, t)
    requires s.threads[t].pc == Start && s.threads[t].kind.Open?
    requires s' == s.(g := Reserve(s.g),
                      threads := s.threads[t := s.threads[t].(pc := Reserved, generation := s.g.generation + 1)])
    ensures GoodStep(s, s', t)
  {
    DueGrowsWhen(s, s', t);
  }

  lemma ForgetAllIsGood(s: State, s': State, t: CallId)
    requires Facts(s, t)
    requires s.threads[t].pc == Start && s.threads[t].kind.CancelAll?
    requires s' == s.(g := ForgetAll(s.g),
                      threads := s.threads[t := s.threads[t].(pc := Calling, toCall := Collected(s.g))])
    ensures GoodStep(s, s', t)
  {
    DueGrowsWhen(s, s', t);
    CollectedAreDue(s, s', t);
  }

  lemma DropSearchIsGood(s: State, s': State, t: CallId)
    requires Facts(s, t)
    requires s.threads[t].pc == Start && s.threads[t].kind.StopSearch?
    requires s' == s.(g := DropSearch(s.g), cancelled := s.cancelled + Slot(s.g.searchCancel),
                      threads := s.threads[t := s.threads[t].(pc := Done)])
    ensures GoodStep(s, s', t)
  {
    DueGrowsWhen(s, s', t);
  }

  lemma BeginSwitchIsGood(s: State, s': State, t: CallId)
    requires Facts(s, t)
    requires s.threads[t].pc == Locked && s.threads[t].kind.Open? && s.threads[t].generation == s.g.generation
    requires s' == s.(g := BeginSwitch(s.g, Op(t)),
                      threads := s.threads[t := s.threads[t].(pc := Opening, toCall := Collected(s.g),
                                                              opId := s.g.nextOperationId + 1)])
    ensures GoodStep(s, s', t)
  {
    DueGrowsWhen(s, s', t);
    CollectedAreDue(s, s', t);
  }

  lemma StartSearchIsGood(s: State, s': State, t: CallId)
    requires Facts(s, t)
    requires s.threads[t].pc == Holding && s.threads[t].kind.RunSearch?
    requires s' == s.(g := StartSearch(s.g, Search(t)), cancelled := s.cancelled + Slot(s.g.searchCancel),
                      threads := s.threads[t := s.threads[t].(pc := Searching, searchId := s.g.searchId + 1)])
    ensures GoodStep(s, s', t)
  {
    DueGrowsWhen(s, s', t);
  }

  lemma EndSearchIsGood(s: State, s': State, t: CallId)
    requires Facts(s, t)
    requires s.threads[t].pc == SearchStopped
    requires s' == s.(g := EndSearch(s.g, s.threads[t].searchId),
                      threads := s.threads[t := s.threads[t].(pc := Ending)])
    ensures GoodStep(s, s', t)
  {
    DueGrowsWhen(s, s', t);
  }

  lemma UnregisterIsGood(s: State, s': State, t: CallId)
    requires Facts(s, t)
    requires s.threads[t].pc == Dropping
    requires s' == s.(g := Unregister(s.g, s.threads[t].opId, Key(s.threads[t].kind)),
                      threads := s.threads[t := s.threads[t].(pc := AfterDropping(s.threads[t]))])
    ensures GoodStep(s, s', t)
  {
    hide DueGrows, Collected, Slot;
    DueGrowsWhen(s, s', t);
  }

  lemma FailIsGood(s: State, s': State, t: CallId)
    requires Facts(s, t)
    requires s.threads[t].pc == Failing
    requires s' == s.(g := FailSwitch(s.g, s.threads[t].generation),
                      threads := s.threads[t := s.threads[t].(pc := Unlocking)])
    ensures GoodStep(s, s', t)
  {
    DueGrowsWhen(s, s', t);
  }

  lemma CompleteIsGood(s: State, s': State, t: CallId)
    requires Facts(s, t)
    requires s.threads[t].pc == Opening && s.threads[t].toCall == {}
    requires s' == s.(g := CompleteSwitch(s.g, s.threads[t].generation, s.threads[t].kind.target),
                      installs := s'.installs,
                      threads := s.threads[t := s.threads[t].(pc := Ending,
                                                              completed := s.threads[t].generation == s.g.generation)])
    ensures GoodStep(s, s', t)
  {
    DueGrowsWhen(s, s', t);
  }

  /** A completed switch is the newest reserved one, and joins the history last. */
  lemma CompleteInstalls(s: State, s': State, t: CallId)
    requires Installs(s) && Generations(s) && Shape(s) && Only(s, s', t)
    requires s.threads[t].kind.Open? && s.threads[t].generation == s.g.generation && HasGeneration(s.threads[t])
             && !s.threads[t].completed
    requires s'.installs == s.installs + [s.g.generation] && s'.g.repository == Some(s.threads[t].kind.target)
    requires s'.threads[t] == s.threads[t].(pc := Ending, completed := true)
    ensures Installs(s')
  {
    hide Shape, Generations, HasGeneration;
    forall i | 0 <= i < |s.installs|
      ensures s.installs[i] < s.g.generation
      ensures exists u :: u in s'.threads && s'.threads[u].completed && s'.threads[u].generation == s.installs[i]
    {
      var u := OlderInstall(s, t, i);
      assert u in s'.threads && s'.threads[u].completed;
    }
    assert t in s'.threads && s'.threads[t].completed && s'.threads[t].generation == s'.installs[|s.installs|];
  }

  lemma OlderInstall(s: State, t: CallId, i: nat) returns (u: CallId)
    requires Installs(s) && Generations(s) && Shape(s) && t in s.threads && i < |s.installs|
    requires HasGeneration(s.threads[t]) && s.threads[t].generation == s.g.generation && !s.threads[t].completed
    ensures u in s.threads && u != t && s.threads[u].completed
            && s.threads[u].generation == s.installs[i] < s.g.generation
  {
    u :| u in s.threads && s.threads[u].completed && s.threads[u].generation == s.installs[i];
    assert ShapeAt(s.threads[u]) && HasGeneration(s.threads[u]);
  }

  lemma OpeningKeeps(s: State, s': State, t: CallId)
    requires Inv(s) && Facts(s, t) && CanRun(s, t) && s.threads[t].pc == Opening && s' == RunThread(s, t)
    ensures Inv(s')
  {
    CompleteIsGood(s, s', t);
    assert Installs(s') by {
      if s.threads[t].generation == s.g.generation {
        CompleteInstalls(s, s', t);
      } else {
        InstallsKeep(s, s', t);
      }
    }
    GoodStepKeeps(s, s', t);
  }

  ghost predicate LosesNoCancel(s: State, s': State, t: CallId)
    requires Only(s, s', t)
  {
    s.cancelled <= s'.cancelled
    && forall token :: token in s.threads[t].toCall ==> token in s'.cancelled || token in s'.threads[t].toCall
  }

  /** The points at which a call's next step leaves the guarded fields alone. */
  predicate IsQuiet(s: State, th: Thread) {
    || th.pc in {Reserved, Registered, Searching, Ending, Unlocking, Calling}
    || (th.pc == Start && th.kind.Mutate?)
    || (th.pc == Locked && th.kind.Open? && th.generation != s.g.generation)
    || (th.pc == Holding && !th.kind.RunSearch?)
  }

  lemma QuietRuns(s: State, s': State, t: CallId)
    requires Facts(s, t) && CanRun(s, t) && IsQuiet(s, s.threads[t]) && s' == RunThread(s, t)
    ensures Quiet(s, s', t) && LosesNoCancel(s, s', t)
  {
    hide Collected, Slot, Superseded, AfterDropping, Reserve, ForgetAll, DropSearch, BeginSwitch, StartSearch,
         EndSearch, CompleteSwitch, FailSwitch, Register, Unregister, Current, RegisterThread;
  }

  lemma StartIsGood(s: State, s': State, t: CallId)
    requires Facts(s, t) && CanRun(s, t) && s.threads[t].pc == Start && !s.threads[t].kind.Mutate?
             && s' == RunThread(s, t)
    ensures GoodStep(s, s', t) && SameHistory(s, s', t)
  {
    match s.threads[t].kind {
      case Open(_) => ReserveIsGood(s, s', t);
      case CancelAll => ForgetAllIsGood(s, s', t);
      case StopSearch => DropSearchIsGood(s, s', t);
      case _ => RegisterIsGood(s, s', t);
    }
  }

  lemma LockedIsGood(s: State, s': State, t: CallId)
    requires Facts(s, t) && CanRun(s, t) && s.threads[t].pc == Locked && s' == RunThread(s, t)
    requires s.threads[t].kind.Open? ==> s.threads[t].generation == s.g.generation
    ensures GoodStep(s, s', t) && SameHistory(s, s', t)
  {
    if s.threads[t].kind.Open? {
      BeginSwitchIsGood(s, s', t);
    } else {
      RegisterIsGood(s, s', t);
    }
  }

  lemma LaterIsGood(s: State, s': State, t: CallId)
    requires Facts(s, t) && CanRun(s, t) && s' == RunThread(s, t)
    requires s.threads[t].pc in {SearchStopped, Dropping, Failing}
             || (s.threads[t].pc == Holding && s.threads[t].kind.RunSearch?)
    ensures GoodStep(s, s', t) && SameHistory(s, s', t)
  {
    match s.threads[t].pc {
      case Holding => StartSearchIsGood(s, s', t);
      case SearchStopped => EndSearchIsGood(s, s', t);
      case Dropping => UnregisterIsGood(s, s', t);
      case Failing => FailIsGood(s, s', t);
    }
  }

  lemma RunKeeps(s: State, s': State, t: CallId)
    requires Inv(s) && Facts(s, t) && CanRun(s, t) && s' == RunThread(s, t)
    ensures Inv(s')
  {
    var pc := s.threads[t].pc;
    if IsQuiet(s, s.threads[t]) {
      QuietRuns(s, s', t);
      QuietStep(s, s', t);
    } else if pc == Opening {
      OpeningKeeps(s, s', t);
    } else {
      if pc == Start {
        StartIsGood(s, s', t);
      } else if pc == Locked {
        LockedIsGood(s, s', t);
      } else {
        LaterIsGood(s, s', t);
      }
      SameInstalls(s, s', t);
    }
  }

  ghost predicate SameHistory(s: State, s': State, t: CallId)
    requires Only(s, s', t)
  {
    && s'.installs == s.installs && s'.g.repository == s.g.repository
    && (s.threads[t].completed ==> s'.threads[t].completed && s'.threads[t].generation == s.threads[t].generation)
  }

  lemma SameInstalls(s: State, s': State, t: CallId)
    requires Inv(s) && GoodStep(s, s', t) && SameHistory(s, s', t)
    ensures Inv(s')
  {
    InstallsKeep(s, s', t);
    GoodStepKeeps(s, s', t);
  }

  lemma QuietStep(s: State, s': State, t: CallId)
    requires Inv(s) && Quiet(s, s', t) && LosesNoCancel(s, s', t)
    ensures Inv(s')
  {
    DueGrowsWhen(s, s', t);
    QuietKeep(s, s', t);
  }

  lemma OtherStepsAreQuiet(s: State, s': State, step: Step)
    requires Enabled(s, step) && Facts(s, step.t) && !step.Run? && s' == Apply(s, step)
    ensures Quiet(s, s', step.t) && LosesNoCancel(s, s', step.t)
  {
  }

  lemma StepKeeps(s: State, s': State, step: Step)
    requires Inv(s) && Enabled(s, step) && s' == Apply(s, step)
    ensures Inv(s')
  {
    FactsOf(s, step.t);
    if step.Run? {
      RunKeeps(s, s', step.t);
    } else {
      OtherStepsAreQuiet(s, s', step);
      QuietStep(s, s', step.t);
    }
  }

  lemma {:induction false} RunsKeep(states: seq<State>, i: nat)
    requires IsRun(states) && i < |states|
    ensures Inv(states[i])
  {
    if i == 0 {
      InitInv(states[0]);
    } else {
      RunsKeep(states, i - 1);
      assert Next(states[i - 1], states[i]);
      var step :| Enabled(states[i - 1], step) && states[i] == Apply(states[i - 1], step);
      StepKeeps(states[i - 1], states[i], step);
    }
  }

  // ------------------------------------------------------------- what follows

  /** An operation at work on a repository other than the installed one is cancelled, or its
      cancel function is on some call's collected list. */
  lemma StaleHandlesAreDue(states: seq<State>, i: nat, t: CallId)
    requires IsRun(states) && i < |states| && t in states[i].threads
    requires var th := states[i].threads[t];
      HasOperation(th) && th.handle.Some? && (th.handle != states[i].g.repository || states[i].g.switching)
    ensures Due(states[i], Op(t))
  {
    RunsKeep(states, i);
  }

  /** A rewrite or worktree removal always works on the installed repository. */
  lemma MutationsUseTheInstalledRepository(states: seq<State>, i: nat, t: CallId)
    requires IsRun(states) && i < |states| && t in states[i].threads
    requires states[i].threads[t].kind.Mutate? && states[i].threads[t].pc == Holding
    ensures states[i].threads[t].handle.Some?
    ensures states[i].g.repository == states[i].threads[t].handle && !states[i].g.switching
  {
    RunsKeep(states, i);
  }

  /** When no Open is between reserving its generation and finishing, no switch is pending. */
  lemma QuiescentMeansNotSwitching(states: seq<State>, i: nat)
    requires IsRun(states) && i < |states|
    requires forall t :: t in states[i].threads && states[i].threads[t].kind.Open? ==>
             states[i].threads[t].pc in {Start, Unlocking, Done}
    ensures !states[i].g.switching
  {
    RunsKeep(states, i);
  }

  /** A step that changes the installed repository is taken by the newest reserved switch, and
      installs what that switch opened. */
  lemma OnlyTheNewestInstalls(states: seq<State>, i: nat, step: Step)
    requires IsRun(states) && i < |states| && Enabled(states[i], step)
    requires Apply(states[i], step).g.repository != states[i].g.repository
    ensures step.Run? && var th := states[i].threads[step.t];
      th.kind.Open? && th.generation == states[i].g.generation
        && Apply(states[i], step).g.repository == Some(th.kind.target)
  {
    RunsKeep(states, i);
    FactsOf(states[i], step.t);
    InstallingStep(states[i], step);
  }

  lemma InstallingStep(s: State, step: Step)
    requires Enabled(s, step) && Facts(s, step.t) && Apply(s, step).g.repository != s.g.repository
    ensures step.Run? && var th := s.threads[step.t];
      && th.kind.Open? && th.generation == s.g.generation && Apply(s, step).g.repository == Some(th.kind.target)
      && HasGeneration(th) && !th.completed && Apply(s, step).installs == s.installs + [s.g.generation]
  {
    hide Facts, CanRun, RunThread;
    OnlyOpeningInstalls(s, step);
    OpeningInstalls(s, step.t);
  }

  lemma OnlyOpeningInstalls(s: State, step: Step)
    requires Enabled(s, step) && Apply(s, step).g.repository != s.g.repository
    ensures step.Run? && s.threads[step.t].pc == Opening
  {
    hide Collected, Superseded, Slot, AfterDropping;
  }

  lemma OpeningInstalls(s: State, t: CallId)
    requires CanRun(s, t) && Facts(s, t) && s.threads[t].pc == Opening
    requires RunThread(s, t).g.repository != s.g.repository
    ensures var th := s.threads[t];
      && th.kind.Open? && th.generation == s.g.generation
      && RunThread(s, t).g.repository == Some(th.kind.target)
      && HasGeneration(th) && !th.completed && RunThread(s, t).installs == s.installs + [s.g.generation]
  {
  }

  /** Installed generations only grow, and the installed repository is that of the last one. */
  lemma InstallsAreNewerAndNewer(states: seq<State>, i: nat)
    requires IsRun(states) && i < |states|
    ensures Installs(states[i])
  {
    RunsKeep(states, i);
  }

  lemma InstallStepIsLogged(s: State, s': State) returns (t: CallId)
    requires Inv(s) && Next(s, s') && s'.g.repository != s.g.repository
    ensures t in s.threads && HasGeneration(s.threads[t]) && !s.threads[t].completed
    ensures s.threads[t].generation == s.g.generation && s'.installs == s.installs + [s.g.generation]
  {
    hide Inv, Apply, Enabled, Facts;
    var step :| Enabled(s, step) && s' == Apply(s, step);
    t := step.t;
    StepsAreOfCalls(s, step);
    FactsOf(s, t);
    InstallingStep(s, step);
  }

  lemma StepsAreOfCalls(s: State, step: Step)
    requires Enabled(s, step)
    ensures step.t in s.threads
  {
  }

  lemma StepKeepsLog(s: State, s': State)
    requires Next(s, s')
    ensures s.installs <= s'.installs
  {
  }

  lemma {:induction false} LogGrows(states: seq<State>, i: nat, j: nat)
    requires IsRun(states) && i <= j < |states|
    ensures states[i].installs <= states[j].installs
  {
    if i < j {
      LogGrows(states, i, j - 1);
      StepKeepsLog(states[j - 1], states[j]);
    }
  }

  /** Of two changes of the installed repository the later is made by a newer reserved switch. */
  lemma LaterInstallsAreNewer(states: seq<State>, i: nat, j: nat)
    requires IsRun(states) && i < j && j + 1 < |states|
    requires states[i + 1].g.repository != states[i].g.repository
    requires states[j + 1].g.repository != states[j].g.repository
    ensures states[i].g.generation < states[j].g.generation
  {
    hide Apply, Enabled, Init, Shape, Generations, Installs;
    RunsKeep(states, i);
    RunsKeep(states, j);
    assert Next(states[i], states[i + 1]) && Next(states[j], states[j + 1]);
    var t := InstallStepIsLogged(states[i], states[i + 1]);
    var u := InstallStepIsLogged(states[j], states[j + 1]);
    LogGrows(states, i + 1, j);
    var v := OlderInstall(states[j], u, |states[i].installs|);
  }

  /** Of two reads with the same key, at most one is neither cancelled nor about to be. */
  lemma LatestReadWins(states: seq<State>, i: nat, t: CallId, u: CallId)
    requires IsRun(states) && i < |states| && t in states[i].threads && u in states[i].threads && t != u
    requires HasOperation(states[i].threads[t]) && HasOperation(states[i].threads[u])
    requires Key(states[i].threads[t].kind) == Key(states[i].threads[u].kind) != ""
    ensures Due(states[i], Op(t)) || Due(states[i], Op(u))
  {
    RunsKeep(states, i);
  }

  /** Of two running searches, at most one is neither cancelled nor about to be. */
  lemma LatestSearchWins(states: seq<State>, i: nat, t: CallId, u: CallId)
    requires IsRun(states) && i < |states| && t in states[i].threads && u in states[i].threads && t != u
    requires IsSearching(states[i].threads[t]) && IsSearching(states[i].threads[u])
    ensures Due(states[i], Search(t)) || Due(states[i], Search(u))
  {
    RunsKeep(states, i);
  }
}
