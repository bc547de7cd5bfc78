/**
 * The fields of the desktop service that its lock guards, and its critical sections
 * (internal/desktop/operations.go and service.go).
 *
 * Each critical section is a function on the guarded fields; class Service holds the
 * same code as methods on mutable fields, proved equal to those functions.
 */
module SwitchState {
  import opened Common

  // A call is one invocation of an exported method of the service.
  type CallId = nat
  type Repo = nat

  // What a cancel function cancels: a call's own context, or its search context.
  datatype Token = Op(call: CallId) | Search(call: CallId)

  datatype Guarded = Guarded(
    repository: Option<Repo>,
    switching: bool,
    generation: nat,
    operations: map<nat, Token>,
    latest: map<string, nat>,
    nextOperationId: nat,
    searchCancel: Option<Token>,
    searchId: nat)

  const INITIAL := Guarded(None, false, 0, map[], map[], 0, None, 0)

  function Slot(token: Option<Token>): set<Token> {
    match token
    case None => {}
    case Some(t) => {t}
  }

  // beginOperationWithKey
  function Superseded(g: Guarded, key: string): set<Token> {
    if key != "" && key in g.latest && g.latest[key] in g.operations then {g.operations[g.latest[key]]} else {}
  }

  function Register(g: Guarded, token: Token, key: string): Guarded {
    var kept := if key != "" && key in g.latest then g.operations - {g.latest[key]} else g.operations;
    var id := g.nextOperationId + 1;
    g.(operations := kept[id := token],
       latest := if key != "" then g.latest[key := id] else g.latest,
       nextOperationId := id)
  }

  // the deferred half of beginOperationWithKey
  function Unregister(g: Guarded, id: nat, key: string): Guarded {
    g.(operations := g.operations - {id},
       latest := if key != "" && key in g.latest && g.latest[key] == id then g.latest - {key} else g.latest)
  }

  function Reserve(g: Guarded): Guarded {
    g.(generation := g.generation + 1)
  }

  function Collected(g: Guarded): set<Token> {
    g.operations.Values + Slot(g.searchCancel)
  }

  // beginReservedRepositorySwitch, once the generation has been found current
  function BeginSwitch(g: Guarded, token: Token): Guarded {
    var id := g.nextOperationId + 1;
    g.(operations := map[id := token], latest := map[], searchCancel := None, searchId := g.searchId + 1,
       switching := true, nextOperationId := id)
  }

  function CompleteSwitch(g: Guarded, generation: nat, repository: Repo): Guarded {
    if generation != g.generation then g else g.(repository := Some(repository), switching := false)
  }

  function FailSwitch(g: Guarded, generation: nat): Guarded {
    if generation == g.generation then g.(switching := false) else g
  }

  // CancelOperations
  function ForgetAll(g: Guarded): Guarded {
    g.(operations := map[], latest := map[], searchCancel := None, searchId := g.searchId + 1)
  }

  function StartSearch(g: Guarded, token: Token): Guarded {
    g.(searchCancel := Some(token), searchId := g.searchId + 1)
  }

  function EndSearch(g: Guarded, id: nat): Guarded {
    if g.searchId == id then g.(searchCancel := None) else g
  }

  function DropSearch(g: Guarded): Guarded {
    g.(searchCancel := None, searchId := g.searchId + 1)
  }

  // currentRepository
  function Current(g: Guarded): Option<Repo> {
    if g.switching then None else g.repository
  }

  class Service {
    var repository: Option<Repo>
    var switching: bool
    var generation: nat
    var operations: map<nat, Token>
    var latest: map<string, nat>
    var nextOperationId: nat
    var searchCancel: Option<Token>
    var searchId: nat

    ghost function View(): Guarded
      reads this
    {
      Guarded(repository, switching, generation, operations, latest, nextOperationId, searchCancel, searchId)
    }

    constructor ()
      ensures View() == INITIAL
    {
      repository, switching, generation := None, false, 0;
      operations, latest, nextOperationId := map[], map[], 0;
      searchCancel, searchId := None, 0;
    }

    /** Returns the operation's id and the cancel function of the operation it supersedes, to be
        called after unlocking. */
    method BeginOperationWithKey(token: Token, key: string) returns (id: nat, previous: Option<Token>)
      modifies this
      ensures View() == Register(old(View()), token, key)
      ensures id == old(nextOperationId) + 1
      ensures Slot(previous) == Superseded(old(View()), key)
    {
      previous := None;
      if key != "" {
        if key in latest {
          var previousId := latest[key];
          if previousId in operations { previous := Some(operations[previousId]); }
          operations := operations - {previousId};
        }
      }
      nextOperationId := nextOperationId + 1;
      id := nextOperationId;
      operations := operations[id := token];
      if key != "" { latest := latest[key := id]; }
    }

    method FinishOperation(id: nat, key: string)
      modifies this
      ensures View() == Unregister(old(View()), id, key)
    {
      operations := operations - {id};
      if key != "" && key in latest && latest[key] == id { latest := latest - {key}; }
    }

    method ReserveRepositorySwitch() returns (reserved: nat)
      modifies this
      ensures View() == Reserve(old(View())) && reserved == generation
    {
      generation := generation + 1;
      reserved := generation;
    }

    /** Everything that must be cancelled once the lock is released. */
    method CollectCancels() returns (cancels: set<Token>)
      ensures cancels == Collected(View())
    {
      cancels := {};
      var ids := operations.Keys;
      ghost var done: set<nat> := {};
      while ids != {}
        invariant done + ids == operations.Keys
        invariant cancels == set id | id in done :: operations[id]
        decreases ids
      {
        var id :| id in ids;
        cancels := cancels + {operations[id]};
        ids := ids - {id};
        done := done + {id};
      }
      assert done == operations.Keys;
      assert cancels == operations.Values;
      if searchCancel.Some? { cancels := cancels + {searchCancel.value}; }
    }

    method BeginReservedRepositorySwitch(token: Token, reserved: nat)
      returns (current: bool, id: nat, cancels: set<Token>)
      modifies this
      ensures current == (reserved == old(generation))
      ensures !current ==> View() == old(View())
      ensures current ==>
              View() == BeginSwitch(old(View()), token) && cancels == Collected(old(View())) && id == nextOperationId
    {
      current, id, cancels := reserved == generation, 0, {};
      if !current { return; }
      cancels := CollectCancels();
      searchCancel := None;
      operations, latest := map[], map[];
      searchId := searchId + 1;
      switching := true;
      nextOperationId := nextOperationId + 1;
      id := nextOperationId;
      operations := operations[id := token];
    }

    method CompleteRepositorySwitch(reserved: nat, loaded: Repo) returns (installed: bool)
      modifies this
      ensures View() == CompleteSwitch(old(View()), reserved, loaded)
      ensures installed == (reserved == old(generation))
    {
      if reserved != generation { return false; }
      repository := Some(loaded);
      switching := false;
      return true;
    }

    method FailRepositorySwitch(reserved: nat)
      modifies this
      ensures View() == FailSwitch(old(View()), reserved)
    {
      if reserved == generation { switching := false; }
    }

    method CancelOperations() returns (cancels: set<Token>)
      modifies this
      ensures View() == ForgetAll(old(View())) && cancels == Collected(old(View()))
    {
      cancels := CollectCancels();
      searchCancel := None;
      operations, latest := map[], map[];
      searchId := searchId + 1;
    }

    /** The superseded search is cancelled while the lock is still held. */
    method BeginSearch(token: Token) returns (id: nat, cancelled: set<Token>)
      modifies this
      ensures View() == StartSearch(old(View()), token) && id == searchId
      ensures cancelled == Slot(old(searchCancel))
    {
      cancelled := if searchCancel.Some? then {searchCancel.value} else {};
      searchId := searchId + 1;
      id := searchId;
      searchCancel := Some(token);
    }

    method FinishSearch(id: nat)
      modifies this
      ensures View() == EndSearch(old(View()), id)
    {
      if searchId == id { searchCancel := None; }
    }

    method CancelSearch() returns (cancelled: set<Token>)
      modifies this
      ensures View() == DropSearch(old(View())) && cancelled == Slot(old(searchCancel))
    {
      cancelled := {};
      if searchCancel.Some? {
        cancelled := {searchCancel.value};
        searchCancel := None;
      }
      searchId := searchId + 1;
    }

    method CurrentRepository() returns (current: Option<Repo>)
      ensures current == Current(View())
      ensures switching ==> current == None
      ensures !switching ==> current == repository
    {
      if switching { return None; }
      return repository;
    }
  }
}
