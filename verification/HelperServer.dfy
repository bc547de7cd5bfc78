/**
 * The helper's side of the connection (internal/vscodehelper/server.go): a read loop that
 * starts a handler per request, the registry of cancel functions, and handlers that end
 * in any order. Here the other side may send anything.
 *
 * A handler is named by the number of its call; its cancel function by the same number.
 */
module HelperServer {
  import opened Common
  import opened HelperClient

  /** A request id as written, by the key the registry keeps it under; null and absent have none. */
  datatype WireId = Absent | Null | Key(key: nat)

  datatype Input = CallRequest(id: WireId) | CancelRequest(id: WireId) | Malformed

  datatype Output = Response(id: WireId, reply: Reply) | ParseError

  datatype Phase = Running | Replied | Finished

  datatype Handler = Handler(id: WireId, cancelled: bool, phase: Phase, answer: Option<nat>)

  /** due: cancel functions the read loop has collected and not called yet. */
  datatype Server = Server(handlers: seq<Handler>, cancellations: map<nat, nat>, due: set<nat>, closed: bool)

  const IDLE := Server([], map[], {}, false)

  function Registered(m: map<nat, nat>, id: WireId, call: nat): (map<nat, nat>, bool) {
    match id
    case Key(key) => if key in m then (m, false) else (m[key := call], true)
    case _ => (m, true)
  }

  function Unregistered(m: map<nat, nat>, id: WireId): map<nat, nat> {
    if id.Key? then m - {id.key} else m
  }

  function Collected(m: map<nat, nat>, id: WireId): set<nat> {
    if id.Key? && id.key in m then {m[id.key]} else {}
  }

  /** One turn of the read loop. */
  function Receive(s: Server, input: Input): (Server, seq<Output>) {
    if s.closed || s.due != {} then (s, [])
    else
      match input
      case Malformed => (s, [ParseError])
      case CancelRequest(id) => (s.(due := Collected(s.cancellations, id)), [])
      case CallRequest(id) =>
        var (m, registered) := Registered(s.cancellations, id, |s.handlers|);
        if !registered then (s, [Response(id, DuplicateId)])
        else (s.(handlers := s.handlers + [Handler(id, false, Running, None)], cancellations := m), [])
  }

  function CallDue(s: Server, call: nat): Server {
    if call !in s.due then s
    else if call >= |s.handlers| then s.(due := s.due - {call})
    else s.(due := s.due - {call}, handlers := s.handlers[call := s.handlers[call].(cancelled := true)])
  }

  function Answer(s: Server, call: nat, payload: nat): (Server, seq<Output>) {
    if call >= |s.handlers| || s.handlers[call].phase != Running then (s, [])
    else
      var h := s.handlers[call];
      (s.(handlers := s.handlers[call := h.(phase := Replied, answer := Some(payload))]),
       if h.id == Absent then [] else [Response(h.id, FromHandler(call, payload))])
  }

  function Finish(s: Server, call: nat): Server {
    if call >= |s.handlers| || s.handlers[call].phase != Replied then s
    else
      var h := s.handlers[call];
      s.(handlers := s.handlers[call := h.(phase := Finished)], cancellations := Unregistered(s.cancellations, h.id))
  }

  /** The input ends; when it failed, every registered cancel function is collected. */
  function EndInput(s: Server, failed: bool): Server {
    if s.closed then s else s.(closed := true, due := if failed then s.cancellations.Values else s.due)
  }

  class Registry {
    var cancellations: map<nat, nat>

    constructor ()
      ensures cancellations == map[]
    {
      cancellations := map[];
    }

    method RegisterCancellation(id: WireId, cancel: nat) returns (registered: bool)
      modifies this
      ensures (cancellations, registered) == Registered(old(cancellations), id, cancel)
    {
      if !id.Key? { return true; }
      if id.key in cancellations { return false; }
      cancellations := cancellations[id.key := cancel];
      return true;
    }

    method FinishRequest(id: WireId)
      modifies this
      ensures cancellations == Unregistered(old(cancellations), id)
    {
      if !id.Key? { return; }
      cancellations := cancellations - {id.key};
    }

    method HandleCancel(id: WireId) returns (due: set<nat>)
      ensures due == Collected(cancellations, id)
    {
      if !id.Key? || id.key !in cancellations { return {}; }
      return {cancellations[id.key]};
    }

    method CancelAll() returns (due: set<nat>)
      ensures due == cancellations.Values
    {
      due := {};
      var keys := cancellations.Keys;
      while keys != {}
        invariant keys <= cancellations.Keys
        invariant due == set k | k in cancellations && k !in keys :: cancellations[k]
        decreases |keys|
      {
        var k :| k in keys;
        due, keys := due + {cancellations[k]}, keys - {k};
      }
    }
  }

  // ------------------------------------------------------------------------ runs

  datatype Step =
    | Reads(input: Input)
    | CallsDue(call: nat)
    | Answers(call: nat, payload: nat)
    | Finishes(call: nat)
    | Ends(failed: bool)

  function Next(s: Server, step: Step): Server {
    match step
    case Reads(input) => Receive(s, input).0
    case CallsDue(call) => CallDue(s, call)
    case Answers(call, payload) => Answer(s, call, payload).0
    case Finishes(call) => Finish(s, call)
    case Ends(failed) => EndInput(s, failed)
  }

  function After(steps: seq<Step>): Server {
    if steps == [] then IDLE else Next(After(steps[..|steps| - 1]), steps[|steps| - 1])
  }

  predicate InFlight(s: Server, call: nat, key: nat) {
    call < |s.handlers| && s.handlers[call].id == Key(key) && s.handlers[call].phase != Finished
  }

  /** The registry holds exactly the handlers in flight that have a key. */
  ghost predicate RegistryIsExact(s: Server) {
    && (forall key :: key in s.cancellations ==> InFlight(s, s.cancellations[key], key))
    && (forall call: nat, key :: InFlight(s, call, key) ==> key in s.cancellations && s.cancellations[key] == call)
  }

  /** No step but a registration and a finish touches who is in flight. */
  lemma QuietStepKeepsRegistry(s: Server, t: Server)
    requires RegistryIsExact(s) && t.cancellations == s.cancellations && |t.handlers| == |s.handlers|
    requires forall c :: 0 <= c < |s.handlers| ==>
      t.handlers[c].id == s.handlers[c].id && (t.handlers[c].phase == Finished <==> s.handlers[c].phase == Finished)
    ensures RegistryIsExact(t)
  {
    assert forall call: nat, key :: InFlight(t, call, key) <==> InFlight(s, call, key);
  }

  lemma StartKeepsRegistry(s: Server, id: WireId)
    requires RegistryIsExact(s) && !(id.Key? && id.key in s.cancellations)
    ensures RegistryIsExact(s.(handlers := s.handlers + [Handler(id, false, Running, None)],
                               cancellations := Registered(s.cancellations, id, |s.handlers|).0))
  {
    var t := s.(handlers := s.handlers + [Handler(id, false, Running, None)],
                cancellations := Registered(s.cancellations, id, |s.handlers|).0);
    assert forall call: nat, key ::
        InFlight(t, call, key) <==> InFlight(s, call, key) || (call == |s.handlers| && id == Key(key));
  }

  lemma FinishKeepsRegistry(s: Server, call: nat)
    requires RegistryIsExact(s) && call < |s.handlers| && s.handlers[call].phase == Replied
    ensures RegistryIsExact(Finish(s, call))
  {
    var t := Finish(s, call);
    assert forall c: nat, key :: InFlight(t, c, key) <==> InFlight(s, c, key) && c != call;
    var id := s.handlers[call].id;
    if id.Key? { assert InFlight(s, call, id.key); }
  }

  lemma StepKeepsRegistry(s: Server, step: Step)
    requires RegistryIsExact(s)
    ensures RegistryIsExact(Next(s, step))
  {
    match step
    case Reads(input) =>
      if input.CallRequest? && Receive(s, input).0.handlers != s.handlers {
        StartKeepsRegistry(s, input.id);
      } else {
        QuietStepKeepsRegistry(s, Next(s, step));
      }
    case Finishes(call) => if call < |s.handlers| && s.handlers[call].phase == Replied { FinishKeepsRegistry(s, call); }
    case _ => QuietStepKeepsRegistry(s, Next(s, step));
  }

  lemma {:induction false} RunsKeepRegistry(steps: seq<Step>)
    ensures RegistryIsExact(After(steps))
  {
    if steps != [] {
      RunsKeepRegistry(steps[..|steps| - 1]);
      StepKeepsRegistry(After(steps[..|steps| - 1]), steps[|steps| - 1]);
    }
  }

  /** Whatever the other side sends, no two handlers in flight have the same id. */
  lemma InFlightIdsAreDistinct(steps: seq<Step>, a: nat, b: nat, key: nat)
    requires InFlight(After(steps), a, key) && InFlight(After(steps), b, key)
    ensures a == b
  {
    RunsKeepRegistry(steps);
  }

  /** A registration leaves the registry only when its own handler finishes: no duplicate, and
      no other handler, removes it. */
  lemma OnlyItsHandlerUnregisters(steps: seq<Step>, step: Step, key: nat)
    requires key in After(steps).cancellations
    ensures var call := After(steps).cancellations[key];
      if step == Finishes(call) && call < |After(steps).handlers| && After(steps).handlers[call].phase == Replied
      then key !in Next(After(steps), step).cancellations
      else key in Next(After(steps), step).cancellations && Next(After(steps), step).cancellations[key] == call
  {
    RunsKeepRegistry(steps);
    var s := After(steps);
    assert InFlight(s, s.cancellations[key], key);
    if step.Finishes? && step.call < |s.handlers| && s.handlers[step.call].phase == Replied
      && s.handlers[step.call].id == Key(key) {
      assert InFlight(s, step.call, key);
    }
  }

  /** A request whose id is in flight starts no handler and is refused; any other starts one. */
  lemma DuplicatesAreRefused(steps: seq<Step>, id: WireId)
    requires !After(steps).closed && After(steps).due == {}
    ensures var s, (t, out) := After(steps), Receive(After(steps), CallRequest(id));
      if id.Key? && exists call: nat :: InFlight(s, call, id.key) then t == s && out == [Response(id, DuplicateId)]
      else |t.handlers| == |s.handlers| + 1 && t.handlers[|s.handlers|].id == id && out == []
  {
    RunsKeepRegistry(steps);
    var s := After(steps);
    if id.Key? && id.key in s.cancellations { assert InFlight(s, s.cancellations[id.key], id.key); }
  }

  // --------------------------------------------------- who cancels which handler

  /** At step i of the run the handler's own id was asked to be cancelled, or the input failed,
      while it was in flight. */
  ghost predicate AskedAt(steps: seq<Step>, i: nat, call: nat)
    requires i < |steps|
  {
    var s := After(steps[..i]);
    exists key :: InFlight(s, call, key) && (steps[i] == Reads(CancelRequest(Key(key))) || steps[i] == Ends(true))
  }

  ghost predicate Asked(steps: seq<Step>, call: nat) {
    exists i: nat :: i < |steps| && AskedAt(steps, i, call)
  }

  ghost predicate CancelsAreAsked(s: Server, steps: seq<Step>) {
    forall call: nat :: call in s.due || (call < |s.handlers| && s.handlers[call].cancelled) ==> Asked(steps, call)
  }

  lemma AskedStays(steps: seq<Step>, step: Step, call: nat)
    requires Asked(steps, call)
    ensures Asked(steps + [step], call)
  {
    var i: nat :| i < |steps| && AskedAt(steps, i, call);
    assert (steps + [step])[..i] == steps[..i];
    assert AskedAt(steps + [step], i, call);
  }

  lemma {:induction false} OnlyAskedHandlersAreCancelled(steps: seq<Step>)
    ensures CancelsAreAsked(After(steps), steps)
  {
    if steps != [] {
      var before, step := steps[..|steps| - 1], steps[|steps| - 1];
      var s, t := After(before), After(steps);
      OnlyAskedHandlersAreCancelled(before);
      RunsKeepRegistry(before);
      assert steps == before + [step];
      forall call: nat | call in t.due || (call < |t.handlers| && t.handlers[call].cancelled)
        ensures Asked(steps, call)
      {
        if call in s.due || (call < |s.handlers| && s.handlers[call].cancelled) {
          AskedStays(before, step, call);
        } else {
          var key :| key in s.cancellations && s.cancellations[key] == call
            && (step == Reads(CancelRequest(Key(key))) || step == Ends(true));
          assert InFlight(s, call, key);
          assert AskedAt(steps, |before|, call);
        }
      }
    }
  }

  /** When every handler has finished, nothing stays registered. */
  lemma ServeLeavesNothing(steps: seq<Step>)
    ensures var s := After(steps);
      s.cancellations == map[] || exists call: nat :: call < |s.handlers| && s.handlers[call].phase != Finished
  {
    RunsKeepRegistry(steps);
    var s := After(steps);
    if s.cancellations != map[] {
      var key :| key in s.cancellations;
      assert InFlight(s, s.cancellations[key], key);
    }
  }

  // --------------------------------------------------------- what is done is done

  /** A cancellation reaches the handler in flight under that id, if there is one, and no other: its
      cancel function is collected, and calling it cancels that handler alone. */
  lemma CancelReachesItsHandler(steps: seq<Step>, id: WireId, call: nat)
    requires !After(steps).closed && After(steps).due == {}
    ensures var s, (t, out) := After(steps), Receive(After(steps), CancelRequest(id));
      && out == [] && t.handlers == s.handlers && t.cancellations == s.cancellations && !t.closed
      && (call in t.due <==> id.Key? && InFlight(s, call, id.key))
      && (call in t.due ==>
            var u := CallDue(t, call);
            && u.due == t.due - {call} && u.cancellations == s.cancellations
            && u.handlers == s.handlers[call := s.handlers[call].(cancelled := true)])
  {
    RunsKeepRegistry(steps);
  }

  /** When the input fails the cancel functions of exactly the handlers in flight with an id are collected;
      when it just ends none is. Nothing is read afterwards. */
  lemma FailedInputCancelsAll(steps: seq<Step>, failed: bool, call: nat, input: Input)
    requires !After(steps).closed && After(steps).due == {}
    ensures var s, t := After(steps), EndInput(After(steps), failed);
      && t.closed && t.handlers == s.handlers && t.cancellations == s.cancellations
      && (call in t.due <==> failed && exists key :: InFlight(s, call, key))
      && Receive(t, input) == (t, [])
  {
    RunsKeepRegistry(steps);
    var s := After(steps);
    if exists key :: InFlight(s, call, key) {
      var key :| InFlight(s, call, key);
      assert key in s.cancellations && s.cancellations[key] == call;
    }
  }

  /** A running handler answers once, under its own id unless it has none, and keeps its registration until
      it finishes; its id is then free again. */
  lemma HandlersAnswerAndFinish(steps: seq<Step>, call: nat, payload: nat, again: nat)
    requires call < |After(steps).handlers| && After(steps).handlers[call].phase == Running
    ensures var s, (t, out) := After(steps), Answer(After(steps), call, payload);
      var h := s.handlers[call];
      && out == (if h.id == Absent then [] else [Response(h.id, FromHandler(call, payload))])
      && t == s.(handlers := s.handlers[call := h.(phase := Replied, answer := Some(payload))])
      && Answer(t, call, again) == (t, [])
      && Finish(s, call) == s
      && Finish(t, call).handlers == t.handlers[call := h.(phase := Finished, answer := Some(payload))]
      && (h.id.Key? ==> forall other: nat :: !InFlight(Finish(t, call), other, h.id.key))
  {
    RunsKeepRegistry(steps);
    var s := After(steps);
    var t := Answer(s, call, payload).0;
    var h := s.handlers[call];
    if h.id.Key? {
      assert InFlight(s, call, h.id.key);
      forall other: nat ensures !InFlight(Finish(t, call), other, h.id.key) {
        assert other != call ==> !InFlight(s, other, h.id.key);
      }
    }
  }

  /** A message that cannot be read is answered with an error and changes nothing. */
  lemma MalformedIsReported(steps: seq<Step>)
    requires !After(steps).closed && After(steps).due == {}
    ensures Receive(After(steps), Malformed) == (After(steps), [ParseError])
  {
  }
}
