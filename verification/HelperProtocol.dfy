/**
 * The helper connection as a whole: the client, the server and the two channels between
 * them, with handlers ending in any order, cancellations at any time, a pipe that may
 * break and a helper that may fail. Lines are whole here; HelperClient shows that framing
 * hands on every line once and in order.
 */
module HelperProtocol {
  import opened Common
  import opened HelperClient
  import S = HelperServer

  datatype State = State(
    client: Client,
    toServer: seq<S.Input>,
    writable: bool,
    server: S.Server,
    toClient: seq<S.Output>)

  const INITIAL := State(FRESH, [], true, S.IDLE, [])

  datatype Step =
    | Issues(cancelled: bool, tooLarge: bool)
    | Cancels(id: Id)
    | FailsWrite(id: Id)
    | Stops(reason: StopReason)
    | Hears
    | Breaks(kept: nat)
    | Reads
    | CallsDue(call: nat)
    | Answers(call: nat, payload: nat)
    | Finishes(call: nat)
    | Ends(failed: bool)

  function Written(s: State, sent: Sent): seq<S.Input> {
    if !s.writable then s.toServer
    else
      match sent
      case Call(id) => s.toServer + [S.CallRequest(S.Key(id))]
      case CancelCall(id) => s.toServer + [S.CancelRequest(S.Key(id))]
  }

  function Heard(out: S.Output): Message {
    match out
    case Response(Key(id), reply) => Answer(id, reply)
    case _ => Invalid
  }

  function Next(s: State, step: Step): State {
    match step
    case Issues(cancelled, tooLarge) =>
      var (client, r) := Request(s.client, cancelled, tooLarge);
      s.(client := client, toServer := if r.Ok? then Written(s, Call(r.value)) else s.toServer)
    case Cancels(id) =>
      s.(client := Settle(s.client, id, Cancelled),
         toServer := if CancelNotes(s.client, id, s.writable) == [] then s.toServer else Written(s, CancelCall(id)))
    case FailsWrite(id) => s.(client := Settle(s.client, id, WriteFailed))
    case Stops(reason) => s.(client := Stop(s.client, reason))
    case Hears =>
      if s.toClient == [] then s
      else s.(client := Accept(s.client, Heard(s.toClient[0])), toClient := s.toClient[1..])
    case Breaks(kept) => s.(writable := false, toServer := s.toServer[..Min(kept, |s.toServer|)])
    case Reads =>
      if s.toServer == [] || s.server.closed || s.server.due != {} then s
      else
        var (server, out) := S.Receive(s.server, s.toServer[0]);
        s.(server := server, toServer := s.toServer[1..], toClient := s.toClient + out)
    case CallsDue(call) => s.(server := S.CallDue(s.server, call))
    case Answers(call, payload) =>
      var (server, out) := S.Answer(s.server, call, payload);
      s.(server := server, toClient := s.toClient + out)
    case Finishes(call) => s.(server := S.Finish(s.server, call))
    case Ends(failed) => s.(server := S.EndInput(s.server, failed))
  }

  function After(steps: seq<Step>): State {
    if steps == [] then INITIAL else Next(After(steps[..|steps| - 1]), steps[|steps| - 1])
  }

  // ------------------------------------------------------------------ the client

  ghost predicate SettledOnce(log: seq<Settlement>) {
    forall i, j :: 0 <= i < j < |log| ==> log[i].id != log[j].id
  }

  ghost predicate Settled(log: seq<Settlement>, id: Id) {
    exists k :: 0 <= k < |log| && log[k].id == id
  }

  /** Every id is waited for at most once, settled at most once, and not both. */
  ghost predicate Accounted(c: Client) {
    && Distinct(c.pending)
    && SettledOnce(c.settled)
    && (forall id :: id in c.pending ==> id < c.nextId && !Settled(c.settled, id))
    && (forall k :: 0 <= k < |c.settled| ==> c.settled[k].id < c.nextId)
    && |c.pending| <= MAX_PENDING_REQUESTS
    && (c.disposed ==> c.pending == [])
  }

  lemma {:induction false} WithoutRemoves(ids: seq<Id>, id: Id)
    requires Distinct(ids)
    ensures |Without(ids, id)| == if id in ids then |ids| - 1 else |ids|
    ensures forall x :: x in Without(ids, id) <==> x in ids && x != id
    ensures Distinct(Without(ids, id))
  {
    if ids != [] {
      WithoutRemoves(ids[1..], id);
      assert ids == [ids[0]] + ids[1..];
      assert ids[0] !in ids[1..];
    }
  }

  lemma SettleIsAccounted(c: Client, id: Id, outcome: Outcome)
    requires Accounted(c)
    ensures Accounted(Settle(c, id, outcome))
  {
    if id in c.pending {
      var d := Settle(c, id, outcome);
      WithoutRemoves(c.pending, id);
      assert forall k :: 0 <= k < |c.settled| ==> d.settled[k] == c.settled[k] && Settled(c.settled, d.settled[k].id);
      forall x | x in d.pending ensures !Settled(d.settled, x) {
        assert !Settled(c.settled, x);
      }
    }
  }

  lemma StopIsAccounted(c: Client, reason: StopReason)
    requires Accounted(c)
    ensures Accounted(Stop(c, reason))
  {
    if !c.disposed {
      var d := Stop(c, reason);
      var n := |c.settled|;
      assert forall k :: 0 <= k < n ==> d.settled[k] == c.settled[k] && Settled(c.settled, d.settled[k].id);
      assert forall k :: n <= k < |d.settled| ==> d.settled[k].id == c.pending[k - n] && c.pending[k - n] in c.pending;
    }
  }

  lemma RequestIsAccounted(c: Client, cancelled: bool, tooLarge: bool)
    requires Accounted(c)
    ensures Accounted(Request(c, cancelled, tooLarge).0)
  {
    var (d, r) := Request(c, cancelled, tooLarge);
    if r.Ok? {
      assert forall k :: 0 <= k < |c.pending| ==> c.pending[k] in c.pending;
      assert !Settled(c.settled, c.nextId);
    }
  }

  /** A step of the whole acts on the client like one of these, or not at all. */
  lemma StepIsAccounted(s: State, step: Step)
    requires Accounted(s.client)
    ensures Accounted(Next(s, step).client)
  {
    match step
    case Issues(cancelled, tooLarge) => RequestIsAccounted(s.client, cancelled, tooLarge);
    case Cancels(id) => SettleIsAccounted(s.client, id, Cancelled);
    case FailsWrite(id) => SettleIsAccounted(s.client, id, WriteFailed);
    case Stops(reason) => StopIsAccounted(s.client, reason);
    case Hears =>
      if s.toClient != [] {
        match Heard(s.toClient[0])
        case Answer(id, reply) => SettleIsAccounted(s.client, id, Answered(reply));
        case _ => StopIsAccounted(s.client, BadLine);
      }
    case _ =>
  }

  lemma {:induction false} RunsAreAccounted(steps: seq<Step>)
    ensures Accounted(After(steps).client)
  {
    if steps != [] {
      RunsAreAccounted(steps[..|steps| - 1]);
      StepIsAccounted(After(steps[..|steps| - 1]), steps[|steps| - 1]);
    }
  }

  /** No request settles twice, and none that is settled is still waited for. */
  lemma SettlesAtMostOnce(steps: seq<Step>, i: nat, j: nat)
    requires i < |After(steps).client.settled| && j < |After(steps).client.settled|
    requires After(steps).client.settled[i].id == After(steps).client.settled[j].id
    ensures i == j && After(steps).client.settled[i].id !in After(steps).client.pending
  {
    RunsAreAccounted(steps);
    assert Settled(After(steps).client.settled, After(steps).client.settled[i].id);
  }

  lemma PendingIsBounded(steps: seq<Step>)
    ensures |After(steps).client.pending| <= 64
    ensures After(steps).client.disposed ==> After(steps).client.pending == []
  {
    RunsAreAccounted(steps);
  }

  lemma StepOnlyAdds(s: State, step: Step)
    ensures s.client.settled <= Next(s, step).client.settled
  {
  }

  /** Outcomes are final: later steps only add to the log. */
  lemma {:induction false} OutcomesAreFinal(steps: seq<Step>, more: seq<Step>)
    ensures After(steps).client.settled <= After(steps + more).client.settled
    decreases |more|
  {
    var all := steps + more;
    if more == [] {
      assert all == steps;
    } else {
      var last := |more| - 1;
      OutcomesAreFinal(steps, more[..last]);
      assert all[..|all| - 1] == steps + more[..last];
      assert After(all) == Next(After(steps + more[..last]), all[|all| - 1]);
      StepOnlyAdds(After(steps + more[..last]), all[|all| - 1]);
    }
  }

  /** A reply to a request that was cancelled, or settled in any way, changes nothing. */
  lemma LateReplySettlesNothing(steps: seq<Step>, i: nat, reply: Reply)
    requires i < |After(steps).client.settled| && After(steps).toClient != []
    requires After(steps).toClient[0] == S.Response(S.Key(After(steps).client.settled[i].id), reply)
    ensures After(steps + [Hears]).client == After(steps).client
  {
    hide Next;
    SettlesAtMostOnce(steps, i, i);
    assert (steps + [Hears])[..|steps|] == steps;
    HearingNothingNew(After(steps), After(steps).client.settled[i].id, reply);
  }

  lemma HearingNothingNew(s: State, id: Id, reply: Reply)
    requires id !in s.client.pending && s.toClient != [] && s.toClient[0] == S.Response(S.Key(id), reply)
    ensures Next(s, Hears).client == s.client
  {
  }

  /** At step i the client issued the request id. */
  ghost predicate IssuedAt(steps: seq<Step>, i: nat, id: Id)
    requires i < |steps|
  {
    steps[i].Issues? && Request(After(steps[..i]).client, steps[i].cancelled, steps[i].tooLarge).1 == Ok(id)
  }

  ghost predicate Known(c: Client, id: Id) {
    id in c.pending || Settled(c.settled, id)
  }

  /** Every request issued is waited for or settled: none is forgotten. */
  lemma {:induction false} NoRequestIsForgotten(steps: seq<Step>, i: nat, id: Id)
    requires i < |steps| && IssuedAt(steps, i, id)
    ensures Known(After(steps).client, id)
  {
    hide Next, Known, Accounted;
    var last := |steps| - 1;
    var before := steps[..last];
    RunsAreAccounted(before);
    if i < last {
      assert before[..i] == steps[..i];
      assert IssuedAt(before, i, id);
      NoRequestIsForgotten(before, i, id);
      StepForgetsNothing(After(before), steps[last], id);
    } else {
      IssuingIsKnown(After(before), steps[last], id);
    }
  }

  lemma IssuingIsKnown(s: State, step: Step, id: Id)
    requires step.Issues? && Request(s.client, step.cancelled, step.tooLarge).1 == Ok(id)
    ensures Known(Next(s, step).client, id)
  {
  }

  lemma SettleForgetsNothing(c: Client, id: Id, outcome: Outcome, x: Id)
    requires Accounted(c) && Known(c, x)
    ensures Known(Settle(c, id, outcome), x)
  {
    var d := Settle(c, id, outcome);
    if id in c.pending {
      WithoutRemoves(c.pending, id);
      assert d.settled[|c.settled|].id == id;
      if Settled(c.settled, x) {
        var k :| 0 <= k < |c.settled| && c.settled[k].id == x;
        assert d.settled[k].id == x;
      }
    }
  }

  lemma StopForgetsNothing(c: Client, reason: StopReason, x: Id)
    requires Known(c, x)
    ensures Known(Stop(c, reason), x)
  {
    var d := Stop(c, reason);
    if !c.disposed {
      if x in c.pending {
        var k :| 0 <= k < |c.pending| && c.pending[k] == x;
        assert d.settled[|c.settled| + k].id == x;
      } else {
        var k :| 0 <= k < |c.settled| && c.settled[k].id == x;
        assert d.settled[k].id == x;
      }
    }
  }

  lemma StepForgetsNothing(s: State, step: Step, id: Id)
    requires Accounted(s.client) && Known(s.client, id)
    ensures Known(Next(s, step).client, id)
  {
    match step
    case Cancels(x) => SettleForgetsNothing(s.client, x, Cancelled, id);
    case FailsWrite(x) => SettleForgetsNothing(s.client, x, WriteFailed, id);
    case Stops(reason) => StopForgetsNothing(s.client, reason, id);
    case Hears =>
      if s.toClient != [] {
        match Heard(s.toClient[0])
        case Answer(x, reply) => SettleForgetsNothing(s.client, x, Answered(reply), id);
        case _ => StopForgetsNothing(s.client, BadLine, id);
      }
    case _ =>
  }

  // ------------------------------------------------------- replies find their own

  predicate Asks(input: S.Input) {
    input.CallRequest?
  }

  /** Requests reach the server under increasing ids: those of its handlers first, then those on the way. */
  ghost predicate InOrder(handlers: seq<S.Handler>, toServer: seq<S.Input>, bound: Id) {
    && (forall c :: 0 <= c < |handlers| ==> handlers[c].id.Key? && handlers[c].id.key < bound)
    && (forall a, b :: 0 <= a < b < |handlers| ==> handlers[a].id.key < handlers[b].id.key)
    && (forall i :: 0 <= i < |toServer| ==>
        !toServer[i].Malformed? && toServer[i].id.Key? && (Asks(toServer[i]) ==> toServer[i].id.key < bound))
    && (forall i, j :: 0 <= i < j < |toServer| && Asks(toServer[i]) && Asks(toServer[j]) ==>
        toServer[i].id.key < toServer[j].id.key)
    && (forall c, i :: 0 <= c < |handlers| && 0 <= i < |toServer| && Asks(toServer[i]) ==>
        handlers[c].id.key < toServer[i].id.key)
  }

  /** The handler was started for this id and this is its answer. */
  predicate AnsweredBy(server: S.Server, call: nat, id: Id, payload: nat) {
    call < |server.handlers| && server.handlers[call].id == S.Key(id) && server.handlers[call].answer == Some(payload)
  }

  predicate OwnReply(server: S.Server, id: Id, reply: Reply) {
    reply.FromHandler? && AnsweredBy(server, reply.call, id, reply.payload)
  }

  predicate OwnOutput(server: S.Server, out: S.Output) {
    out.Response? && out.id.Key? && OwnReply(server, out.id.key, out.reply)
  }

  ghost predicate RunningIsUnanswered(server: S.Server) {
    forall c :: 0 <= c < |server.handlers| && server.handlers[c].phase == S.Running ==>
        server.handlers[c].answer == None
  }

  ghost predicate Honest(s: State) {
    && InOrder(s.server.handlers, s.toServer, s.client.nextId)
    && S.RegistryIsExact(s.server)
    && RunningIsUnanswered(s.server)
    && (forall i :: 0 <= i < |s.toClient| ==> OwnOutput(s.server, s.toClient[i]))
    && (forall k :: 0 <= k < |s.client.settled| && s.client.settled[k].outcome.Answered? ==>
          OwnReply(s.server, s.client.settled[k].id, s.client.settled[k].outcome.reply))
  }

  /** What a step of the server does to its handlers: none is lost or renamed, and answers stay. */
  ghost predicate HandlersGrow(s: S.Server, t: S.Server) {
    && |s.handlers| <= |t.handlers|
    && forall c :: 0 <= c < |s.handlers| ==>
         && t.handlers[c].id == s.handlers[c].id
         && (s.handlers[c].answer.Some? ==> t.handlers[c].answer == s.handlers[c].answer)
  }

  lemma ServerStep(s: S.Server, step: S.Step)
    requires RunningIsUnanswered(s)
    ensures HandlersGrow(s, S.Next(s, step)) && RunningIsUnanswered(S.Next(s, step))
  {
  }

  lemma SameServer(s: State, t: State)
    requires Honest(s) && t.server == s.server && InOrder(t.server.handlers, t.toServer, t.client.nextId)
    requires forall i :: 0 <= i < |t.toClient| ==> OwnOutput(t.server, t.toClient[i])
    requires forall k :: |s.client.settled| <= k < |t.client.settled| && t.client.settled[k].outcome.Answered? ==>
      OwnReply(t.server, t.client.settled[k].id, t.client.settled[k].outcome.reply)
    requires s.client.settled <= t.client.settled
    ensures Honest(t)
  {
    forall k | 0 <= k < |t.client.settled| && t.client.settled[k].outcome.Answered?
      ensures OwnReply(t.server, t.client.settled[k].id, t.client.settled[k].outcome.reply)
    {
      if k < |s.client.settled| { assert t.client.settled[k] == s.client.settled[k]; }
    }
  }

  lemma SameClient(s: State, t: State, step: S.Step, out: seq<S.Output>)
    requires Honest(s) && t.client == s.client && t.server == S.Next(s.server, step) && t.toClient == s.toClient + out
    requires InOrder(t.server.handlers, t.toServer, t.client.nextId)
    requires forall i :: 0 <= i < |out| ==> OwnOutput(t.server, out[i])
    ensures Honest(t)
  {
    S.StepKeepsRegistry(s.server, step);
    ServerStep(s.server, step);
    assert forall i :: 0 <= i < |s.toClient| ==> OwnOutput(s.server, s.toClient[i]);
  }

  lemma WritingKeepsOrder(s: State, handlers: seq<S.Handler>, sent: Sent, bound: Id)
    requires InOrder(handlers, s.toServer, if sent.Call? then sent.id else bound)
    requires sent.Call? ==> bound == sent.id + 1
    ensures InOrder(handlers, Written(s, sent), bound)
  {
  }

  lemma ClientStepIsHonest(s: State, step: Step)
    requires Honest(s) && (step.Issues? || step.Cancels? || step.FailsWrite? || step.Stops? || step.Breaks?)
    ensures Honest(Next(s, step))
  {
    hide S.RegistryIsExact, RunningIsUnanswered, OwnOutput, OwnReply;
    var t := Next(s, step);
    if step.Issues? && Request(s.client, step.cancelled, step.tooLarge).1.Ok? {
      WritingKeepsOrder(s, s.server.handlers, Call(s.client.nextId), s.client.nextId + 1);
    } else if step.Cancels? {
      WritingKeepsOrder(s, s.server.handlers, CancelCall(step.id), s.client.nextId);
    }
    SameServer(s, t);
  }

  lemma HearingIsHonest(s: State)
    requires Honest(s) && s.toClient != []
    ensures Honest(Next(s, Hears))
  {
    var t := Next(s, Hears);
    assert OwnOutput(s.server, s.toClient[0]);
    assert forall i :: 0 <= i < |t.toClient| ==> t.toClient[i] == s.toClient[i + 1];
    SameServer(s, t);
  }

  lemma ReadingIsHonest(s: State)
    requires Honest(s) && s.toServer != [] && !s.server.closed && s.server.due == {}
    ensures Honest(Next(s, Reads))
  {
    var t, input := Next(s, Reads), s.toServer[0];
    assert forall i :: 0 <= i < |t.toServer| ==> t.toServer[i] == s.toServer[i + 1];
    forall key | key in s.server.cancellations ensures Asks(input) ==> key < input.id.key {
      assert S.InFlight(s.server, s.server.cancellations[key], key);
    }
    SameClient(s, t, S.Reads(input), []);
  }

  lemma WorkingIsHonest(s: State, step: Step)
    requires Honest(s) && (step.CallsDue? || step.Finishes? || step.Ends? || step.Answers?)
    ensures Honest(Next(s, step))
  {
    hide S.RegistryIsExact;
    var t := Next(s, step);
    var doing := match step
      case CallsDue(call) => S.CallsDue(call)
      case Finishes(call) => S.Finishes(call)
      case Answers(call, payload) => S.Answers(call, payload)
      case Ends(failed) => S.Ends(failed)
      case _ => S.Ends(false);
    ServerStep(s.server, doing);
    assert t.server == S.Next(s.server, doing);
    assert |t.server.handlers| == |s.server.handlers|;
    SameClient(s, t, doing, if step.Answers? then S.Answer(s.server, step.call, step.payload).1 else []);
  }

  lemma {:induction false} RunsAreHonest(steps: seq<Step>)
    ensures Honest(After(steps))
  {
    if steps != [] {
      var s, step := After(steps[..|steps| - 1]), steps[|steps| - 1];
      RunsAreHonest(steps[..|steps| - 1]);
      match step
      case Hears => if s.toClient != [] { HearingIsHonest(s); }
      case Reads => if s.toServer != [] && !s.server.closed && s.server.due == {} { ReadingIsHonest(s); }
      case Issues(_, _) => ClientStepIsHonest(s, step);
      case Cancels(_) => ClientStepIsHonest(s, step);
      case FailsWrite(_) => ClientStepIsHonest(s, step);
      case Stops(_) => ClientStepIsHonest(s, step);
      case Breaks(_) => ClientStepIsHonest(s, step);
      case _ => WorkingIsHonest(s, step);
    }
  }

  // -------------------------------------------------------- why a request settled

  predicate Causes(step: Step, settlement: Settlement) {
    match settlement.outcome
    case Cancelled => step == Cancels(settlement.id)
    case WriteFailed => step == FailsWrite(settlement.id)
    case Closed(reason) => step == Stops(reason)
    case Answered(_) => step == Hears
  }

  ghost predicate Caused(steps: seq<Step>, settlement: Settlement) {
    exists i :: 0 <= i < |steps| && Causes(steps[i], settlement)
  }

  lemma StepCauses(s: State, step: Step, k: nat)
    requires Honest(s) && |s.client.settled| <= k < |Next(s, step).client.settled|
    ensures Causes(step, Next(s, step).client.settled[k])
  {
    if step.Hears? { assert OwnOutput(s.server, s.toClient[0]); }
  }

  lemma {:induction false} EverySettlementIsCaused(steps: seq<Step>, k: nat)
    requires k < |After(steps).client.settled|
    ensures Caused(steps, After(steps).client.settled[k])
  {
    var last := |steps| - 1;
    var before := steps[..last];
    RunsAreHonest(before);
    StepOnlyAdds(After(before), steps[last]);
    if k < |After(before).client.settled| {
      EverySettlementIsCaused(before, k);
      var i :| 0 <= i < |before| && Causes(before[i], After(before).client.settled[k]);
      assert Causes(steps[i], After(steps).client.settled[k]);
    } else {
      StepCauses(After(before), steps[last], k);
    }
  }

  ghost predicate OneHandlerEach(handlers: seq<S.Handler>) {
    forall a, b :: 0 <= a < b < |handlers| ==> handlers[a].id != handlers[b].id
  }

  /**
   * A request settles only by its own cause: its own cancellation, its own failed write,
   * the stop of the client, or the answer of the one handler that was started for it.
   */
  lemma SettlesByItsOwnCause(steps: seq<Step>, k: nat)
    requires k < |After(steps).client.settled|
    ensures var settlement := After(steps).client.settled[k];
      && Caused(steps, settlement)
      && (settlement.outcome.Answered? ==> OwnReply(After(steps).server, settlement.id, settlement.outcome.reply))
    ensures OneHandlerEach(After(steps).server.handlers)
  {
    EverySettlementIsCaused(steps, k);
    RunsAreHonest(steps);
  }

  // --------------------------------------------- why the server cancels a handler

  ghost predicate GivenUp(c: Client, id: S.WireId) {
    id.Key? && exists k :: 0 <= k < |c.settled| && c.settled[k] == Settlement(id.key, Cancelled)
  }

  ghost predicate InputFailed(steps: seq<Step>) {
    exists i :: 0 <= i < |steps| && steps[i] == Ends(true)
  }

  ghost predicate CancelsAreMeant(s: State, failed: bool) {
    && (forall i :: 0 <= i < |s.toServer| && s.toServer[i].CancelRequest? ==> GivenUp(s.client, s.toServer[i].id))
    && (forall c :: c in s.server.due ==> c < |s.server.handlers|)
    && (!failed ==>
        forall c: nat :: c < |s.server.handlers| && (c in s.server.due || s.server.handlers[c].cancelled) ==>
        GivenUp(s.client, s.server.handlers[c].id))
  }

  lemma GivenUpStays(s: State, step: Step, id: S.WireId)
    requires GivenUp(s.client, id)
    ensures GivenUp(Next(s, step).client, id)
  {
    StepOnlyAdds(s, step);
    var k :| 0 <= k < |s.client.settled| && s.client.settled[k] == Settlement(id.key, Cancelled);
    assert Next(s, step).client.settled[k] == s.client.settled[k];
  }

  lemma CancellingIsMeant(s: State, id: Id)
    requires id in s.client.pending
    ensures GivenUp(Next(s, Cancels(id)).client, S.Key(id))
  {
    var t := Next(s, Cancels(id));
    assert t.client.settled[|s.client.settled|] == Settlement(id, Cancelled);
  }

  lemma StepIsMeant(s: State, step: Step, failed: bool)
    requires S.RegistryIsExact(s.server) && CancelsAreMeant(s, failed)
    ensures CancelsAreMeant(Next(s, step), failed || step == Ends(true))
  {
    hide GivenUp, Settle, Accept, Stop, Request;
    var t := Next(s, step);
    forall i | 0 <= i < |t.toServer| && t.toServer[i].CancelRequest? ensures GivenUp(t.client, t.toServer[i].id) {
      if step.Cancels? && i == |s.toServer| {
        CancellingIsMeant(s, step.id);
      } else {
        assert exists j :: 0 <= j < |s.toServer| && t.toServer[i] == s.toServer[j];
        GivenUpStays(s, step, t.toServer[i].id);
      }
    }
    forall c | c in t.server.due ensures c < |t.server.handlers| {
      assert c in s.server.due || exists key :: key in s.server.cancellations && s.server.cancellations[key] == c;
    }
    if !failed && step != Ends(true) {
      forall c: nat | c < |t.server.handlers| && (c in t.server.due || t.server.handlers[c].cancelled)
        ensures GivenUp(t.client, t.server.handlers[c].id)
      {
        if c < |s.server.handlers| && (c in s.server.due || s.server.handlers[c].cancelled) {
          GivenUpStays(s, step, s.server.handlers[c].id);
        } else {
          assert step.Reads? && s.toServer[0].CancelRequest?;
          var key := s.toServer[0].id.key;
          assert S.InFlight(s.server, s.server.cancellations[key], key);
          GivenUpStays(s, step, s.toServer[0].id);
        }
      }
    }
  }

  lemma {:induction false} RunsAreMeant(steps: seq<Step>)
    ensures CancelsAreMeant(After(steps), InputFailed(steps))
  {
    if steps != [] {
      var last := |steps| - 1;
      var before := steps[..last];
      RunsAreMeant(before);
      RunsAreHonest(before);
      StepIsMeant(After(before), steps[last], InputFailed(before));
      assert InputFailed(steps) <==> InputFailed(before) || steps[last] == Ends(true) by {
        if InputFailed(before) {
          var i :| 0 <= i < |before| && before[i] == Ends(true);
          assert steps[i] == Ends(true);
        }
      }
    }
  }

  /** Unless its input failed, the server cancels a handler only after the client gave up that very request. */
  lemma OnlyGivenUpRequestsAreCancelled(steps: seq<Step>, call: nat)
    requires call < |After(steps).server.handlers| && After(steps).server.handlers[call].cancelled
             && !InputFailed(steps)
    ensures GivenUp(After(steps).client, After(steps).server.handlers[call].id)
  {
    RunsAreMeant(steps);
  }

  // ------------------------------------------------------ requests are answered

  lemma AfterOneMore(steps: seq<Step>, step: Step)
    ensures After(steps + [step]) == Next(After(steps), step)
  {
    assert (steps + [step])[..|steps|] == steps;
  }

  /** Why a request would be refused now, if it would. */
  ghost predicate RefusedFor(c: Client, cancelled: bool, tooLarge: bool, refusal: Refusal) {
    match refusal
    case HelperClosed => c.disposed
    case RequestCancelled => !c.disposed && cancelled
    case TooManyRequests => !c.disposed && !cancelled && |c.pending| == 64
    case InputTooLarge => !c.disposed && !cancelled && |c.pending| < 64 && tooLarge
  }

  /** A request is issued under an id never used before exactly when the client runs, the request is not
      cancelled and not too large, and fewer than 64 are pending; otherwise it is refused for the first
      of these reasons. */
  lemma RequestsAreIssued(steps: seq<Step>, cancelled: bool, tooLarge: bool)
    ensures var c, (d, r) := After(steps).client, Request(After(steps).client, cancelled, tooLarge);
      && (r.Ok? <==> !c.disposed && !cancelled && |c.pending| < 64 && !tooLarge)
      && (r.Err? ==> RefusedFor(c, cancelled, tooLarge, r.error) && d.pending == c.pending)
      && (r.Ok? ==> r.value !in c.pending && !Settled(c.settled, r.value) && d.pending == c.pending + [r.value])
      && d.settled == c.settled && d.disposed == c.disposed && d.nextId >= c.nextId
      && (d.nextId == c.nextId + 1 <==> r.Ok? || r == Err(InputTooLarge))
  {
    RunsAreAccounted(steps);
  }

  lemma {:induction false} WithoutStays(ids: seq<Id>, id: Id)
    requires id !in ids
    ensures Without(ids, id) == ids && Without(ids + [id], id) == ids
  {
    if ids != [] {
      WithoutStays(ids[1..], id);
      assert (ids + [id])[1..] == ids[1..] + [id];
      assert ids == [ids[0]] + ids[1..];
    }
  }

  /** The reply to a pending request settles it, with that reply, and nothing else. */
  lemma RepliesSettle(steps: seq<Step>, id: Id, reply: Reply)
    requires After(steps).toClient != [] && After(steps).toClient[0] == S.Response(S.Key(id), reply)
    requires id in After(steps).client.pending
    ensures var c, d := After(steps).client, After(steps + [Hears]).client;
      && d.settled == c.settled + [Settlement(id, Answered(reply))]
      && (forall x :: x in d.pending <==> x in c.pending && x != id)
      && d.disposed == c.disposed && d.nextId == c.nextId
  {
    RunsAreAccounted(steps);
    AfterOneMore(steps, Hears);
    WithoutRemoves(After(steps).client.pending, id);
  }

  /** So does a failed write. */
  lemma FailedWritesSettle(steps: seq<Step>, id: Id)
    ensures var c, d := After(steps).client, After(steps + [FailsWrite(id)]).client;
      && d.settled == c.settled + (if id in c.pending then [Settlement(id, WriteFailed)] else [])
      && (forall x :: x in d.pending <==> x in c.pending && x != id)
      && d.disposed == c.disposed && d.nextId == c.nextId
  {
    RunsAreAccounted(steps);
    AfterOneMore(steps, FailsWrite(id));
    WithoutRemoves(After(steps).client.pending, id);
  }

  /** Stopping settles every pending request, in order and for this reason, and only the first stop counts. */
  lemma StoppingSettlesAll(steps: seq<Step>, reason: StopReason)
    ensures var c, d := After(steps).client, After(steps + [Stops(reason)]).client;
      && d.disposed && d.pending == []
      && (c.disposed ==> d == c)
      && (!c.disposed ==>
            && |d.settled| == |c.settled| + |c.pending| && c.settled <= d.settled
            && forall k :: 0 <= k < |c.pending| ==>
                 d.settled[|c.settled| + k] == Settlement(c.pending[k], Closed(reason)))
  {
    RunsAreAccounted(steps);
    AfterOneMore(steps, Stops(reason));
  }

  /** The connection is up and nothing is underway on it. */
  ghost predicate Quiet(s: State) {
    && !s.client.disposed && s.writable && s.toServer == [] && s.toClient == []
    && !s.server.closed && s.server.due == {}
  }

  /**
   * On a quiet connection a request is answered: a handler is started for it, and what that handler
   * answers is what the request settles with. Nothing else is settled or left pending by it.
   */
  lemma RequestIsAnswered(steps: seq<Step>, payload: nat)
    requires Quiet(After(steps)) && |After(steps).client.pending| < 64
    ensures var s := After(steps);
      var call, id := |s.server.handlers|, s.client.nextId;
      var t := After(steps + [Issues(false, false)] + [Reads] + [Answers(call, payload)] + [Hears]);
      && t.client.settled == s.client.settled + [Settlement(id, Answered(FromHandler(call, payload)))]
      && t.client.pending == s.client.pending && Quiet(t)
      && t.server.handlers == s.server.handlers + [S.Handler(S.Key(id), false, S.Replied, Some(payload))]
  {
    var s := After(steps);
    var call, id := |s.server.handlers|, s.client.nextId;
    RunsAreAccounted(steps);
    RunsAreHonest(steps);
    AfterOneMore(steps, Issues(false, false));
    AfterOneMore(steps + [Issues(false, false)], Reads);
    AfterOneMore(steps + [Issues(false, false)] + [Reads], Answers(call, payload));
    AfterOneMore(steps + [Issues(false, false)] + [Reads] + [Answers(call, payload)], Hears);
    WithoutStays(s.client.pending, id);
    forall key | key in s.server.cancellations ensures key < id {
      assert S.InFlight(s.server, s.server.cancellations[key], key);
    }
    hide Honest, Accounted;
    AnsweredIn(s, payload);
  }

  lemma AnsweredIn(s: State, payload: nat)
    requires Quiet(s) && |s.client.pending| < 64 && s.client.nextId !in s.server.cancellations
    requires Without(s.client.pending + [s.client.nextId], s.client.nextId) == s.client.pending
    ensures var call, id := |s.server.handlers|, s.client.nextId;
      var t := Next(Next(Next(Next(s, Issues(false, false)), Reads), Answers(call, payload)), Hears);
      && t.client.settled == s.client.settled + [Settlement(id, Answered(FromHandler(call, payload)))]
      && t.client.pending == s.client.pending && Quiet(t)
      && t.server.handlers == s.server.handlers + [S.Handler(S.Key(id), false, S.Replied, Some(payload))]
  {
    var issued := Next(s, Issues(false, false));
    assert issued.toServer == [S.CallRequest(S.Key(s.client.nextId))];
    var read := Next(issued, Reads);
    assert read.toServer == [] && |read.server.handlers| == |s.server.handlers| + 1;
    var answered := Next(read, Answers(|s.server.handlers|, payload));
    assert answered.toClient == [S.Response(S.Key(s.client.nextId), FromHandler(|s.server.handlers|, payload))];
  }

  /** On a quiet connection a cancellation settles its request at once, and its handler is cancelled, and no other. */
  lemma CancellationArrives(steps: seq<Step>, id: Id, call: nat)
    requires Quiet(After(steps)) && id in After(steps).client.pending && S.InFlight(After(steps).server, call, id)
    ensures var s, t := After(steps), After(steps + [Cancels(id)] + [Reads] + [CallsDue(call)]);
      && t.client.settled == s.client.settled + [Settlement(id, Cancelled)]
      && (forall x :: x in t.client.pending <==> x in s.client.pending && x != id)
      && t.server.handlers == s.server.handlers[call := s.server.handlers[call].(cancelled := true)] && Quiet(t)
  {
    var s := After(steps);
    RunsAreAccounted(steps);
    RunsAreHonest(steps);
    AfterOneMore(steps, Cancels(id));
    AfterOneMore(steps + [Cancels(id)], Reads);
    AfterOneMore(steps + [Cancels(id)] + [Reads], CallsDue(call));
    WithoutRemoves(s.client.pending, id);
    assert id in s.server.cancellations && s.server.cancellations[id] == call;
    hide Honest, Accounted;
    CancelledIn(s, id, call);
  }

  lemma CancelledIn(s: State, id: Id, call: nat)
    requires Quiet(s) && id in s.client.pending && call < |s.server.handlers|
    requires id in s.server.cancellations && s.server.cancellations[id] == call
    ensures var t := Next(Next(Next(s, Cancels(id)), Reads), CallsDue(call));
      && t.client == Settle(s.client, id, Cancelled)
      && t.server.handlers == s.server.handlers[call := s.server.handlers[call].(cancelled := true)] && Quiet(t)
  {
    var told := Next(s, Cancels(id));
    assert told.toServer == [S.CancelRequest(S.Key(id))];
    var read := Next(told, Reads);
    assert read.toServer == [] && read.server.due == {call};
  }

  /** A request that is not there any more is not cancelled, and the helper is not bothered. */
  lemma LateCancellationDoesNothing(steps: seq<Step>, id: Id)
    requires id !in After(steps).client.pending
    ensures After(steps + [Cancels(id)]) == After(steps)
  {
    AfterOneMore(steps, Cancels(id));
  }
}
