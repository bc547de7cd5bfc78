/**
 * The extension's side of the helper connection (apps/vscode/src/helper/client.ts): the
 * requests in flight, and the newline framing of the helper's output.
 *
 * The pending map is kept as the sequence of its ids in insertion order. What became of
 * every request is recorded in a ghost log.
 */
module HelperClient {
  import opened Common

  type Id = nat

  type Byte = b: int | 0 <= b < 256

  type Line = seq<Byte>

  const NEWLINE: Byte := 10
  const MAX_OUTPUT_BYTES := 8 * 1024 * 1024
  const MAX_PENDING_REQUESTS := 64

  /** What a request is answered with: a handler's result or error, or the refusal of a duplicate id. */
  datatype Reply = FromHandler(call: nat, payload: nat) | DuplicateId

  datatype Message = Progress(id: Id) | Answer(id: Id, reply: Reply) | Invalid

  datatype StopReason = OutputTooLarge | BadLine | HelperFailed | Disposed

  datatype Outcome = Answered(reply: Reply) | Cancelled | WriteFailed | Closed(reason: StopReason)

  datatype Settlement = Settlement(id: Id, outcome: Outcome)

  datatype Sent = Call(id: Id) | CancelCall(id: Id)

  datatype Refusal = HelperClosed | RequestCancelled | TooManyRequests | InputTooLarge

  datatype Client = Client(pending: seq<Id>, nextId: Id, disposed: bool, settled: seq<Settlement>)

  const FRESH := Client([], 1, false, [])

  function Without(ids: seq<Id>, id: Id): seq<Id> {
    if ids == [] then [] else (if ids[0] == id then [] else [ids[0]]) + Without(ids[1..], id)
  }

  function AllSettled(ids: seq<Id>, outcome: Outcome): (r: seq<Settlement>)
    ensures |r| == |ids| && forall i :: 0 <= i < |ids| ==> r[i] == Settlement(ids[i], outcome)
  {
    seq(|ids|, i requires 0 <= i < |ids| => Settlement(ids[i], outcome))
  }

  function Settle(c: Client, id: Id, outcome: Outcome): Client {
    if id !in c.pending then c
    else c.(pending := Without(c.pending, id), settled := c.settled + [Settlement(id, outcome)])
  }

  function Stop(c: Client, reason: StopReason): Client {
    if c.disposed then c
    else c.(disposed := true, pending := [], settled := c.settled + AllSettled(c.pending, Closed(reason)))
  }

  function Request(c: Client, cancelled: bool, tooLarge: bool): (Client, Result<Id, Refusal>) {
    if c.disposed then (c, Err(HelperClosed))
    else if cancelled then (c, Err(RequestCancelled))
    else if |c.pending| >= MAX_PENDING_REQUESTS then (c, Err(TooManyRequests))
    else
      var d := c.(nextId := c.nextId + 1);
      if tooLarge then (d, Err(InputTooLarge)) else (d.(pending := d.pending + [c.nextId]), Ok(c.nextId))
  }

  function CancelNotes(c: Client, id: Id, writable: bool): seq<Sent> {
    if id in c.pending && !c.disposed && writable then [CancelCall(id)] else []
  }

  function Accept(c: Client, message: Message): Client {
    match message
    case Invalid => Stop(c, BadLine)
    case Progress(_) => c
    case Answer(id, reply) => Settle(c, id, Answered(reply))
  }

  // --------------------------------------------------------------------- framing

  function NewlineAt(b: seq<Byte>): (r: Option<nat>)
    ensures match r
      case None => NEWLINE !in b
      case Some(i) => i < |b| && b[i] == NEWLINE && forall k :: 0 <= k < i ==> b[k] != NEWLINE
  {
    if b == [] then None
    else if b[0] == NEWLINE then Some(0)
    else
      match NewlineAt(b[1..])
      case None => None
      case Some(i) => Some(i + 1)
  }

  /** The client, the bytes not yet handed on, and the lines handed on so far. */
  datatype Stream = Stream(client: Client, buffer: seq<Byte>, handed: seq<Line>)

  function HandOn(s: Stream, line: Line, parse: Line -> Message): Stream {
    if line == [] then s else s.(client := Accept(s.client, parse(line)), handed := s.handed + [line])
  }

  function Consume(s: Stream, parse: Line -> Message): Stream
    decreases |s.buffer|
  {
    match NewlineAt(s.buffer)
    case None => if |s.buffer| > MAX_OUTPUT_BYTES then s.(client := Stop(s.client, OutputTooLarge)) else s
    case Some(newline) =>
      if newline > MAX_OUTPUT_BYTES then s.(client := Stop(s.client, OutputTooLarge))
      else
        var t := HandOn(s.(buffer := s.buffer[newline + 1..]), s.buffer[..newline], parse);
        if t.client.disposed then t else Consume(t, parse)
  }

  function Feed(s: Stream, chunk: seq<Byte>, parse: Line -> Message): Stream {
    Consume(s.(buffer := s.buffer + chunk), parse)
  }

  /** Chunks arrive one by one until the client stops. */
  function FeedAll(s: Stream, chunks: seq<seq<Byte>>, parse: Line -> Message): Stream
    decreases |chunks|
  {
    if chunks == [] || s.client.disposed then s else FeedAll(Feed(s, chunks[0], parse), chunks[1..], parse)
  }

  function Joined(chunks: seq<seq<Byte>>): seq<Byte> {
    if chunks == [] then [] else chunks[0] + Joined(chunks[1..])
  }

  /** The client runs and waits for more of a line that is not too long yet. */
  ghost predicate Waiting(s: Stream) {
    !s.client.disposed && NEWLINE !in s.buffer && |s.buffer| <= MAX_OUTPUT_BYTES
  }

  ghost predicate SameSoFar(a: Stream, b: Stream) {
    a.client == b.client && a.handed == b.handed && (!a.client.disposed ==> a.buffer == b.buffer)
  }

  lemma NewlineAtPrefix(x: seq<Byte>, y: seq<Byte>)
    ensures match NewlineAt(x)
      case Some(i) => NewlineAt(x + y) == Some(i)
      case None => NewlineAt(x + y).Some? ==> NewlineAt(x + y).value >= |x|
  {
    var z := x + y;
    assert forall k :: 0 <= k < |x| ==> z[k] == x[k];
  }

  /** Whatever follows a stretch of input, the stretch has been dealt with already. */
  lemma {:induction false} ConsumeInTwo(s: Stream, more: seq<Byte>, parse: Line -> Message)
    requires !s.client.disposed
    ensures var t := Consume(s, parse);
      if t.client.disposed then SameSoFar(t, Consume(s.(buffer := s.buffer + more), parse))
      else Waiting(t) && Consume(t.(buffer := t.buffer + more), parse) == Consume(s.(buffer := s.buffer + more), parse)
    decreases |s.buffer|
  {
    hide NewlineAt, Accept;
    NewlineAtPrefix(s.buffer, more);
    match NewlineAt(s.buffer)
    case None =>
    case Some(newline) =>
      var all := s.buffer + more;
      assert all[..newline] == s.buffer[..newline] && all[newline + 1..] == s.buffer[newline + 1..] + more;
      if newline <= MAX_OUTPUT_BYTES {
        var t := HandOn(s.(buffer := s.buffer[newline + 1..]), s.buffer[..newline], parse);
        assert HandOn(s.(buffer := all[newline + 1..]), all[..newline], parse) == t.(buffer := t.buffer + more);
        if !t.client.disposed { ConsumeInTwo(t, more, parse); }
      }
  }

  lemma FeedInTwo(s: Stream, chunk: seq<Byte>, more: seq<Byte>, parse: Line -> Message)
    requires !s.client.disposed
    ensures var t := Feed(s, chunk, parse);
      if t.client.disposed then SameSoFar(t, Feed(s, chunk + more, parse))
      else Waiting(t) && Feed(t, more, parse) == Feed(s, chunk + more, parse)
  {
    ConsumeInTwo(s.(buffer := s.buffer + chunk), more, parse);
    assert s.buffer + chunk + more == s.buffer + (chunk + more);
  }

  lemma NothingToConsume(s: Stream, parse: Line -> Message)
    requires Waiting(s)
    ensures Feed(s, [], parse) == s
  {
    assert s.buffer + [] == s.buffer;
    assert NewlineAt(s.buffer).None?;
  }

  /** The lines handed on, what they do to the client, and whether and why it stops depend on
      the bytes only, not on the chunks. */
  lemma {:induction false} ChunksDoNotShow(s: Stream, chunks: seq<seq<Byte>>, parse: Line -> Message)
    requires Waiting(s)
    ensures SameSoFar(FeedAll(s, chunks, parse), Feed(s, Joined(chunks), parse))
    decreases |chunks|
  {
    if chunks == [] {
      NothingToConsume(s, parse);
    } else {
      var t := Feed(s, chunks[0], parse);
      FeedInTwo(s, chunks[0], Joined(chunks[1..]), parse);
      if t.client.disposed {
        assert FeedAll(t, chunks[1..], parse) == t;
      } else {
        ChunksDoNotShow(t, chunks[1..], parse);
      }
    }
  }

  function Framed(lines: seq<Line>): seq<Byte> {
    if lines == [] then [] else lines[0] + [NEWLINE] + Framed(lines[1..])
  }

  predicate Sendable(line: Line) {
    line != [] && NEWLINE !in line && |line| <= MAX_OUTPUT_BYTES
  }

  function AcceptAll(c: Client, lines: seq<Line>, parse: Line -> Message): Client
    decreases |lines|
  {
    if lines == [] then c else AcceptAll(Accept(c, parse(lines[0])), lines[1..], parse)
  }

  lemma FirstLine(line: Line, rest: seq<Byte>)
    requires NEWLINE !in line
    ensures var b := line + [NEWLINE] + rest;
      NewlineAt(b) == Some(|line|) && b[..|line|] == line && b[|line| + 1..] == rest
  {
    var b := line + [NEWLINE] + rest;
    assert b[|line|] == NEWLINE;
    assert forall k :: 0 <= k < |line| ==> b[k] == line[k];
  }

  lemma FirstLineIsHandedOn(s: Stream, line: Line, rest: seq<Byte>, parse: Line -> Message)
    requires !s.client.disposed && s.buffer == line + [NEWLINE] + rest && Sendable(line) && parse(line) != Invalid
    ensures var t := Stream(Accept(s.client, parse(line)), rest, s.handed + [line]);
      !t.client.disposed && Consume(s, parse) == Consume(t, parse)
  {
    FirstLine(line, rest);
    var t := Stream(Accept(s.client, parse(line)), rest, s.handed + [line]);
    assert HandOn(s.(buffer := rest), line, parse) == t;
  }

  lemma {:induction false} FramedIsHandedOn(s: Stream, lines: seq<Line>, parse: Line -> Message)
    requires !s.client.disposed && s.buffer == Framed(lines)
    requires forall l :: l in lines ==> Sendable(l) && parse(l) != Invalid
    ensures Consume(s, parse) == Stream(AcceptAll(s.client, lines, parse), [], s.handed + lines)
    decreases |lines|
  {
    if lines == [] {
      assert s.handed + lines == s.handed;
    } else {
      var line, rest := lines[0], lines[1..];
      assert line in lines;
      var t := Stream(Accept(s.client, parse(line)), Framed(rest), s.handed + [line]);
      FirstLineIsHandedOn(s, line, Framed(rest), parse);
      FramedIsHandedOn(t, rest, parse);
      HandedInOrder(s.handed, lines);
    }
  }

  lemma HandedInOrder(handed: seq<Line>, lines: seq<Line>)
    requires lines != []
    ensures handed + [lines[0]] + lines[1..] == handed + lines
  {
  }

  /** Lines written by the helper arrive, each once and in order, however the bytes are cut. */
  lemma LinesArrive(s: Stream, lines: seq<Line>, chunks: seq<seq<Byte>>, parse: Line -> Message)
    requires Waiting(s) && s.buffer == [] && Joined(chunks) == Framed(lines)
    requires forall l :: l in lines ==> Sendable(l) && parse(l) != Invalid
    ensures FeedAll(s, chunks, parse) == Stream(AcceptAll(s.client, lines, parse), [], s.handed + lines)
  {
    ChunksDoNotShow(s, chunks, parse);
    assert s.buffer + Joined(chunks) == Framed(lines);
    FramedIsHandedOn(s.(buffer := Framed(lines)), lines, parse);
    AcceptAllRuns(s.client, lines, parse);
  }

  lemma {:induction false} AcceptAllRuns(c: Client, lines: seq<Line>, parse: Line -> Message)
    requires !c.disposed && forall l :: l in lines ==> parse(l) != Invalid
    ensures !AcceptAll(c, lines, parse).disposed
    decreases |lines|
  {
    if lines != [] {
      assert lines[0] in lines;
      AcceptAllRuns(Accept(c, parse(lines[0])), lines[1..], parse);
    }
  }

  /** What the client is handed, and whether it still runs, after complete lines and more bytes. */
  lemma {:induction false} LinesThen(
      s: Stream, lines: seq<Line>, rest: seq<Byte>, parse: Line -> Message)
    requires !s.client.disposed && s.buffer == Framed(lines) + rest
    requires forall l :: l in lines ==> Sendable(l) && parse(l) != Invalid
    ensures var t := Stream(AcceptAll(s.client, lines, parse), rest, s.handed + lines);
      !t.client.disposed && Consume(s, parse) == Consume(t, parse)
    decreases |lines|
  {
    if lines == [] {
      assert s.handed + lines == s.handed && Framed(lines) + rest == rest;
    } else {
      var line, more := lines[0], lines[1..];
      assert line in lines;
      var t := Stream(Accept(s.client, parse(line)), Framed(more) + rest, s.handed + [line]);
      assert s.buffer == line + [NEWLINE] + (Framed(more) + rest);
      FirstLineIsHandedOn(s, line, Framed(more) + rest, parse);
      LinesThen(t, more, rest, parse);
      HandedInOrder(s.handed, lines);
    }
  }

  /** However the bytes are cut: the first line that is not a message stops the client, after the lines before it. */
  lemma BadLineStops(
      s: Stream, lines: seq<Line>, bad: Line, rest: seq<Byte>, chunks: seq<seq<Byte>>, parse: Line -> Message)
    requires Waiting(s) && s.buffer == [] && Joined(chunks) == Framed(lines) + (bad + [NEWLINE] + rest)
    requires forall l :: l in lines ==> Sendable(l) && parse(l) != Invalid
    requires Sendable(bad) && parse(bad) == Invalid
    ensures var t := FeedAll(s, chunks, parse);
      t.client == Stop(AcceptAll(s.client, lines, parse), BadLine) && t.handed == s.handed + lines + [bad]
  {
    hide NewlineAt;
    ChunksDoNotShow(s, chunks, parse);
    assert s.buffer + Joined(chunks) == Joined(chunks);
    LinesThen(s.(buffer := Joined(chunks)), lines, bad + [NEWLINE] + rest, parse);
    FirstLine(bad, rest);
  }

  lemma NoEarlyNewline(b: seq<Byte>)
    requires |b| > MAX_OUTPUT_BYTES && NEWLINE !in b[..MAX_OUTPUT_BYTES + 1]
    ensures NewlineAt(b).Some? ==> NewlineAt(b).value > MAX_OUTPUT_BYTES
  {
    var first := b[..MAX_OUTPUT_BYTES + 1];
    assert b == first + b[MAX_OUTPUT_BYTES + 1..];
    NewlineAtPrefix(first, b[MAX_OUTPUT_BYTES + 1..]);
  }

  /** And so does a line longer than the limit, whether or not its end has come. */
  lemma LongLineStops(
      s: Stream, lines: seq<Line>, long: seq<Byte>, chunks: seq<seq<Byte>>, parse: Line -> Message)
    requires Waiting(s) && s.buffer == [] && Joined(chunks) == Framed(lines) + long
    requires forall l :: l in lines ==> Sendable(l) && parse(l) != Invalid
    requires |long| > MAX_OUTPUT_BYTES && NEWLINE !in long[..MAX_OUTPUT_BYTES + 1]
    ensures var t := FeedAll(s, chunks, parse);
      t.client == Stop(AcceptAll(s.client, lines, parse), OutputTooLarge) && t.handed == s.handed + lines
  {
    hide NewlineAt;
    ChunksDoNotShow(s, chunks, parse);
    assert s.buffer + Joined(chunks) == Joined(chunks);
    LinesThen(s.(buffer := Joined(chunks)), lines, long, parse);
    NoEarlyNewline(long);
  }

  /** Empty lines are passed over. */
  lemma EmptyLineIsSkipped(s: Stream, rest: seq<Byte>, parse: Line -> Message)
    requires !s.client.disposed && s.buffer == [NEWLINE] + rest
    ensures Consume(s, parse) == Consume(s.(buffer := rest), parse)
  {
    hide NewlineAt;
    FirstLine([], rest);
    assert [] + [NEWLINE] + rest == s.buffer;
  }

  // ------------------------------------------------------------------- the class

  class HelperClient {
    const parse: Line -> Message
    var pending: seq<Id>
    var nextID: Id
    var disposed: bool
    var stdoutBuffer: seq<Byte>
    ghost var settled: seq<Settlement>
    ghost var handed: seq<Line>
    ghost var sent: seq<Sent>

    ghost function Now(): Client
      reads this
    {
      Client(pending, nextID, disposed, settled)
    }

    ghost function Reading(): Stream
      reads this
    {
      Stream(Now(), stdoutBuffer, handed)
    }

    constructor (parse: Line -> Message)
      ensures Reading() == Stream(FRESH, [], []) && sent == [] && this.parse == parse
    {
      this.parse, pending, nextID, disposed, stdoutBuffer := parse, [], 1, false, [];
      settled, handed, sent := [], [], [];
    }

    /** request, up to the wait for its outcome. */
    method Issue(cancelled: bool, tooLarge: bool) returns (r: Result<Id, Refusal>)
      modifies `pending, `nextID, `sent
      ensures (Now(), r) == Request(old(Now()), cancelled, tooLarge)
      ensures sent == old(sent) + match r { case Ok(id) => [Call(id)] case Err(_) => [] }
    {
      if disposed { return Err(HelperClosed); }
      if cancelled { return Err(RequestCancelled); }
      if |pending| >= MAX_PENDING_REQUESTS { return Err(TooManyRequests); }
      var id := nextID;
      nextID := nextID + 1;
      if tooLarge { return Err(InputTooLarge); }
      pending := pending + [id];
      sent := sent + [Call(id)];
      return Ok(id);
    }

    method TakePending(id: Id) returns (taken: bool)
      modifies `pending
      ensures taken == (id in old(pending))
      ensures pending == if taken then Without(old(pending), id) else old(pending)
    {
      taken := id in pending;
      if taken { pending := Without(pending, id); }
    }

    /** The cancellation listener of one request. */
    method Cancel(id: Id, writable: bool)
      modifies `pending, `settled, `sent
      ensures Now() == Settle(old(Now()), id, Cancelled)
      ensures sent == old(sent) + CancelNotes(old(Now()), id, writable)
    {
      var taken := TakePending(id);
      if !taken { return; }
      if !disposed && writable { sent := sent + [CancelCall(id)]; }
      settled := settled + [Settlement(id, Cancelled)];
    }

    /** The write callback of one request, when the write failed. */
    method FailWrite(id: Id)
      modifies `pending, `settled
      ensures Now() == Settle(old(Now()), id, WriteFailed)
    {
      var taken := TakePending(id);
      if taken { settled := settled + [Settlement(id, WriteFailed)]; }
    }

    method RejectAll(reason: StopReason)
      modifies `pending, `settled
      ensures pending == [] && settled == old(settled) + AllSettled(old(pending), Closed(reason))
    {
      for i := 0 to |pending|
        invariant pending == old(pending)
        invariant settled == old(settled) + AllSettled(pending[..i], Closed(reason))
      {
        settled := settled + [Settlement(pending[i], Closed(reason))];
        assert AllSettled(pending[..i + 1], Closed(reason))
               == AllSettled(pending[..i], Closed(reason)) + [Settlement(pending[i], Closed(reason))];
      }
      assert pending[..|pending|] == pending;
      pending := [];
    }

    /** stopWithError, and dispose with reason Disposed. */
    method StopWithError(reason: StopReason)
      modifies `pending, `settled, `disposed
      ensures Now() == Stop(old(Now()), reason)
    {
      if disposed { return; }
      disposed := true;
      RejectAll(reason);
    }

    method AcceptLine(line: Line)
      modifies `pending, `settled, `disposed
      ensures Now() == Accept(old(Now()), parse(line))
    {
      match parse(line) {
        case Invalid => StopWithError(BadLine);
        case Progress(_) =>
        case Answer(id, reply) =>
          var taken := TakePending(id);
          if taken { settled := settled + [Settlement(id, Answered(reply))]; }
      }
    }

    method AcceptStdout(chunk: seq<Byte>)
      modifies this
      ensures Reading() == Feed(old(Reading()), chunk, parse)
      ensures sent == old(sent)
    {
      stdoutBuffer := stdoutBuffer + chunk;
      while true
        invariant Consume(Reading(), parse) == Feed(old(Reading()), chunk, parse)
        invariant sent == old(sent)
        decreases |stdoutBuffer|
      {
        var newline := NewlineAt(stdoutBuffer);
        if newline.None? { break; }
        if newline.value > MAX_OUTPUT_BYTES {
          StopWithError(OutputTooLarge);
          return;
        }
        var line := stdoutBuffer[..newline.value];
        stdoutBuffer := stdoutBuffer[newline.value + 1..];
        if |line| > 0 {
          AcceptLine(line);
          handed := handed + [line];
        }
        if disposed { return; }
      }
      if |stdoutBuffer| > MAX_OUTPUT_BYTES { StopWithError(OutputTooLarge); }
    }
  }
}
