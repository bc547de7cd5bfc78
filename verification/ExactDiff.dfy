/**
 * Selecting one file's patch from the output of a raw-and-patch diff (selectExactFileDiff,
 * parseRawFileChanges and patchHeaderStarts of internal/vscodehelper/search_diff.go).
 * Byte strings are strings.
 */
module ExactDiff {
  import opened Common

  const NUL := '\0'
  const HEADER := "diff --git "
  const GITLINK := "160000"

  datatype FileChange = FileChange(status: string, path: string, oldPath: string)

  datatype RawChange = RawChange(change: FileChange, patchCount: nat)

  datatype Malformed = NoBoundary | InvalidRecord | PathMissing | RenamePathsMissing | PatchCountDiffers

  // ---------------------------------------------------------------- raw records

  /** The pieces between NUL bytes; there is always one. */
  function Split(s: string): (r: seq<string>)
    ensures |r| >= 1
  {
    if s == "" then [""]
    else
      var rest := Split(s[1..]);
      if s[0] == NUL then [""] + rest else [[s[0]] + rest[0]] + rest[1..]
  }

  /** The first word of a text that begins with one. */
  function Word(s: string): (r: string)
    ensures |r| <= |s| && (s != "" && !IsGoSpace(s[0]) ==> r != "")
  {
    if s == "" || IsGoSpace(s[0]) then "" else [s[0]] + Word(s[1..])
  }

  function Fields(s: string): (r: seq<string>)
    ensures forall w :: w in r ==> w != ""
    decreases |s|
  {
    var t := SkipGoSpace(s);
    if t == "" then [] else [Word(t)] + Fields(t[|Word(t)|..])
  }

  predicate ValidStatus(status: string) {
    status != "" && status[0] in "ACDMRTUXB" && forall i :: 1 <= i < |status| ==> '0' <= status[i] <= '9'
  }

  predicate HasTwoPaths(status: string) {
    status != "" && (status[0] == 'R' || status[0] == 'C')
  }

  /** A blob that becomes a gitlink, or a gitlink a blob, is one record with two patches. */
  function PatchCount(status: string, oldMode: string, newMode: string): nat {
    if status != "" && status[0] == 'T' && (oldMode == GITLINK || newMode == GITLINK) then 2 else 1
  }

  predicate ValidRecord(fields: seq<string>) {
    |fields| == 5 && fields[0] != "" && fields[0][0] == ':' && ValidStatus(fields[4])
  }

  function ParseTokens(tokens: seq<string>): Result<seq<RawChange>, Malformed>
    decreases |tokens|
  {
    if tokens == [] then Ok([])
    else if tokens[0] == "" then ParseTokens(tokens[1..])
    else
      var fields := Fields(tokens[0]);
      if !ValidRecord(fields) then Err(InvalidRecord)
      else
        var status, count := fields[4], PatchCount(fields[4], fields[0][1..], fields[1]);
        if |tokens| < 2 then Err(PathMissing)
        else if HasTwoPaths(status) then
          if |tokens| < 3 then Err(RenamePathsMissing)
          else Prepend(RawChange(FileChange(status, tokens[2], tokens[1]), count), ParseTokens(tokens[3..]))
        else Prepend(RawChange(FileChange(status, tokens[1], ""), count), ParseTokens(tokens[2..]))
  }

  function Prepend(change: RawChange, rest: Result<seq<RawChange>, Malformed>): Result<seq<RawChange>, Malformed> {
    match rest
    case Ok(changes) => Ok([change] + changes)
    case Err(e) => Err(e)
  }

  /** What was read before, with what is read after it. */
  function Appended(before: seq<RawChange>, rest: Result<seq<RawChange>, Malformed>): Result<seq<RawChange>, Malformed>
  {
    match rest
    case Ok(changes) => Ok(before + changes)
    case Err(e) => Err(e)
  }

  method ParseRawFileChanges(raw: string) returns (r: Result<seq<RawChange>, Malformed>)
    ensures r == ParseTokens(Split(raw))
  {
    var tokens := Split(raw);
    var changes: seq<RawChange> := [];
    var index := 0;
    assert tokens[0..] == tokens;
    assert ParseTokens(tokens).Ok? ==> [] + ParseTokens(tokens).value == ParseTokens(tokens).value;
    while index < |tokens|
      invariant index <= |tokens|
      invariant Appended(changes, ParseTokens(tokens[index..])) == ParseTokens(tokens)
    {
      var here := tokens[index..];
      if |tokens[index]| == 0 {
        assert here[1..] == tokens[index + 1..];
        index := index + 1;
        continue;
      }
      var fields := Fields(tokens[index]);
      if !ValidRecord(fields) { return Err(InvalidRecord); }
      var status, count := fields[4], PatchCount(fields[4], fields[0][1..], fields[1]);
      if index + 1 >= |tokens| { return Err(PathMissing); }
      if HasTwoPaths(status) {
        if index + 2 >= |tokens| { return Err(RenamePathsMissing); }
        var change := RawChange(FileChange(status, tokens[index + 2], tokens[index + 1]), count);
        assert here[3..] == tokens[index + 3..];
        AppendedMoves(changes, change, ParseTokens(tokens[index + 3..]));
        changes, index := changes + [change], index + 3;
      } else {
        var change := RawChange(FileChange(status, tokens[index + 1], ""), count);
        assert here[2..] == tokens[index + 2..];
        AppendedMoves(changes, change, ParseTokens(tokens[index + 2..]));
        changes, index := changes + [change], index + 2;
      }
    }
    assert tokens[index..] == [];
    assert changes + [] == changes;
    return Ok(changes);
  }

  lemma AppendedMoves(before: seq<RawChange>, change: RawChange, rest: Result<seq<RawChange>, Malformed>)
    ensures Appended(before, Prepend(change, rest)) == Appended(before + [change], rest)
  {
    if rest.Ok? { assert before + ([change] + rest.value) == before + [change] + rest.value; }
  }

  // -------------------------------------------------------------- patch headers

  /** A line that begins a patch begins at p. */
  predicate HeaderAt(s: string, p: nat) {
    p < |s| && (p == 0 || s[p - 1] == '\n') && HEADER <= s[p..]
  }

  /** The places below n at which a patch begins, in order. */
  function HeadersBelow(s: string, n: nat): seq<nat> {
    if n == 0 then [] else HeadersBelow(s, n - 1) + if HeaderAt(s, n - 1) then [n - 1] else []
  }

  function HeaderStarts(s: string): seq<nat> {
    if HeaderAt(s, 0) then HeadersBelow(s, |s|) else []
  }

  /** Index: the first place at or after from where the text has this piece. */
  method Find(s: string, piece: string, from: nat) returns (r: Option<nat>)
    requires from <= |s|
    ensures match r
      case None => forall j :: from <= j <= |s| ==> !(piece <= s[j..])
      case Some(i) => from <= i <= |s| && piece <= s[i..] && forall j :: from <= j < i ==> !(piece <= s[j..])
  {
    for i := from to |s| + 1
      invariant forall j :: from <= j < i ==> !(piece <= s[j..])
    {
      if piece <= s[i..] { return Some(i); }
    }
    return None;
  }

  lemma HeaderAfterNewline(s: string, p: nat)
    requires 1 <= p <= |s|
    ensures HeaderAt(s, p) <==> ['\n'] + HEADER <= s[p - 1..]
  {
    var t := s[p - 1..];
    assert t[1..] == s[p..] && t[0] == s[p - 1];
    if ['\n'] + HEADER <= t {
      assert HEADER == t[1..][..|HEADER|];
    }
    if HeaderAt(s, p) {
      assert t[..|HEADER| + 1] == [t[0]] + t[1..][..|HEADER|];
    }
  }

  lemma {:induction false} NoHeadersBetween(s: string, a: nat, b: nat)
    requires a <= b && forall p: nat :: a <= p < b ==> !HeaderAt(s, p)
    ensures HeadersBelow(s, b) == HeadersBelow(s, a)
    decreases b
  {
    if a < b { NoHeadersBetween(s, a, b - 1); }
  }

  lemma NoHeadersYet(s: string)
    ensures HeadersBelow(s, 0) == []
  {
  }

  lemma NextHeader(s: string, p: nat)
    requires HeaderAt(s, p)
    ensures HeadersBelow(s, p + 1) == HeadersBelow(s, p) + [p]
  {
  }

  method PatchHeaderStarts(patches: string) returns (starts: seq<nat>)
    ensures starts == HeaderStarts(patches)
  {
    hide HeadersBelow;
    if |patches| == 0 || !(HEADER <= patches) {
      assert patches[0..] == patches;
      return [];
    }
    assert patches[0..] == patches;
    starts := [0];
    var offset := 1;
    NoHeadersYet(patches);
    NextHeader(patches, 0);
    while offset < |patches|
      invariant 1 <= offset <= |patches| && patches[offset - 1] != '\n'
      invariant starts == HeadersBelow(patches, offset)
      decreases |patches| - offset
    {
      var newline := Find(patches, ['\n'] + HEADER, offset);
      forall p: nat | offset <= p < (if newline.Some? then newline.value + 1 else |patches|)
        ensures !HeaderAt(patches, p)
      {
        HeaderAfterNewline(patches, p);
      }
      if newline.None? {
        NoHeadersBetween(patches, offset, |patches|);
        return;
      }
      var start := newline.value + 1;
      assert |patches[newline.value..]| >= 12;
      HeaderAfterNewline(patches, start);
      NoHeadersBetween(patches, offset, start);
      assert patches[start] == patches[start..][0] == 'd';
      NextHeader(patches, start);
      starts := starts + [start];
      offset := start + 1;
    }
  }

  // ------------------------------------------------------------------ selection

  function TrimNewlines(s: string): string {
    if s != "" && s[|s| - 1] == '\n' then TrimNewlines(s[..|s| - 1]) else s
  }

  function TotalPatches(changes: seq<RawChange>, n: nat): nat
    requires n <= |changes|
  {
    if n == 0 then 0 else TotalPatches(changes, n - 1) + changes[n - 1].patchCount
  }

  lemma {:induction false} StartsIncrease(s: string, n: nat)
    requires n <= |s|
    ensures forall i, j :: 0 <= i < j < |HeadersBelow(s, n)| ==> HeadersBelow(s, n)[i] < HeadersBelow(s, n)[j]
    ensures forall i :: 0 <= i < |HeadersBelow(s, n)| ==> HeadersBelow(s, n)[i] < n
  {
    if n > 0 { StartsIncrease(s, n - 1); }
  }

  lemma {:induction false} TotalsGrow(changes: seq<RawChange>, i: nat, n: nat)
    requires i <= n <= |changes|
    ensures TotalPatches(changes, i) <= TotalPatches(changes, n)
    decreases n
  {
    if i < n { TotalsGrow(changes, i, n - 1); }
  }

  ghost predicate EveryChangeHasPatches(changes: seq<RawChange>) {
    forall i :: 0 <= i < |changes| ==> changes[i].patchCount >= 1
  }

  lemma {:induction false} ParsedHavePatches(tokens: seq<string>)
    ensures ParseTokens(tokens).Ok? ==> EveryChangeHasPatches(ParseTokens(tokens).value)
    decreases |tokens|
  {
    if tokens != [] {
      ParsedHavePatches(tokens[1..]);
      if |tokens| >= 2 { ParsedHavePatches(tokens[2..]); }
      if |tokens| >= 3 { ParsedHavePatches(tokens[3..]); }
    }
  }

  function PatchEnd(patches: string, starts: seq<nat>, k: nat): nat {
    if k < |starts| then starts[k] else |patches|
  }

  /** The first change with this status and these paths. */
  function MatchIndex(changes: seq<RawChange>, selected: FileChange): (r: Option<nat>)
    ensures match r
      case None => forall j :: 0 <= j < |changes| ==> changes[j].change != selected
      case Some(i) =>
        i < |changes| && changes[i].change == selected && forall j :: 0 <= j < i ==> changes[j].change != selected
  {
    if changes == [] then None
    else if changes[0].change == selected then Some(0)
    else
      match MatchIndex(changes[1..], selected)
      case None => None
      case Some(i) => Some(i + 1)
  }

  /** Its own patches, without the newlines at their end. */
  function SelectPatch(
      changes: seq<RawChange>, patches: string, selected: FileChange): Result<Option<string>, Malformed>
    requires EveryChangeHasPatches(changes)
  {
    var starts := HeaderStarts(patches);
    if TotalPatches(changes, |changes|) != |starts| then Err(PatchCountDiffers)
    else
      match MatchIndex(changes, selected)
      case None => Ok(None)
      case Some(i) =>
        TotalsGrow(changes, i + 1, |changes|);
        StartsIncrease(patches, |patches|);
        var first, next := TotalPatches(changes, i), TotalPatches(changes, i + 1);
        Ok(Some(TrimNewlines(patches[starts[first]..PatchEnd(patches, starts, next)])))
  }

  predicate DoubleNul(s: string, i: nat) {
    i + 2 <= |s| && s[i] == NUL && s[i + 1] == NUL
  }

  /** The first double NUL: where the raw records end. */
  function Boundary(s: string): (r: Option<nat>)
    ensures match r
      case None => forall i: nat :: !DoubleNul(s, i)
      case Some(i) => DoubleNul(s, i) && forall j: nat :: j < i ==> !DoubleNul(s, j)
  {
    if DoubleNul(s, 0) then Some(0)
    else if s == "" then None
    else
      assert forall i: nat :: i > 0 ==> (DoubleNul(s, i) <==> DoubleNul(s[1..], i - 1));
      match Boundary(s[1..])
      case None => None
      case Some(i) => Some(i + 1)
  }

  function Select(output: string, selected: FileChange): Result<Option<string>, Malformed> {
    match Boundary(output)
    case None => if SkipGoSpace(output) == "" then Ok(None) else Err(NoBoundary)
    case Some(i) =>
      ParsedHavePatches(Split(output[..i + 1]));
      SelectFromRead(ParseTokens(Split(output[..i + 1])), output[i + 2..], selected)
  }

  function SelectFromRead(
      parsed: Result<seq<RawChange>, Malformed>, patches: string,
      selected: FileChange): Result<Option<string>, Malformed>
    requires parsed.Ok? ==> EveryChangeHasPatches(parsed.value)
  {
    match parsed
    case Err(e) => Err(e)
    case Ok(changes) => SelectPatch(changes, patches, selected)
  }

  lemma DoubleNulIsPiece(s: string, i: nat)
    requires i <= |s|
    ensures DoubleNul(s, i) <==> [NUL, NUL] <= s[i..]
  {
    var t := s[i..];
    if |t| >= 2 {
      assert t[0] == s[i] && t[1] == s[i + 1];
      assert t[..2] == [t[0], t[1]];
    }
  }

  method SelectExactFileDiff(output: string, selected: FileChange) returns (r: Result<Option<string>, Malformed>)
    ensures r == Select(output, selected)
  {
    var separator := Find(output, [NUL, NUL], 0);
    forall i: nat | i <= |output| ensures DoubleNul(output, i) <==> [NUL, NUL] <= output[i..] {
      DoubleNulIsPiece(output, i);
    }
    if separator.None? {
      if SkipGoSpace(output) == "" { return Ok(None); }
      return Err(NoBoundary);
    }
    assert DoubleNul(output, separator.value);
    assert Boundary(output) == Some(separator.value);
    var raw, patches := output[..separator.value + 1], output[separator.value + 2..];
    var parsed := ParseRawFileChanges(raw);
    if parsed.Err? { return Err(parsed.error); }
    ParsedHavePatches(Split(raw));
    r := SelectFromChanges(parsed.value, patches, selected);
  }

  method SelectFromChanges(changes: seq<RawChange>, patches: string, selected: FileChange)
    returns (r: Result<Option<string>, Malformed>)
    requires EveryChangeHasPatches(changes)
    ensures r == SelectPatch(changes, patches, selected)
  {
    var starts := PatchHeaderStarts(patches);
    var expected := 0;
    for i := 0 to |changes|
      invariant expected == TotalPatches(changes, i)
    {
      expected := expected + changes[i].patchCount;
    }
    if expected != |starts| { return Err(PatchCountDiffers); }
    var patchIndex := 0;
    for i := 0 to |changes|
      invariant patchIndex == TotalPatches(changes, i)
      invariant forall j :: 0 <= j < i ==> changes[j].change != selected
    {
      var next := patchIndex + changes[i].patchCount;
      if changes[i].change != selected {
        patchIndex := next;
        continue;
      }
      TotalsGrow(changes, i + 1, |changes|);
      StartsIncrease(patches, |patches|);
      var end := if next < |starts| then starts[next] else |patches|;
      assert MatchIndex(changes, selected) == Some(i);
      return Ok(Some(TrimNewlines(patches[starts[patchIndex]..end])));
    }
    return Ok(None);
  }

  // ---------------------------------------------------- what Git writes, and back

  /** One change as Git writes it: a raw record and its patches. */
  datatype Change = Change(
    oldMode: string,
    newMode: string,
    oldId: string,
    newId: string,
    change: FileChange,
    patches: seq<string>)

  predicate IsWord(s: string) {
    s != "" && forall i :: 0 <= i < |s| ==> !IsGoSpace(s[i]) && s[i] != NUL
  }

  predicate IsPath(s: string) {
    s != "" && NUL !in s
  }

  /** A patch begins with its header, ends its last line, and has no header of another one inside. */
  ghost predicate IsPatch(s: string) {
    && HeaderAt(s, 0) && s[|s| - 1] == '\n'
    && forall p: nat :: 0 < p < |s| ==> !HeaderAt(s, p)
  }

  /** A letter Git knows, and perhaps a score. */
  predicate IsStatus(status: string) {
    && status != "" && status[0] in {'A', 'B', 'C', 'D', 'M', 'R', 'T', 'U', 'X'}
    && forall i :: 1 <= i < |status| ==> status[i] in "0123456789"
  }

  /** A rename or copy has two paths. */
  predicate IsRename(status: string) {
    status != "" && status[0] in {'R', 'C'}
  }

  /** A blob that becomes a gitlink, or a gitlink a blob. */
  predicate ChangesKind(c: Change) {
    c.change.status != "" && c.change.status[0] == 'T' && "160000" in [c.oldMode, c.newMode]
  }

  ghost predicate WellFormed(c: Change) {
    && IsWord(c.oldMode) && IsWord(c.newMode) && IsWord(c.oldId) && IsWord(c.newId)
    && IsStatus(c.change.status) && IsPath(c.change.path)
    && (if IsRename(c.change.status) then IsPath(c.change.oldPath) else c.change.oldPath == "")
    && |c.patches| == (if ChangesKind(c) then 2 else 1)
    && forall i :: 0 <= i < |c.patches| ==> IsPatch(c.patches[i])
  }

  function Record(c: Change): string {
    [':'] + (c.oldMode + ([' '] + (c.newMode + ([' '] + (c.oldId + ([' '] + (c.newId + ([' '] + c.change.status))))))))
  }

  function TokensOf(c: Change): seq<string> {
    [Record(c)] + (if IsRename(c.change.status) then [c.change.oldPath, c.change.path] else [c.change.path])
  }

  function AllTokens(cs: seq<Change>): seq<string> {
    if cs == [] then [] else TokensOf(cs[0]) + AllTokens(cs[1..])
  }

  function Terminated(tokens: seq<string>): string {
    if tokens == [] then "" else tokens[0] + ([NUL] + Terminated(tokens[1..]))
  }

  function Joined(parts: seq<string>): string {
    if parts == [] then "" else parts[0] + Joined(parts[1..])
  }

  function AllPatches(cs: seq<Change>): seq<string> {
    if cs == [] then [] else cs[0].patches + AllPatches(cs[1..])
  }

  function Written(cs: seq<Change>): string {
    Terminated(AllTokens(cs)) + ([NUL] + Joined(AllPatches(cs)))
  }

  function RawOf(c: Change): RawChange {
    RawChange(c.change, if ChangesKind(c) then 2 else 1)
  }

  function RawsOf(cs: seq<Change>): (r: seq<RawChange>)
    ensures |r| == |cs| && forall i :: 0 <= i < |cs| ==> r[i] == RawOf(cs[i])
  {
    seq(|cs|, i requires 0 <= i < |cs| => RawOf(cs[i]))
  }

  ghost predicate AreTokens(tokens: seq<string>) {
    forall i :: 0 <= i < |tokens| ==> IsPath(tokens[i])
  }

  lemma {:induction false} SplitToken(t: string, rest: string)
    requires NUL !in t
    ensures Split(t + ([NUL] + rest)) == [t] + Split(rest)
  {
    var s := t + ([NUL] + rest);
    if t == "" {
      assert s[1..] == rest;
    } else {
      assert s[1..] == t[1..] + ([NUL] + rest) && s[0] == t[0];
      SplitToken(t[1..], rest);
      assert ([t[1..]] + Split(rest))[1..] == Split(rest);
      assert [t[0]] + t[1..] == t;
    }
  }

  lemma {:induction false} SplitTerminated(tokens: seq<string>)
    requires AreTokens(tokens)
    ensures Split(Terminated(tokens)) == tokens + [""]
  {
    if tokens != [] {
      SplitToken(tokens[0], Terminated(tokens[1..]));
      assert AreTokens(tokens[1..]);
      SplitTerminated(tokens[1..]);
      assert [tokens[0]] + (tokens[1..] + [""]) == tokens + [""];
    }
  }

  /** Behind a token no double NUL begins before the one that follows it. */
  lemma NoDoubleNul(t: string, tail: string)
    requires IsPath(t) && tail != "" && tail[0] == NUL
    ensures forall i: nat :: i < |t| ==> !DoubleNul(t + tail, i)
    ensures forall i: nat :: DoubleNul(t + tail, |t| + i) <==> DoubleNul(tail, i)
  {
    var s := t + tail;
    assert forall i :: 0 <= i < |t| ==> s[i] == t[i] && t[i] in t;
    assert forall i :: 0 <= i < |tail| ==> s[|t| + i] == tail[i];
  }

  lemma BoundaryAtEnd(t: string, more: string)
    requires IsPath(t) && more != "" && more[0] == NUL
    ensures Boundary(t + ([NUL] + more)) == Some(|t|)
  {
    hide Boundary;
    var tail := [NUL] + more;
    NoDoubleNul(t, tail);
    assert tail[1] == NUL && DoubleNul(tail, 0);
    FirstIs(t + tail, |t|, |t|, tail);
  }

  lemma BoundaryBehind(t: string, more: string, k: nat)
    requires IsPath(t) && more != "" && more[0] != NUL
    requires DoubleNul(more, k) && forall j: nat :: j < k ==> !DoubleNul(more, j)
    ensures Boundary(t + ([NUL] + more)) == Some(|t| + 1 + k)
  {
    hide Boundary;
    var tail := [NUL] + more;
    NoDoubleNul(t, tail);
    assert forall i: nat :: DoubleNul(tail, i + 1) <==> DoubleNul(more, i);
    assert tail[1] == more[0] && !DoubleNul(tail, 0);
    forall j: nat | j < k + 1 ensures !DoubleNul(tail, j) {
      if j > 0 { assert DoubleNul(tail, (j - 1) + 1) <==> DoubleNul(more, j - 1); }
    }
    FirstIs(t + tail, |t| + 1 + k, |t|, tail);
  }

  lemma {:induction false} BoundaryOfTokens(tokens: seq<string>, patches: string)
    requires AreTokens(tokens) && tokens != []
    ensures Boundary(Terminated(tokens) + ([NUL] + patches)) == Some(|Terminated(tokens)| - 1)
  {
    var t, rest := tokens[0], Terminated(tokens[1..]);
    var more := rest + ([NUL] + patches);
    assert Terminated(tokens) + ([NUL] + patches) == t + ([NUL] + more);
    if |tokens| == 1 {
      BoundaryAtEnd(t, more);
    } else {
      assert AreTokens(tokens[1..]);
      BoundaryOfTokens(tokens[1..], patches);
      assert more[0] == tokens[1][0] && tokens[1][0] in tokens[1];
      BoundaryBehind(t, more, |rest| - 1);
    }
  }

  lemma FirstIs(s: string, i: nat, n: nat, tail: string)
    requires i >= n && DoubleNul(tail, i - n) && (forall j: nat :: j < i - n ==> !DoubleNul(tail, j))
    requires forall j: nat :: j < n ==> !DoubleNul(s, j)
    requires forall j: nat :: DoubleNul(s, n + j) <==> DoubleNul(tail, j)
    ensures Boundary(s) == Some(i)
  {
    assert DoubleNul(s, n + (i - n));
    forall j: nat | j < i ensures !DoubleNul(s, j) {
      if j >= n { assert DoubleNul(s, n + (j - n)) <==> DoubleNul(tail, j - n); }
    }
  }

  lemma {:induction false} WordRead(w: string, rest: string)
    requires IsWord(w) && (rest == "" || IsGoSpace(rest[0]))
    ensures Word(w + rest) == w
    decreases |w|
  {
    var s := w + rest;
    assert s[1..] == w[1..] + rest && s[0] == w[0];
    if |w| == 1 {
      assert s[1..] == rest && Word(rest) == "";
      assert [w[0]] + "" == w;
    } else {
      WordRead(w[1..], rest);
      assert [w[0]] + w[1..] == w;
    }
  }

  /** A word, then a space and more words. */
  lemma FieldsRead(w: string, rest: string)
    requires IsWord(w)
    ensures Fields(w + ([' '] + rest)) == [w] + Fields(rest)
  {
    var tail := [' '] + rest;
    var s := w + tail;
    assert s[0] == w[0];
    WordRead(w, tail);
    assert s[|w|..] == tail;
    assert tail[1..] == rest;
    SkipsSpace(rest);
  }

  lemma SkipsSpace(rest: string)
    ensures SkipGoSpace([' '] + rest) == SkipGoSpace(rest)
    ensures Fields([' '] + rest) == Fields(rest)
  {
    assert ([' '] + rest)[1..] == rest;
  }

  lemma LastField(w: string)
    requires IsWord(w)
    ensures Fields(w) == [w]
  {
    assert w + "" == w;
    WordRead(w, "");
    assert w[|w|..] == "";
    assert SkipGoSpace(w) == w;
    assert Fields("") == [];
  }

  lemma StatusIsWord(status: string)
    requires ValidStatus(status)
    ensures IsWord(status)
  {
    forall i | 0 <= i < |status| ensures !IsGoSpace(status[i]) && status[i] != NUL {
      assert i == 0 || '0' <= status[i] <= '9';
    }
  }

  lemma FiveFields(a: string, b: string, c: string, d: string, e: string)
    requires IsWord(a) && IsWord(b) && IsWord(c) && IsWord(d) && IsWord(e)
    ensures Fields(a + ([' '] + (b + ([' '] + (c + ([' '] + (d + ([' '] + e)))))))) == [a, b, c, d, e]
  {
    var x3 := d + ([' '] + e);
    var x2 := c + ([' '] + x3);
    FourFields(b, c, d, e);
    FieldsRead(a, b + ([' '] + x2));
    assert [a] + [b, c, d, e] == [a, b, c, d, e];
  }

  lemma FourFields(b: string, c: string, d: string, e: string)
    requires IsWord(b) && IsWord(c) && IsWord(d) && IsWord(e)
    ensures Fields(b + ([' '] + (c + ([' '] + (d + ([' '] + e)))))) == [b, c, d, e]
  {
    ThreeFields(c, d, e);
    FieldsRead(b, c + ([' '] + (d + ([' '] + e))));
    assert [b] + [c, d, e] == [b, c, d, e];
  }

  lemma ThreeFields(c: string, d: string, e: string)
    requires IsWord(c) && IsWord(d) && IsWord(e)
    ensures Fields(c + ([' '] + (d + ([' '] + e)))) == [c, d, e]
  {
    LastField(e);
    FieldsRead(d, e);
    FieldsRead(c, d + ([' '] + e));
    assert [c] + ([d] + [e]) == [c, d, e];
  }

  lemma FiveWords(a: string, b: string, c: string, d: string, e: string)
    requires IsWord(a) && IsWord(b) && IsWord(c) && IsWord(d) && IsWord(e)
    ensures IsPath(a + ([' '] + (b + ([' '] + (c + ([' '] + (d + ([' '] + e))))))))
  {
    var x3 := d + ([' '] + e);
    var x2 := c + ([' '] + x3);
    assert NUL !in e;
    NoNulInside(d, e);
    NoNulInside(c, x3);
    NoNulInside(b, x2);
    NoNulInside(a, b + ([' '] + x2));
  }

  lemma RecordRead(c: Change)
    requires WellFormed(c)
    ensures Fields(Record(c)) == [[':'] + c.oldMode, c.newMode, c.oldId, c.newId, c.change.status]
    ensures IsPath(Record(c))
  {
    StatusIsWord(c.change.status);
    var first := [':'] + c.oldMode;
    assert IsWord(first);
    var rest := [' '] + (c.newMode + ([' '] + (c.oldId + ([' '] + (c.newId + ([' '] + c.change.status))))));
    assert Record(c) == first + rest;
    FiveFields(first, c.newMode, c.oldId, c.newId, c.change.status);
    FiveWords(first, c.newMode, c.oldId, c.newId, c.change.status);
  }

  lemma NoNulInside(a: string, b: string)
    requires IsWord(a) && NUL !in b
    ensures NUL !in a + ([' '] + b)
  {
    assert NUL !in a;
  }

  lemma {:induction false} AllAreTokens(cs: seq<Change>)
    requires forall i :: 0 <= i < |cs| ==> WellFormed(cs[i])
    ensures AreTokens(AllTokens(cs)) && (cs != [] ==> AllTokens(cs) != [])
  {
    if cs != [] {
      RecordRead(cs[0]);
      AllAreTokens(cs[1..]);
      assert AreTokens(TokensOf(cs[0]));
    }
  }

  lemma OneRecordRead(c: Change, record: string, rest: seq<string>)
    requires WellFormed(c) && record != ""
             && Fields(record) == [[':'] + c.oldMode, c.newMode, c.oldId, c.newId, c.change.status]
    ensures var paths := if IsRename(c.change.status) then [c.change.oldPath, c.change.path] else [c.change.path];
      ParseTokens([record] + (paths + rest)) == Prepend(RawOf(c), ParseTokens(rest))
  {
    hide Fields, IsWord, IsPatch;
    var paths := if IsRename(c.change.status) then [c.change.oldPath, c.change.path] else [c.change.path];
    var tokens := [record] + (paths + rest);
    var fields := Fields(record);
    assert fields[0][0] == ':' && fields[0][1..] == c.oldMode;
    assert tokens[1 + |paths|..] == rest;
    assert c.change == FileChange(c.change.status, c.change.path, c.change.oldPath);
  }

  lemma FirstRecord(cs: seq<Change>, rest: seq<string>)
    requires cs != []
    ensures var c := cs[0];
      var paths := if IsRename(c.change.status) then [c.change.oldPath, c.change.path] else [c.change.path];
      && AllTokens(cs) + rest == [Record(c)] + (paths + (AllTokens(cs[1..]) + rest))
      && RawsOf(cs) == [RawOf(c)] + RawsOf(cs[1..])
  {
    hide Record, IsRename, RawsOf, RawOf;
    var c, more := cs[0], AllTokens(cs[1..]);
    var paths := if IsRename(c.change.status) then [c.change.oldPath, c.change.path] else [c.change.path];
    assert AllTokens(cs) == ([Record(c)] + paths) + more;
    Regrouped([Record(c)], paths, more, rest);
    var raws := [RawOf(c)] + RawsOf(cs[1..]);
    assert forall i :: 0 <= i < |cs| ==> RawsOf(cs)[i] == raws[i];
  }

  lemma Regrouped<T>(a: seq<T>, b: seq<T>, c: seq<T>, d: seq<T>)
    ensures ((a + b) + c) + d == a + (b + (c + d))
  {
  }

  /** The records of the changes are read back as the changes, and what follows them is read next. */
  lemma {:induction false} RecordsReadThen(cs: seq<Change>, rest: seq<string>)
    requires forall i :: 0 <= i < |cs| ==> WellFormed(cs[i])
    ensures ParseTokens(AllTokens(cs) + rest) == Appended(RawsOf(cs), ParseTokens(rest))
    decreases |cs|
  {
    hide ParseTokens, WellFormed, Fields, Record, TokensOf, RawOf;
    if cs == [] {
      assert AllTokens(cs) + rest == rest;
      assert ParseTokens(rest).Ok? ==> RawsOf(cs) + ParseTokens(rest).value == ParseTokens(rest).value;
    } else {
      RecordRead(cs[0]);
      RecordsReadThen(cs[1..], rest);
      OneRecordRead(cs[0], Record(cs[0]), AllTokens(cs[1..]) + rest);
      FirstRecord(cs, rest);
      PrependAppended(RawOf(cs[0]), RawsOf(cs[1..]), ParseTokens(rest));
    }
  }

  lemma PrependAppended(first: RawChange, before: seq<RawChange>, rest: Result<seq<RawChange>, Malformed>)
    ensures Prepend(first, Appended(before, rest)) == Appended([first] + before, rest)
  {
    if rest.Ok? { assert [first] + (before + rest.value) == [first] + before + rest.value; }
  }

  lemma BlankIsRead()
    ensures ParseTokens([""]) == Ok([])
  {
    assert [""][1..] == [];
  }

  lemma RecordsRead(cs: seq<Change>)
    requires forall i :: 0 <= i < |cs| ==> WellFormed(cs[i])
    ensures ParseTokens(AllTokens(cs) + [""]) == Ok(RawsOf(cs))
  {
    hide ParseTokens;
    RecordsReadThen(cs, [""]);
    BlankIsRead();
    assert RawsOf(cs) + [] == RawsOf(cs);
  }

  // ------------------------------------------------------ the headers partition

  function Offset(parts: seq<string>, k: nat): nat
    requires k <= |parts|
  {
    if k == 0 then 0 else Offset(parts, k - 1) + |parts[k - 1]|
  }

  function Offsets(parts: seq<string>, n: nat): (r: seq<nat>)
    requires n <= |parts|
    ensures |r| == n && forall k :: 0 <= k < n ==> r[k] == Offset(parts, k)
  {
    seq(n, k requires 0 <= k < n => Offset(parts, k))
  }

  lemma {:induction false} OffsetOfRest(parts: seq<string>, k: nat)
    requires 1 <= k <= |parts|
    ensures Offset(parts, k) == |parts[0]| + Offset(parts[1..], k - 1)
  {
    if k == 1 {
      assert Offset(parts, 0) == 0;
    } else {
      OffsetOfRest(parts, k - 1);
    }
  }

  /** Part k of the text. */
  lemma {:induction false} PartOfText(parts: seq<string>, k: nat)
    requires k < |parts|
    ensures Offset(parts, k) + |parts[k]| == Offset(parts, k + 1) <= |Joined(parts)|
    ensures Joined(parts)[Offset(parts, k)..Offset(parts, k + 1)] == parts[k]
    ensures k + 1 == |parts| ==> Offset(parts, k + 1) == |Joined(parts)|
    decreases |parts|
  {
    var first, rest := parts[0], Joined(parts[1..]);
    assert Joined(parts) == first + rest;
    if k == 0 {
      assert Offset(parts, 0) == 0 && Offset(parts, 1) == |first|;
      assert |parts| == 1 ==> parts[1..] == [] && rest == "";
    } else {
      hide Joined, Offset;
      OffsetOfRest(parts, k);
      OffsetOfRest(parts, k + 1);
      PartOfText(parts[1..], k - 1);
      SliceBehind(first, rest, Offset(parts[1..], k - 1), Offset(parts[1..], k));
    }
  }

  lemma SliceBehind(first: string, rest: string, a: nat, b: nat)
    requires a <= b <= |rest|
    ensures (first + rest)[|first| + a..|first| + b] == rest[a..b]
  {
  }

  ghost predicate ArePatches(parts: seq<string>) {
    forall i :: 0 <= i < |parts| ==> IsPatch(parts[i])
  }

  lemma PartEndsLine(parts: seq<string>, k: nat)
    requires ArePatches(parts) && k < |parts|
    ensures 0 < Offset(parts, k + 1) <= |Joined(parts)| && Joined(parts)[Offset(parts, k + 1) - 1] == '\n'
  {
    var s, part := Joined(parts), parts[k];
    PartOfText(parts, k);
    assert IsPatch(part);
    assert s[Offset(parts, k)..Offset(parts, k + 1)][|part| - 1] == s[Offset(parts, k + 1) - 1];
  }

  /** Inside part k of the text, a header begins at the start of the part and nowhere else. */
  lemma HeadersOfPart(parts: seq<string>, k: nat, p: nat)
    requires ArePatches(parts) && k < |parts| && Offset(parts, k) <= p < Offset(parts, k + 1) <= |Joined(parts)|
    ensures HeaderAt(Joined(parts), p) <==> p == Offset(parts, k)
  {
    hide HeaderAt, Joined, IsPatch;
    PartOfText(parts, k);
    assert IsPatch(parts[k]);
    if k > 0 { PartEndsLine(parts, k - 1); }
    HeaderInPart(Joined(parts), Offset(parts, k), Offset(parts, k + 1), p);
  }

  lemma HeaderInPart(s: string, a: nat, b: nat, p: nat)
    requires a <= p < b <= |s| && IsPatch(s[a..b]) && (a > 0 ==> s[a - 1] == '\n')
    ensures HeaderAt(s, p) <==> p == a
  {
    var part, q := s[a..b], p - a;
    assert forall i :: 0 <= i < |part| ==> part[i] == s[a + i];
    if p == a {
      assert part[0..] == part;
      assert s[p..][..|HEADER|] == part[..|HEADER|];
    } else {
      assert !HeaderAt(part, q);
      assert part[q - 1] == s[p - 1];
      if HeaderAt(s, p) {
        HeaderEndsLine(s, a, b, p);
      }
    }
  }

  /** A header has no line break in it, so one that begins inside a part that ends its last line stays inside. */
  lemma HeaderEndsLine(s: string, a: nat, b: nat, p: nat)
    requires a <= p < b <= |s| && s[b - 1] == '\n' && HEADER <= s[p..]
    ensures HEADER <= s[a..b][p - a..]
  {
    var t := s[p..];
    assert forall i :: 0 <= i < |HEADER| ==> t[i] == HEADER[i] && s[p + i] == t[i] && HEADER[i] != '\n';
    assert t[b - 1 - p] == '\n';
    var u := s[a..b][p - a..];
    assert forall i :: 0 <= i < |HEADER| ==> u[i] == t[i];
    assert u[..|HEADER|] == HEADER;
  }

  lemma OneMoreHeader(s: string, a: nat, b: nat)
    requires a < b && forall p: nat :: a <= p < b ==> (HeaderAt(s, p) <==> p == a)
    ensures HeadersBelow(s, b) == HeadersBelow(s, a) + [a]
  {
    NoHeadersBetween(s, a + 1, b);
    assert HeaderAt(s, a);
  }

  /** The header offsets are the beginnings of the patches. */
  lemma {:induction false} HeadersArePatchStarts(parts: seq<string>, k: nat)
    requires ArePatches(parts) && k <= |parts|
    ensures Offset(parts, k) <= |Joined(parts)| && HeadersBelow(Joined(parts), Offset(parts, k)) == Offsets(parts, k)
  {
    hide HeadersBelow, Joined;
    if k == 0 {
      NoHeadersYet(Joined(parts));
    } else {
      HeadersArePatchStarts(parts, k - 1);
      PartOfText(parts, k - 1);
      assert IsPatch(parts[k - 1]);
      HeadersInPart(parts, k - 1);
      assert Offsets(parts, k) == Offsets(parts, k - 1) + [Offset(parts, k - 1)];
    }
  }

  lemma HeadersInPart(parts: seq<string>, k: nat)
    requires ArePatches(parts) && k < |parts| && Offset(parts, k) < Offset(parts, k + 1) <= |Joined(parts)|
    ensures HeadersBelow(Joined(parts), Offset(parts, k + 1))
            == HeadersBelow(Joined(parts), Offset(parts, k)) + [Offset(parts, k)]
  {
    forall p: nat | Offset(parts, k) <= p < Offset(parts, k + 1)
      ensures HeaderAt(Joined(parts), p) <==> p == Offset(parts, k)
    {
      HeadersOfPart(parts, k, p);
    }
    OneMoreHeader(Joined(parts), Offset(parts, k), Offset(parts, k + 1));
  }

  /** Between offset k and the next one, or the end, stands this patch. */
  predicate PatchIs(s: string, starts: seq<nat>, k: nat, patch: string) {
    k < |starts| && starts[k] <= PatchEnd(s, starts, k + 1) <= |s| && s[starts[k]..PatchEnd(s, starts, k + 1)] == patch
  }

  /** The headers partition the patch text: one offset a patch, each where its patch begins. */
  lemma HeadersPartitionPatches(parts: seq<string>)
    requires ArePatches(parts)
    ensures HeaderStarts(Joined(parts)) == Offsets(parts, |parts|)
    ensures forall k: nat :: k < |parts| ==> PatchIs(Joined(parts), Offsets(parts, |parts|), k, parts[k])
  {
    var s := Joined(parts);
    HeadersArePatchStarts(parts, |parts|);
    if parts != [] {
      PartOfText(parts, |parts| - 1);
      PartOfText(parts, 0);
      HeadersOfPart(parts, 0, 0);
    }
    forall k: nat | k < |parts| ensures PatchIs(s, Offsets(parts, |parts|), k, parts[k]) {
      PartOfText(parts, k);
    }
  }

  // --------------------------------------------------------------- the round trip

  ghost predicate AllWellFormed(cs: seq<Change>) {
    cs != [] && forall i :: 0 <= i < |cs| ==> WellFormed(cs[i])
  }

  lemma {:induction false} ArePatchesOf(cs: seq<Change>)
    requires forall j :: 0 <= j < |cs| ==> WellFormed(cs[j])
    ensures ArePatches(AllPatches(cs))
  {
    if cs != [] {
      ArePatchesOf(cs[1..]);
      assert WellFormed(cs[0]);
    }
  }

  lemma {:induction false} PatchesCounted(cs: seq<Change>)
    requires forall j :: 0 <= j < |cs| ==> WellFormed(cs[j])
    ensures TotalPatches(RawsOf(cs), |cs|) == |AllPatches(cs)|
  {
    hide WellFormed, RawOf;
    if cs == [] {
      assert TotalPatches(RawsOf(cs), 0) == 0;
    } else {
      PatchesCounted(cs[1..]);
      TotalOfRest(cs, |cs|);
    }
  }

  /** How many patches the changes before i have. */
  function PatchesBefore(cs: seq<Change>, i: nat): nat
    requires i <= |cs|
  {
    if i == 0 then 0 else |cs[0].patches| + PatchesBefore(cs[1..], i - 1)
  }

  lemma {:induction false} TotalIsBefore(cs: seq<Change>, i: nat)
    requires (forall j :: 0 <= j < |cs| ==> WellFormed(cs[j])) && i <= |cs|
    ensures TotalPatches(RawsOf(cs), i) == PatchesBefore(cs, i)
    decreases |cs|
  {
    hide WellFormed, RawOf;
    if i > 0 {
      TotalOfRest(cs, i);
      TotalIsBefore(cs[1..], i - 1);
    }
  }

  /** The patches of change i stand where the counts of those before it say. */
  lemma {:induction false} PatchesOf(cs: seq<Change>, i: nat)
    requires i < |cs|
    ensures PatchesBefore(cs, i) + |cs[i].patches| == PatchesBefore(cs, i + 1) <= |AllPatches(cs)|
    ensures AllPatches(cs)[PatchesBefore(cs, i)..PatchesBefore(cs, i + 1)] == cs[i].patches
    decreases |cs|
  {
    var rest, first := AllPatches(cs[1..]), cs[0].patches;
    if i == 0 {
      assert PatchesBefore(cs[1..], 0) == 0;
      assert (first + rest)[0..|first|] == first;
    } else {
      FirstChange(cs, i);
      FirstChange(cs, i + 1);
      hide AllPatches, PatchesBefore;
      assert cs[1..][i - 1] == cs[i];
      PatchesOf(cs[1..], i - 1);
      MiddleOf(first, rest, PatchesBefore(cs[1..], i - 1), PatchesBefore(cs[1..], i));
    }
  }

  lemma FirstChange(cs: seq<Change>, i: nat)
    requires 0 < i <= |cs|
    ensures AllPatches(cs) == cs[0].patches + AllPatches(cs[1..])
    ensures PatchesBefore(cs, i) == |cs[0].patches| + PatchesBefore(cs[1..], i - 1)
  {
  }

  lemma MiddleOf(first: seq<string>, rest: seq<string>, a: nat, b: nat)
    requires a <= b <= |rest|
    ensures (first + rest)[|first| + a..|first| + b] == rest[a..b]
  {
  }

  lemma {:induction false} TotalOfRest(cs: seq<Change>, n: nat)
    requires 1 <= n <= |cs| && WellFormed(cs[0])
    ensures TotalPatches(RawsOf(cs), n) == |cs[0].patches| + TotalPatches(RawsOf(cs[1..]), n - 1)
  {
    if n == 1 {
      assert TotalPatches(RawsOf(cs), 0) == 0 && TotalPatches(RawsOf(cs[1..]), 0) == 0;
    } else {
      TotalOfRest(cs, n - 1);
      assert RawsOf(cs)[n - 1] == RawsOf(cs[1..])[n - 2];
    }
  }

  /** A stretch of the text made of one or two patches. */
  lemma StretchOfPatches(s: string, starts: seq<nat>, first: nat, next: nat, patches: seq<string>)
    requires first < next <= |starts| && |patches| == next - first <= 2
    requires forall j: nat :: j < |patches| ==> PatchIs(s, starts, first + j, patches[j])
    ensures starts[first] <= PatchEnd(s, starts, next) <= |s|
            && s[starts[first]..PatchEnd(s, starts, next)] == Joined(patches)
  {
    var a, m, b := starts[first], PatchEnd(s, starts, first + 1), PatchEnd(s, starts, next);
    assert PatchIs(s, starts, first + 0, patches[0]);
    if next == first + 1 {
      assert patches[1..] == [];
      assert patches[0] + "" == patches[0];
    } else {
      assert PatchIs(s, starts, first + 1, patches[1]);
      assert s[a..b] == s[a..m] + s[m..b];
      JoinedTwo(patches);
    }
  }

  lemma JoinedTwo(patches: seq<string>)
    requires |patches| == 2
    ensures Joined(patches) == patches[0] + patches[1]
  {
    assert patches[1..][1..] == [];
    assert Joined(patches[1..]) == patches[1] + "" == patches[1];
  }

  lemma PatchStands(cs: seq<Change>, i: nat, j: nat)
    requires AllWellFormed(cs) && i < |cs| && j < |cs[i].patches|
    ensures PatchIs(Joined(AllPatches(cs)), HeaderStarts(Joined(AllPatches(cs))), PatchesBefore(cs, i) + j,
                    cs[i].patches[j])
  {
    hide Joined, HeaderStarts, AllPatches, PatchesBefore, PatchIs, WellFormed, ArePatches, Offset, Offsets;
    var parts, first, next := AllPatches(cs), PatchesBefore(cs, i), PatchesBefore(cs, i + 1);
    ArePatchesOf(cs);
    PatchesOf(cs, i);
    HeadersPartitionPatches(parts);
    assert parts[first..next][j] == parts[first + j];
    assert PatchIs(Joined(parts), Offsets(parts, |parts|), first + j, parts[first + j]);
  }

  lemma StretchOfChange(cs: seq<Change>, i: nat)
    requires AllWellFormed(cs) && i < |cs|
    ensures var s, starts := Joined(AllPatches(cs)), HeaderStarts(Joined(AllPatches(cs)));
      var first, next := PatchesBefore(cs, i), PatchesBefore(cs, i + 1);
      && first < |starts| && starts[first] <= PatchEnd(s, starts, next) <= |s|
      && s[starts[first]..PatchEnd(s, starts, next)] == Joined(cs[i].patches)
  {
    hide Joined, HeaderStarts, AllPatches, PatchesBefore, PatchEnd, PatchIs, IsPatch, IsWord;
    var s, starts := Joined(AllPatches(cs)), HeaderStarts(Joined(AllPatches(cs)));
    var own := cs[i].patches;
    PatchesOf(cs, i);
    assert WellFormed(cs[i]);
    var first := PatchesBefore(cs, i);
    forall j: nat | j < |own| ensures PatchIs(s, starts, first + j, own[j]) {
      PatchStands(cs, i, j);
    }
    CountsAgree(cs);
    PatchesCounted(cs);
    StretchOfPatches(s, starts, first, first + |own|, own);
  }

  lemma SelectionReturnsPatches(cs: seq<Change>, i: nat)
    requires AllWellFormed(cs) && i < |cs|
    requires forall j :: 0 <= j < i ==> cs[j].change != cs[i].change
    ensures EveryChangeHasPatches(RawsOf(cs))
    ensures SelectPatch(RawsOf(cs), Joined(AllPatches(cs)), cs[i].change)
            == Ok(Some(TrimNewlines(Joined(cs[i].patches))))
  {
    hide Joined, HeaderStarts, AllPatches, PatchesBefore, PatchEnd, WellFormed, RawOf, SelectPatch, MatchIndex,
         TotalPatches, TrimNewlines, EveryChangeHasPatches;
    CountsAgree(cs);
    TotalIsBefore(cs, i);
    TotalIsBefore(cs, i + 1);
    StretchOfChange(cs, i);
    FoundFirst(cs, i);
    SelectsText(RawsOf(cs), Joined(AllPatches(cs)), cs[i].change, i, PatchesBefore(cs, i), PatchesBefore(cs, i + 1),
                Joined(cs[i].patches));
  }

  /** Git writes as many patches as the records call for. */
  lemma CountsAgree(cs: seq<Change>)
    requires AllWellFormed(cs)
    ensures EveryChangeHasPatches(RawsOf(cs))
            && TotalPatches(RawsOf(cs), |cs|) == |HeaderStarts(Joined(AllPatches(cs)))|
  {
    hide Joined, HeaderStarts, AllPatches, TotalPatches, ArePatches, PatchIs;
    ArePatchesOf(cs);
    PatchesCounted(cs);
    HeadersPartitionPatches(AllPatches(cs));
  }

  lemma FoundFirst(cs: seq<Change>, i: nat)
    requires i < |cs| && forall j :: 0 <= j < i ==> cs[j].change != cs[i].change
    ensures MatchIndex(RawsOf(cs), cs[i].change) == Some(i)
  {
    assert RawsOf(cs)[i].change == cs[i].change;
    assert forall j :: 0 <= j < i ==> RawsOf(cs)[j].change != cs[i].change;
  }

  lemma SelectsText(raws: seq<RawChange>, s: string, selected: FileChange, i: nat, first: nat, next: nat, text: string)
    requires EveryChangeHasPatches(raws) && MatchIndex(raws, selected) == Some(i)
    requires TotalPatches(raws, |raws|) == |HeaderStarts(s)|
    requires first == TotalPatches(raws, i) && next == TotalPatches(raws, i + 1) && first < |HeaderStarts(s)|
    requires HeaderStarts(s)[first] <= PatchEnd(s, HeaderStarts(s), next) <= |s|
    requires s[HeaderStarts(s)[first]..PatchEnd(s, HeaderStarts(s), next)] == text
    ensures SelectPatch(raws, s, selected) == Ok(Some(TrimNewlines(text)))
  {
  }

  /**
   * From the text Git writes for any list of changes, selecting a change returns exactly
   * its own patches, up to the newlines at their end; two of them for a blob that becomes
   * a gitlink or the other way round. Of changes with the same status and paths it is the first.
   */
  lemma SelectionReturnsItsOwnPatch(cs: seq<Change>, i: nat)
    requires AllWellFormed(cs) && i < |cs|
    requires forall j :: 0 <= j < i ==> cs[j].change != cs[i].change
    ensures var r := Select(Written(cs), cs[i].change);
      r.Ok? && r.value.Some? && Trims(r.value.value, Joined(cs[i].patches))
  {
    hide Trims, TrimNewlines, Joined, WellFormed, Select, SelectPatch, EveryChangeHasPatches, RawsOf, Written;
    SelectionReturnsPatches(cs, i);
    SelectsFromWritten(cs, cs[i].change);
    TrimmingTrims(Joined(cs[i].patches));
  }

  /** The text without all the newlines at its end. */
  predicate Trims(r: string, text: string) {
    && r <= text && (forall i :: |r| <= i < |text| ==> text[i] == '\n')
    && (r != "" ==> r[|r| - 1] != '\n')
  }

  lemma {:induction false} TrimmingTrims(text: string)
    ensures Trims(TrimNewlines(text), text)
  {
    if text != "" && text[|text| - 1] == '\n' {
      TrimmingTrims(text[..|text| - 1]);
    }
  }

  lemma WrittenIsRead(cs: seq<Change>) returns (b: nat)
    requires AllWellFormed(cs)
    ensures Boundary(Written(cs)) == Some(b) && b + 2 <= |Written(cs)|
    ensures ParseTokens(Split(Written(cs)[..b + 1])) == Ok(RawsOf(cs)) && Written(cs)[b + 2..] == Joined(AllPatches(cs))
  {
    hide Boundary, Terminated, Split, ParseTokens, AllTokens, AllPatches, RawsOf, Joined;
    var tokens, patches := AllTokens(cs), Joined(AllPatches(cs));
    AllAreTokens(cs);
    BoundaryOfTokens(tokens, patches);
    var raw, s := Terminated(tokens), Written(cs);
    b := |raw| - 1;
    assert s[..|raw|] == raw && s[|raw| + 1..] == patches;
    SplitTerminated(tokens);
    RecordsRead(cs);
  }

  lemma SelectsFromWritten(cs: seq<Change>, selected: FileChange)
    requires AllWellFormed(cs) && EveryChangeHasPatches(RawsOf(cs))
    ensures Select(Written(cs), selected) == SelectFromRead(Ok(RawsOf(cs)), Joined(AllPatches(cs)), selected)
  {
    hide Boundary, Split, ParseTokens, Written, AllWellFormed, RawsOf, AllPatches, Joined, SelectFromRead;
    var b := WrittenIsRead(cs);
  }

  lemma SelectsNothing(raws: seq<RawChange>, s: string, selected: FileChange)
    requires EveryChangeHasPatches(raws) && TotalPatches(raws, |raws|) == |HeaderStarts(s)|
    requires forall j :: 0 <= j < |raws| ==> raws[j].change != selected
    ensures SelectPatch(raws, s, selected) == Ok(None)
  {
    assert MatchIndex(raws, selected).None?;
  }

  /** A change Git did not report is not found. */
  lemma UnreportedIsNotFound(cs: seq<Change>, selected: FileChange)
    requires AllWellFormed(cs) && forall i :: 0 <= i < |cs| ==> cs[i].change != selected
    ensures Select(Written(cs), selected) == Ok(None)
  {
    hide Joined, HeaderStarts, AllPatches, TotalPatches, WellFormed, RawsOf, Select, SelectPatch, Written;
    CountsAgree(cs);
    SelectsNothing(RawsOf(cs), Joined(AllPatches(cs)), selected);
    SelectsFromWritten(cs, selected);
  }

  // -------------------------------------------------------------- what is refused

  /** The header offsets of a text that begins with a header: the places where one begins a line, in order. */
  lemma HeaderStartsAre(s: string)
    ensures !(HEADER <= s) ==> HeaderStarts(s) == []
    ensures HEADER <= s ==>
              forall p: nat :: p in HeaderStarts(s) <==>
                p < |s| && (p == 0 || s[p - 1] == '\n') && HEADER <= s[p..]
    ensures forall i, j :: 0 <= i < j < |HeaderStarts(s)| ==> HeaderStarts(s)[i] < HeaderStarts(s)[j]
  {
    hide HeaderAt, HeadersBelow;
    StartsIncrease(s, |s|);
    FirstHeader(s);
    forall p: nat ensures HeaderAt(s, p) <==> p < |s| && (p == 0 || s[p - 1] == '\n') && HEADER <= s[p..] {
      HeaderMeans(s, p);
    }
    forall p: nat ensures p in HeadersBelow(s, |s|) <==> p < |s| && HeaderAt(s, p) {
      HeadersBelowAre(s, |s|, p);
    }
  }

  lemma FirstHeader(s: string)
    ensures HeaderAt(s, 0) <==> HEADER <= s
  {
    assert s[0..] == s;
  }

  lemma HeaderMeans(s: string, p: nat)
    ensures HeaderAt(s, p) <==> p < |s| && (p == 0 || s[p - 1] == '\n') && HEADER <= s[p..]
  {
  }

  lemma {:induction false} HeadersBelowAre(s: string, n: nat, p: nat)
    ensures p in HeadersBelow(s, n) <==> p < n && HeaderAt(s, p)
  {
    hide HeaderAt;
    if n > 0 {
      HeadersBelowAre(s, n - 1, p);
    }
  }

  /** Selecting from tokens and patch text as they come. */
  lemma TokensAreSelected(tokens: seq<string>, patches: string, selected: FileChange)
    requires AreTokens(tokens) && tokens != []
    ensures var parsed := ParseTokens(tokens + [""]);
      && (parsed.Ok? ==> EveryChangeHasPatches(parsed.value))
      && Select(Terminated(tokens) + ([NUL] + patches), selected) == SelectFromRead(parsed, patches, selected)
  {
    hide Boundary, Terminated, Split, ParseTokens, SelectFromRead, EveryChangeHasPatches;
    var raw, s := Terminated(tokens), Terminated(tokens) + ([NUL] + patches);
    BoundaryOfTokens(tokens, patches);
    assert s[..|raw|] == raw && s[|raw| + 1..] == patches;
    SplitTerminated(tokens);
    ParsedHavePatches(tokens + [""]);
    TerminatedIsLong(tokens);
  }

  lemma TerminatedIsLong(tokens: seq<string>)
    requires AreTokens(tokens) && tokens != []
    ensures |Terminated(tokens)| >= 1
  {
  }

  /** A token that is no record where one should be is refused. */
  lemma BadRecordIsRefused(
      cs: seq<Change>, bad: string, rest: seq<string>, patches: string, selected: FileChange)
    requires (forall i :: 0 <= i < |cs| ==> WellFormed(cs[i])) && AreTokens([bad] + rest)
    requires var fields := Fields(bad); |fields| != 5 || fields[0][0] != ':' || !IsStatus(fields[4])
    ensures Select(Terminated(AllTokens(cs) + [bad] + rest) + ([NUL] + patches), selected) == Err(InvalidRecord)
  {
    hide Select, Terminated, WellFormed, AllTokens, SelectFromRead, Fields, ParseTokens;
    var tokens := AllTokens(cs) + [bad] + rest;
    AllAreTokens(cs);
    assert tokens == AllTokens(cs) + ([bad] + rest);
    assert ([bad] + rest)[0] == bad;
    TokensAreSelected(tokens, patches, selected);
    assert tokens + [""] == AllTokens(cs) + ([bad] + (rest + [""]));
    RecordsReadThen(cs, [bad] + (rest + [""]));
    BadRecordIsInvalid(bad, rest + [""]);
    RefusedAsRead(InvalidRecord, patches, selected);
  }

  lemma RefusedAsRead(error: Malformed, patches: string, selected: FileChange)
    ensures SelectFromRead(Err(error), patches, selected) == Err(error)
  {
  }

  lemma BadRecordIsInvalid(bad: string, rest: seq<string>)
    requires IsPath(bad)
    requires var fields := Fields(bad); |fields| != 5 || fields[0][0] != ':' || !IsStatus(fields[4])
    ensures ParseTokens([bad] + rest) == Err(InvalidRecord)
  {
    hide Fields;
  }

  /** A rename whose paths are missing is refused. */
  lemma RenameWithoutPathsIsRefused(cs: seq<Change>, c: Change, patches: string, selected: FileChange)
    requires (forall i :: 0 <= i < |cs| ==> WellFormed(cs[i])) && WellFormed(c) && IsRename(c.change.status)
    ensures Select(Terminated(AllTokens(cs) + [Record(c)]) + ([NUL] + patches), selected) == Err(RenamePathsMissing)
  {
    hide Select, Terminated, WellFormed, AllTokens, SelectFromRead, Fields, ParseTokens, Record;
    var tokens := AllTokens(cs) + [Record(c)];
    AllAreTokens(cs);
    RecordRead(c);
    TokensAreSelected(tokens, patches, selected);
    assert tokens + [""] == AllTokens(cs) + [Record(c), ""];
    RecordsReadThen(cs, [Record(c), ""]);
    LastRecord(c, Record(c));
    RefusedAsRead(RenamePathsMissing, patches, selected);
  }

  lemma LastRecord(c: Change, record: string)
    requires WellFormed(c) && record != ""
             && Fields(record) == [[':'] + c.oldMode, c.newMode, c.oldId, c.newId, c.change.status]
    ensures IsRename(c.change.status) ==> ParseTokens([record, ""]) == Err(RenamePathsMissing)
    ensures !IsRename(c.change.status) ==> ParseTokens([record, ""]).Ok?
  {
    hide Fields, IsWord, IsPatch;
    assert [record, ""][2..] == [];
  }

  /** That a path is missing is never reported: the last record ends in a NUL, behind which the splitting
      finds an empty path. */
  lemma {:induction false} EmptyPathIsRead(tokens: seq<string>)
    requires tokens != [] && tokens[|tokens| - 1] == ""
    ensures ParseTokens(tokens) != Err(PathMissing)
    decreases |tokens|
  {
    hide Fields, ValidRecord, PatchCount;
    if |tokens| >= 2 { EmptyPathIsRead(tokens[1..]); }
    if |tokens| >= 3 { EmptyPathIsRead(tokens[2..]); }
    if |tokens| >= 4 { EmptyPathIsRead(tokens[3..]); }
  }

  lemma {:induction false} SplitEndsEmpty(s: string)
    requires s != "" && s[|s| - 1] == NUL
    ensures Split(s)[|Split(s)| - 1] == ""
  {
    if |s| == 1 {
      assert s[1..] == "";
    } else {
      SplitEndsEmpty(s[1..]);
      SplitTwice(s[1..]);
    }
  }

  lemma {:induction false} SplitTwice(s: string)
    requires s != "" && s[|s| - 1] == NUL
    ensures |Split(s)| >= 2
  {
    if |s| > 1 && s[0] != NUL { SplitTwice(s[1..]); }
  }

  lemma MissingPathIsNotReported(output: string, selected: FileChange)
    ensures Select(output, selected) != Err(PathMissing)
  {
    hide Split, ParseTokens, SelectPatch;
    if Boundary(output).Some? {
      var raw := output[..Boundary(output).value + 1];
      SplitEndsEmpty(raw);
      EmptyPathIsRead(Split(raw));
      ParsedHavePatches(Split(raw));
      if ParseTokens(Split(raw)).Ok? {
        OnlyCountsDiffer(ParseTokens(Split(raw)).value, output[Boundary(output).value + 2..], selected);
      }
    }
  }

  lemma OnlyCountsDiffer(changes: seq<RawChange>, patches: string, selected: FileChange)
    requires EveryChangeHasPatches(changes)
    ensures SelectPatch(changes, patches, selected).Err? ==>
              SelectPatch(changes, patches, selected) == Err(PatchCountDiffers)
  {
  }

  /** Records are taken together with a patch text exactly when it has as many patches as they call for. */
  lemma WrongCountIsRefused(cs: seq<Change>, patches: string, selected: FileChange)
    requires AllWellFormed(cs)
    ensures var r := Select(Terminated(AllTokens(cs)) + ([NUL] + patches), selected);
      && (r == Err(PatchCountDiffers) <==> |HeaderStarts(patches)| != |AllPatches(cs)|)
      && (r.Err? ==> r == Err(PatchCountDiffers))
  {
    hide Select, Terminated, WellFormed, AllTokens, Fields, ParseTokens, HeaderStarts, AllPatches;
    AllAreTokens(cs);
    TokensAreSelected(AllTokens(cs), patches, selected);
    RecordsRead(cs);
    PatchesCounted(cs);
  }

  /** Output without a boundary is no diff: an error unless it is all white space, and then nothing. */
  lemma NoBoundaryIsRefused(output: string, selected: FileChange)
    requires forall i: nat :: i + 2 <= |output| ==> output[i] != NUL || output[i + 1] != NUL
    ensures Select(output, selected)
         == if forall i :: 0 <= i < |output| ==> IsGoSpace(output[i]) then Ok(None) else Err(NoBoundary)
  {
    hide IsGoSpace;
    assert Boundary(output) == None;
    var n := DroppedLeading(output, IsGoSpace);
  }
}
