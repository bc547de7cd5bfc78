/**
 * The one-pass reading of a unified diff (parseUnifiedRanges and appendRange of
 * internal/vscodehelper/search_diff.go), against what the lines of the diff mean: the
 * target line each of them stands at.
 */
module DiffRanges {
  import opened Common

  /** A line by its first characters. A header's start is None when the number does not fit. */
  datatype Line =
    | Header(start: Option<nat>)
    | FileHeader
    | NoNewline
    | Blank
    | Context
    | Deleted
    | Added
    | Other

  datatype Range = Range(startLine: nat, endLine: int)

  // ------------------------------------------------------------ what a diff means

  /** The target line that comes next, and whether a hunk is being read. */
  datatype Position = Position(newLine: nat, inHunk: bool)

  function Move(p: Position, line: Line): Position {
    match line
    case Header(start) => Position(if start.Some? then start.value else p.newLine, true)
    case Context => if p.inHunk then p.(newLine := p.newLine + 1) else p
    case Added => if p.inHunk then p.(newLine := p.newLine + 1) else p
    case FileHeader => p.(inHunk := false)
    case Other => p.(inHunk := false)
    case _ => p
  }

  /** Where line n stands. */
  function At(lines: seq<Line>, n: nat): Position
    requires n <= |lines|
  {
    if n == 0 then Position(0, false) else Move(At(lines, n - 1), lines[n - 1])
  }

  /** The target lines that the first n lines add. */
  function AddedLines(lines: seq<Line>, n: nat): set<nat>
    requires n <= |lines|
  {
    if n == 0 then {}
    else
      var here, before := At(lines, n - 1), AddedLines(lines, n - 1);
      if lines[n - 1] == Added && here.inHunk && here.newLine >= 1 then before + {here.newLine} else before
  }

  function Clamp(newLine: nat, targetLineCount: nat): (r: nat)
    ensures 1 <= r <= Max(1, targetLineCount)
  {
    if targetLineCount == 0 then 1 else Min(Max(newLine, 1), targetLineCount)
  }

  /** The target lines, kept inside the target, at which the first n lines delete text. */
  function DeletedPlaces(lines: seq<Line>, n: nat, targetLineCount: nat): (r: set<nat>)
    requires n <= |lines|
    ensures forall a :: a in r ==> 1 <= a <= Max(1, targetLineCount)
  {
    if n == 0 then {}
    else
      var here, before := At(lines, n - 1), DeletedPlaces(lines, n - 1, targetLineCount);
      if lines[n - 1] == Deleted && here.inHunk then before + {Clamp(here.newLine, targetLineCount)} else before
  }

  /** Hunks of one file follow each other: none starts before the line its predecessor has reached. */
  ghost predicate HunksAdvance(lines: seq<Line>) {
    forall i: nat :: i < |lines| && lines[i].Header? ==> HunkAdvances(lines, i)
  }

  predicate HunkAdvances(lines: seq<Line>, i: nat)
    requires i < |lines| && lines[i].Header?
  {
    lines[i].start.Some? ==> At(lines, i).newLine <= lines[i].start.value
  }

  predicate Readable(lines: seq<Line>) {
    forall i :: 0 <= i < |lines| && lines[i].Header? ==> lines[i].start.Some?
  }

  // ------------------------------------------------------------- lists of ranges

  predicate InRange(r: Range, number: nat) {
    r.startLine <= number <= r.endLine
  }

  ghost predicate Covers(ranges: seq<Range>, number: nat) {
    exists k :: 0 <= k < |ranges| && InRange(ranges[k], number)
  }

  /** Sorted, non-empty ranges with at least one line between neighbours. */
  ghost predicate Gapped(ranges: seq<Range>) {
    && (forall k :: 0 <= k < |ranges| ==> 1 <= ranges[k].startLine <= ranges[k].endLine)
    && (forall j, k :: 0 <= j < k < |ranges| ==> ranges[j].endLine + 1 < ranges[k].startLine)
  }

  ghost predicate Increasing(anchors: seq<nat>) {
    forall j, k :: 0 <= j < k < |anchors| ==> anchors[j] < anchors[k]
  }

  /** A candidate is taken from the start of the last range on: where it begins earlier, the
      lines before that are not added. */
  predicate Takes(ranges: seq<Range>, candidate: Range, n: nat) {
    && candidate.startLine >= 1 && InRange(candidate, n)
    && (ranges != [] ==> ranges[|ranges| - 1].startLine <= n)
  }

  /** After the range of line 5 the candidate of lines 3 to 6 adds line 6, but not lines 3 and 4. */
  lemma EarlierLinesAreNotAdded()
    ensures var ranges, candidate := [Range(5, 5)], Range(3, 6);
      && Gapped(ranges) && InRange(candidate, 3) && InRange(candidate, 4)
      && forall n: nat :: Covers(ranges, n) || Takes(ranges, candidate, n) <==> n == 5 || n == 6
  {
    var ranges, candidate := [Range(5, 5)], Range(3, 6);
    assert InRange(ranges[0], 5);
    forall n: nat ensures Covers(ranges, n) || Takes(ranges, candidate, n) <==> n == 5 || n == 6 {
      assert Covers(ranges, n) <==> InRange(ranges[0], n);
    }
  }

  function Widen(r: Range, candidate: Range): Range {
    if candidate.endLine > r.endLine then Range(r.startLine, candidate.endLine) else r
  }

  method AppendRange(ranges: seq<Range>, candidate: Range) returns (r: seq<Range>)
    requires Gapped(ranges)
    ensures Gapped(r)
    ensures forall n: nat :: Covers(r, n) <==> Covers(ranges, n) || Takes(ranges, candidate, n)
    ensures r != [] ==> r[|r| - 1].endLine <= candidate.endLine || r == ranges
  {
    if candidate.startLine < 1 || candidate.endLine < candidate.startLine { return ranges; }
    if |ranges| > 0 && candidate.startLine <= ranges[|ranges| - 1].endLine + 1 {
      var last := |ranges| - 1;
      r := ranges;
      if candidate.endLine > r[last].endLine { r := r[last := Range(r[last].startLine, candidate.endLine)]; }
      forall n: nat ensures Covers(r, n) <==> Covers(ranges, n) || Takes(ranges, candidate, n) {
        WidenedCovers(ranges, candidate, n);
      }
      return r;
    }
    r := ranges + [candidate];
    forall n: nat ensures Covers(r, n) <==> Covers(ranges, n) || Takes(ranges, candidate, n) {
      AppendedCovers(ranges, candidate, n);
    }
  }

  lemma AppendedCovers(ranges: seq<Range>, candidate: Range, n: nat)
    ensures Covers(ranges + [candidate], n) <==> Covers(ranges, n) || InRange(candidate, n)
  {
    var r := ranges + [candidate];
    if Covers(ranges, n) {
      var k :| 0 <= k < |ranges| && InRange(ranges[k], n);
      assert InRange(r[k], n);
    }
    if InRange(candidate, n) { assert InRange(r[|ranges|], n); }
  }

  lemma WidenedCovers(ranges: seq<Range>, candidate: Range, n: nat)
    requires ranges != [] && Gapped(ranges) && candidate.startLine >= 1
    requires candidate.startLine <= ranges[|ranges| - 1].endLine + 1
    ensures var last := |ranges| - 1;
      Covers(ranges[last := Widen(ranges[last], candidate)], n) <==> Covers(ranges, n) || Takes(ranges, candidate, n)
  {
    var last := |ranges| - 1;
    var r := ranges[last := Widen(ranges[last], candidate)];
    if Covers(ranges, n) {
      var k :| 0 <= k < |ranges| && InRange(ranges[k], n);
      assert InRange(r[k], n);
    }
    if Covers(r, n) {
      var k :| 0 <= k < |r| && InRange(r[k], n);
      assert InRange(ranges[k], n) || Takes(ranges, candidate, n);
    }
    if Takes(ranges, candidate, n) { assert InRange(r[last], n); }
  }

  /** Ranges with gaps are the only such list for the lines they cover. */
  lemma {:induction false} GappedIsUnique(a: seq<Range>, b: seq<Range>)
    requires Gapped(a) && Gapped(b) && forall n: nat :: Covers(a, n) <==> Covers(b, n)
    ensures a == b
    decreases |a|
  {
    if a != [] && b != [] {
      SameFirst(a, b);
      SameFirst(b, a);
      assert a[0] == b[0];
      var x, y := a[1..], b[1..];
      assert forall k :: 0 <= k < |x| ==> x[k] == a[k + 1];
      assert forall k :: 0 <= k < |y| ==> y[k] == b[k + 1];
      forall n: nat ensures Covers(x, n) <==> Covers(y, n) {
        RestCovers(a, n);
        RestCovers(b, n);
      }
      GappedIsUnique(x, y);
    } else if a != [] {
      assert InRange(a[0], a[0].startLine) && Covers(a, a[0].startLine);
    } else if b != [] {
      assert InRange(b[0], b[0].startLine) && Covers(b, b[0].startLine);
    }
  }

  lemma RestCovers(a: seq<Range>, n: nat)
    requires a != [] && Gapped(a)
    ensures Covers(a[1..], n) <==> Covers(a, n) && n > a[0].endLine
  {
    if Covers(a[1..], n) {
      var k :| 0 <= k < |a[1..]| && InRange(a[1..][k], n);
      assert InRange(a[k + 1], n);
    }
    if Covers(a, n) && n > a[0].endLine {
      var k :| 0 <= k < |a| && InRange(a[k], n);
      assert InRange(a[1..][k - 1], n);
    }
  }

  lemma FirstCovers(a: seq<Range>, n: nat)
    requires a != []
    ensures InRange(a[0], n) ==> Covers(a, n)
  {
  }

  lemma GapAfterFirst(b: seq<Range>, n: nat)
    requires b != [] && Gapped(b) && n == b[0].endLine + 1
    ensures !Covers(b, n)
  {
    forall k | 0 <= k < |b| ensures !InRange(b[k], n) {
    }
  }

  /** The first range of b begins no later and reaches no less far than that of a. */
  lemma SameFirst(a: seq<Range>, b: seq<Range>)
    requires a != [] && b != [] && Gapped(a) && Gapped(b) && forall n: nat :: Covers(a, n) <==> Covers(b, n)
    ensures b[0].startLine <= a[0].startLine && (b[0].startLine == a[0].startLine ==> b[0].endLine >= a[0].endLine)
  {
    assert InRange(a[0], a[0].startLine) && Covers(a, a[0].startLine);
    var k :| 0 <= k < |b| && InRange(b[k], a[0].startLine);
    FirstCovers(a, b[0].endLine + 1);
    GapAfterFirst(b, b[0].endLine + 1);
  }

  // -------------------------------------------------------------------- the scan

  /** What the scan has to keep in mind of the lines read. */
  ghost predicate RangesRead(added: set<nat>, newLine: nat, ranges: seq<Range>, addStart: nat) {
    && Gapped(ranges)
    && (ranges != [] ==> ranges[|ranges| - 1].endLine < if addStart > 0 then addStart else newLine)
    && (addStart > 0 ==> addStart < newLine)
    && forall k: nat :: k in added <==> k >= 1 && Kept(ranges, addStart, newLine, k)
  }

  /** In a finished range or in the addition being read. */
  ghost predicate Kept(ranges: seq<Range>, addStart: nat, newLine: nat, k: nat) {
    Covers(ranges, k) || (addStart > 0 && addStart <= k < newLine)
  }

  ghost predicate AnchorsRead(places: set<nat>, here: nat, anchors: seq<nat>, deletionActive: bool) {
    && Increasing(anchors)
    && (anchors != [] ==> anchors[|anchors| - 1] <= here)
    && forall a: nat :: a in places <==> a in anchors || (deletionActive && a == here)
  }

  method FlushAddition(ghost added: set<nat>, ranges: seq<Range>, addStart: nat, newLine: nat)
    returns (r: seq<Range>, addStart': nat)
    requires RangesRead(added, newLine, ranges, addStart)
    ensures RangesRead(added, newLine, r, addStart') && addStart' == 0
  {
    addStart' := 0;
    if addStart == 0 { return ranges, 0; }
    r := AppendRange(ranges, Range(addStart, newLine - 1));
  }

  method FlushDeletion(
      ghost places: set<nat>, anchors: seq<nat>, deletionActive: bool, newLine: nat, targetLineCount: nat)
    returns (r: seq<nat>, active: bool)
    requires AnchorsRead(places, Clamp(newLine, targetLineCount), anchors, deletionActive)
    ensures AnchorsRead(places, Clamp(newLine, targetLineCount), r, active) && !active
  {
    active := false;
    if !deletionActive { return anchors, false; }
    var anchor := newLine;
    if targetLineCount <= 0 {
      anchor := 1;
    } else {
      if anchor < 1 { anchor := 1; }
      if anchor > targetLineCount { anchor := targetLineCount; }
    }
    r := anchors;
    if |anchors| == 0 || anchors[|anchors| - 1] != anchor {
      r := anchors + [anchor];
    }
  }

  lemma AdvanceRanges(added: set<nat>, newLine: nat, next: nat, ranges: seq<Range>)
    requires RangesRead(added, newLine, ranges, 0) && newLine <= next
    ensures RangesRead(added, next, ranges, 0)
  {
    assert forall k: nat :: Kept(ranges, 0, newLine, k) <==> Kept(ranges, 0, next, k);
  }

  lemma AdvanceAnchors(places: set<nat>, here: nat, next: nat, anchors: seq<nat>)
    requires AnchorsRead(places, here, anchors, false) && here <= next
    ensures AnchorsRead(places, next, anchors, false)
  {
  }

  lemma ExtendAddition(added: set<nat>, newLine: nat, ranges: seq<Range>, addStart: nat)
    requires RangesRead(added, newLine, ranges, addStart)
    ensures RangesRead(if newLine >= 1 then added + {newLine} else added, newLine + 1, ranges,
                       if addStart == 0 then newLine else addStart)
  {
    var start, next := if addStart == 0 then newLine else addStart, newLine + 1;
    assert forall k: nat :: k >= 1 ==>
           (Kept(ranges, start, next, k) <==> Kept(ranges, addStart, newLine, k) || k == newLine);
  }

  lemma ActivateDeletion(places: set<nat>, here: nat, anchors: seq<nat>, deletionActive: bool)
    requires AnchorsRead(places, here, anchors, deletionActive)
    ensures AnchorsRead(places + {here}, here, anchors, true)
  {
  }

  /** The ranges are exactly the target lines the diff adds, as sorted intervals with gaps. */
  ghost predicate ExactRanges(lines: seq<Line>, ranges: seq<Range>) {
    Gapped(ranges) && forall n: nat :: n in AddedLines(lines, |lines|) <==> Covers(ranges, n)
  }

  /** The anchors are exactly the lines text was deleted at, strictly increasing and inside the target. */
  ghost predicate ExactAnchors(lines: seq<Line>, targetLineCount: nat, anchors: seq<nat>) {
    && Increasing(anchors)
    && (forall a :: a in anchors ==> 1 <= a <= Max(1, targetLineCount))
    && (forall a: nat :: a in anchors <==> a in DeletedPlaces(lines, |lines|, targetLineCount))
  }

  /** A line inside a hunk. */
  method ReadHunkLine(
      lines: seq<Line>, i: nat, ranges0: seq<Range>, addStart0: nat, anchors0: seq<nat>, deletionActive0: bool,
      newLine0: nat, targetLineCount: nat)
    returns (ranges: seq<Range>, addStart: nat, anchors: seq<nat>, deletionActive: bool, newLine: nat, inHunk: bool)
    requires i < |lines| && At(lines, i) == Position(newLine0, true) && !lines[i].Header?
    requires RangesRead(AddedLines(lines, i), newLine0, ranges0, addStart0)
    requires AnchorsRead(DeletedPlaces(lines, i, targetLineCount), Clamp(newLine0, targetLineCount), anchors0,
                         deletionActive0)
    ensures At(lines, i + 1) == Position(newLine, inHunk)
    ensures RangesRead(AddedLines(lines, i + 1), newLine, ranges, addStart)
    ensures AnchorsRead(DeletedPlaces(lines, i + 1, targetLineCount), Clamp(newLine, targetLineCount), anchors,
                        deletionActive)
    ensures !inHunk ==> addStart == 0 && !deletionActive
  {
    var line := lines[i];
    ghost var added, places := AddedLines(lines, i), DeletedPlaces(lines, i, targetLineCount);
    ranges, addStart, anchors, deletionActive, newLine, inHunk :=
      ranges0, addStart0, anchors0, deletionActive0, newLine0, true;
    if line.FileHeader? {
      ranges, addStart := FlushAddition(added, ranges, addStart, newLine);
      anchors, deletionActive := FlushDeletion(places, anchors, deletionActive, newLine, targetLineCount);
      inHunk := false;
      return;
    }
    if line.NoNewline? { return; }
    if line.Blank? { return; }
    if line.Context? {
      ranges, addStart := FlushAddition(added, ranges, addStart, newLine);
      anchors, deletionActive := FlushDeletion(places, anchors, deletionActive, newLine, targetLineCount);
      AdvanceRanges(added, newLine, newLine + 1, ranges);
      AdvanceAnchors(places, Clamp(newLine, targetLineCount), Clamp(newLine + 1, targetLineCount), anchors);
      newLine := newLine + 1;
    } else if line.Deleted? {
      ranges, addStart := FlushAddition(added, ranges, addStart, newLine);
      ActivateDeletion(places, Clamp(newLine, targetLineCount), anchors, deletionActive);
      deletionActive := true;
    } else if line.Added? {
      anchors, deletionActive := FlushDeletion(places, anchors, deletionActive, newLine, targetLineCount);
      ExtendAddition(added, newLine, ranges, addStart);
      AdvanceAnchors(places, Clamp(newLine, targetLineCount), Clamp(newLine + 1, targetLineCount), anchors);
      if addStart == 0 { addStart := newLine; }
      newLine := newLine + 1;
    } else {
      ranges, addStart := FlushAddition(added, ranges, addStart, newLine);
      anchors, deletionActive := FlushDeletion(places, anchors, deletionActive, newLine, targetLineCount);
      inHunk := false;
    }
  }

  lemma NothingRead(targetLineCount: nat)
    ensures RangesRead({}, 0, [], 0) && AnchorsRead({}, Clamp(0, targetLineCount), [], false)
  {
  }

  method ParseUnifiedRanges(lines: seq<Line>, targetLineCount: nat) returns (r: Option<(seq<Range>, seq<nat>)>)
    requires HunksAdvance(lines)
    ensures r.Some? <==> Readable(lines)
    ensures r.Some? ==> ExactRanges(lines, r.value.0) && ExactAnchors(lines, targetLineCount, r.value.1)
  {
    hide RangesRead, AnchorsRead;
    NothingRead(targetLineCount);
    var ranges, anchors := [], [];
    var inHunk, newLine, addStart, deletionActive := false, 0, 0, false;
    for i := 0 to |lines|
      invariant At(lines, i) == Position(newLine, inHunk)
      invariant RangesRead(AddedLines(lines, i), newLine, ranges, addStart)
      invariant AnchorsRead(DeletedPlaces(lines, i, targetLineCount), Clamp(newLine, targetLineCount), anchors,
                            deletionActive)
      invariant !inHunk ==> addStart == 0 && !deletionActive
      invariant Readable(lines[..i])
    {
      var line := lines[i];
      ghost var added, places := AddedLines(lines, i), DeletedPlaces(lines, i, targetLineCount);
      if line.Header? {
        ranges, addStart := FlushAddition(added, ranges, addStart, newLine);
        anchors, deletionActive := FlushDeletion(places, anchors, deletionActive, newLine, targetLineCount);
        if line.start.None? { return None; }
        assert HunkAdvances(lines, i);
        AdvanceRanges(added, newLine, line.start.value, ranges);
        AdvanceAnchors(places, Clamp(newLine, targetLineCount), Clamp(line.start.value, targetLineCount), anchors);
        newLine, inHunk := line.start.value, true;
        continue;
      }
      if !inHunk { continue; }
      ranges, addStart, anchors, deletionActive, newLine, inHunk :=
        ReadHunkLine(lines, i, ranges, addStart, anchors, deletionActive, newLine, targetLineCount);
    }
    ranges, addStart := FlushAddition(AddedLines(lines, |lines|), ranges, addStart, newLine);
    anchors, deletionActive :=
      FlushDeletion(DeletedPlaces(lines, |lines|, targetLineCount), anchors, deletionActive, newLine, targetLineCount);
    assert lines[..|lines|] == lines;
    AllRead(lines, ranges, newLine, targetLineCount, anchors);
    r := Some((ranges, anchors));
  }

  lemma AllRead(lines: seq<Line>, ranges: seq<Range>, newLine: nat, targetLineCount: nat, anchors: seq<nat>)
    requires RangesRead(AddedLines(lines, |lines|), newLine, ranges, 0)
    requires AnchorsRead(DeletedPlaces(lines, |lines|, targetLineCount), Clamp(newLine, targetLineCount),
                         anchors, false)
    ensures ExactRanges(lines, ranges) && ExactAnchors(lines, targetLineCount, anchors)
  {
    assert forall n: nat :: Kept(ranges, 0, newLine, n) <==> Covers(ranges, n);
  }

  // ------------------------------------------------- which lines of the target

  /** Line i is read in the hunk that header h begins. */
  ghost predicate InHunk(lines: seq<Line>, h: nat, i: nat) {
    && h < i <= |lines| && lines[h].Header?
    && forall j :: h < j < i ==> !lines[j].Header? && !lines[j].FileHeader? && !lines[j].Other?
  }

  /** How many of lines from..to the target has. */
  function TargetLines(lines: seq<Line>, from: nat, to: nat): nat
    requires to <= |lines|
  {
    if to <= from then 0
    else TargetLines(lines, from, to - 1) + if lines[to - 1].Context? || lines[to - 1].Added? then 1 else 0
  }

  /** Line i of the diff stands at this line of the target: the one its hunk starts at, plus the lines of the
      target in between. */
  ghost predicate StandsAt(lines: seq<Line>, h: nat, i: nat, line: nat) {
    && InHunk(lines, h, i) && lines[h].start.Some?
    && line == lines[h].start.value + TargetLines(lines, h + 1, i)
  }

  ghost predicate AddsLine(lines: seq<Line>, n: nat, line: nat)
    requires n <= |lines|
  {
    line >= 1 && exists h: nat, i: nat :: i < n && lines[i].Added? && StandsAt(lines, h, i, line)
  }

  /** The place is the line, or the end of the target it lies beyond. */
  predicate InsideTarget(place: nat, line: nat, targetLineCount: nat) {
    && 1 <= place <= Max(1, targetLineCount)
    && (1 <= line <= targetLineCount ==> place == line)
    && (line < 1 ==> place == 1)
    && (line > targetLineCount ==> place == Max(1, targetLineCount))
  }

  ghost predicate DeletesAt(lines: seq<Line>, n: nat, targetLineCount: nat, place: nat)
    requires n <= |lines|
  {
    exists h: nat, i: nat, line: nat ::
      i < n && lines[i].Deleted? && StandsAt(lines, h, i, line) && InsideTarget(place, line, targetLineCount)
  }

  lemma {:induction false} StandsWhereRead(lines: seq<Line>, h: nat, i: nat)
    requires InHunk(lines, h, i) && lines[h].start.Some?
    ensures At(lines, i) == Position(lines[h].start.value + TargetLines(lines, h + 1, i), true)
  {
    if i > h + 1 {
      StandsWhereRead(lines, h, i - 1);
    }
  }

  lemma {:induction false} SomeHunk(lines: seq<Line>, i: nat) returns (h: nat)
    requires i <= |lines| && At(lines, i).inHunk
    ensures InHunk(lines, h, i)
  {
    if lines[i - 1].Header? { h := i - 1; } else { h := SomeHunk(lines, i - 1); }
  }

  /** In a diff whose headers are readable a line is in a hunk exactly when it stands at some target line. */
  lemma StandsSomewhere(lines: seq<Line>, i: nat, line: nat)
    requires i < |lines| && Readable(lines)
    ensures At(lines, i).inHunk && At(lines, i).newLine == line <==> exists h: nat :: StandsAt(lines, h, i, line)
  {
    if At(lines, i).inHunk {
      var h := SomeHunk(lines, i);
      StandsWhereRead(lines, h, i);
      assert StandsAt(lines, h, i, At(lines, i).newLine);
    }
    if h: nat :| StandsAt(lines, h, i, line) {
      StandsWhereRead(lines, h, i);
    }
  }

  /** A target line is added exactly when some added line of a hunk stands at it. */
  lemma {:induction false} AddedMeans(lines: seq<Line>, n: nat, line: nat)
    requires n <= |lines| && Readable(lines)
    ensures line in AddedLines(lines, n) <==> AddsLine(lines, n, line)
  {
    hide StandsAt, At;
    if n > 0 {
      AddedMeans(lines, n - 1, line);
      StandsSomewhere(lines, n - 1, line);
      if AddsLine(lines, n - 1, line) {
        var h: nat, i: nat :| i < n - 1 && lines[i].Added? && StandsAt(lines, h, i, line);
        assert AddsLine(lines, n, line);
      }
      if AddsLine(lines, n, line) {
        var h: nat, i: nat :| i < n && lines[i].Added? && StandsAt(lines, h, i, line);
        assert i < n - 1 ==> AddsLine(lines, n - 1, line);
      }
    }
  }

  lemma ClampIsInside(place: nat, line: nat, targetLineCount: nat)
    ensures place == Clamp(line, targetLineCount) <==> InsideTarget(place, line, targetLineCount)
  {
  }

  /** Text is deleted at a place exactly when some deleted line of a hunk stands there, or beyond the end. */
  lemma {:induction false} DeletedMeans(lines: seq<Line>, n: nat, targetLineCount: nat, place: nat)
    requires n <= |lines| && Readable(lines)
    ensures place in DeletedPlaces(lines, n, targetLineCount) <==> DeletesAt(lines, n, targetLineCount, place)
  {
    hide StandsAt, At, Clamp, InsideTarget;
    if n > 0 {
      DeletedMeans(lines, n - 1, targetLineCount, place);
      var here := At(lines, n - 1).newLine;
      StandsSomewhere(lines, n - 1, here);
      ClampIsInside(place, here, targetLineCount);
      if DeletesAt(lines, n - 1, targetLineCount, place) {
        var h: nat, i: nat, line: nat :| i < n - 1 && lines[i].Deleted? && StandsAt(lines, h, i, line)
          && InsideTarget(place, line, targetLineCount);
        assert DeletesAt(lines, n, targetLineCount, place);
      }
      if DeletesAt(lines, n, targetLineCount, place) {
        var h: nat, i: nat, line: nat :| i < n && lines[i].Deleted? && StandsAt(lines, h, i, line)
          && InsideTarget(place, line, targetLineCount);
        StandsSomewhere(lines, n - 1, line);
        assert i < n - 1 ==> DeletesAt(lines, n - 1, targetLineCount, place);
      }
    }
  }

  /**
   * What the ranges and anchors of a diff say of it: a line lies in a range exactly when the diff
   * adds it, and is an anchor exactly when text was deleted there.
   */
  lemma RangesMean(lines: seq<Line>, targetLineCount: nat, ranges: seq<Range>, anchors: seq<nat>, line: nat)
    requires Readable(lines) && ExactRanges(lines, ranges) && ExactAnchors(lines, targetLineCount, anchors)
    ensures Covers(ranges, line) <==> AddsLine(lines, |lines|, line)
    ensures line in anchors <==> DeletesAt(lines, |lines|, targetLineCount, line)
  {
    AddedMeans(lines, |lines|, line);
    DeletedMeans(lines, |lines|, targetLineCount, line);
  }
}
