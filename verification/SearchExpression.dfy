/**
 * The text form of a search expression: reading, printing and grouping
 * (apps/desktop/frontend/src/lib/search-expression.ts).
 *
 * The reader looks forward only, so it is specified on the text that is left; the methods
 * walk a cursor through the whole text. A row's absent group counts are 0, and the first
 * row's join, which is never printed, is Or.
 */
module SearchExpression {
  import opened Common
  import opened SearchGrammar
  import opened SearchEvaluator

  const MAXIMUM_GROUPS := 8

  // ------------------------------------------------------------ words of the text

  predicate IsLetter(c: char) {
    'a' <= Lower(c) <= 'z'
  }

  predicate IsWordChar(c: char) {
    IsLetter(c) || '0' <= c <= '9' || c == '_'
  }

  /** The text begins with these letters, in either case. */
  predicate Begins2(s: string, a: char, b: char) {
    |s| >= 2 && Lower(s[0]) == a && Lower(s[1]) == b
  }

  predicate Begins3(s: string, a: char, b: char, c: char) {
    |s| >= 3 && Begins2(s, a, b) && Lower(s[2]) == c
  }

  predicate Begins4(s: string, a: char, b: char, c: char, d: char) {
    |s| >= 4 && Begins3(s, a, b, c) && Lower(s[3]) == d
  }

  predicate BeginsMessage(s: string) {
    |s| >= 7 && Begins4(s, 'm', 'e', 's', 's') && Lower(s[4]) == 'a' && Lower(s[5]) == 'g' && Lower(s[6]) == 'e'
  }

  function AfterColon(s: string, n: nat): Option<string>
    requires n <= |s|
  {
    var t := SkipSpace(s[n..]);
    if t != "" && t[0] == ':' then Some(t[1..]) else None
  }

  /** The source a condition begins with, and what follows its colon. */
  function SourceAt(s: string): (r: Option<(Source, string)>)
    ensures r.Some? ==> |r.value.1| < |s|
  {
    var (source, n) :=
      if Begins3(s, 'm', 's', 'g') then (Msg, 3)
      else if BeginsMessage(s) then (Msg, 7)
      else if Begins4(s, 'd', 'i', 'f', 'f') then (Diff, 4)
      else if Begins4(s, 'f', 'i', 'l', 'e') then (File, 4)
      else (Msg, 0);
    if n == 0 then None
    else
      match AfterColon(s, n)
      case None => None
      case Some(rest) => Some((source, rest))
  }

  predicate EndsWord(s: string, n: nat)
    requires n <= |s|
  {
    |s| == n || !IsWordChar(s[n])
  }

  predicate BeginsJoin(s: string, join: Join) {
    if join == And then Begins3(s, 'a', 'n', 'd') else Begins2(s, 'o', 'r')
  }

  function JoinLength(join: Join): nat {
    if join == And then 3 else 2
  }

  predicate NamesSource(s: string) {
    || (Begins3(s, 'm', 's', 'g') && EndsWord(s, 3))
    || (BeginsMessage(s) && EndsWord(s, 7))
    || (Begins4(s, 'd', 'i', 'f', 'f') && EndsWord(s, 4))
    || (Begins4(s, 'f', 'i', 'l', 'e') && EndsWord(s, 4))
  }

  /** White space, then AND or OR as a whole word: the join, and what follows it. */
  function JoinAt(s: string): (r: Option<(Join, string)>)
    ensures r.Some? ==> |r.value.1| < |s|
  {
    if s == "" || !IsSpace(s[0]) then None
    else
      var t := SkipSpace(s);
      if BeginsJoin(t, And) && EndsWord(t, 3) then Some((And, t[3..]))
      else if BeginsJoin(t, Or) && EndsWord(t, 2) then Some((Or, t[2..]))
      else None
  }

  /** Opening groups, counted, and what follows them. */
  function Opens(s: string): (r: (nat, string))
    ensures |r.1| <= |s|
    decreases |s|
  {
    if s != "" && s[0] == '(' then
      var (n, rest) := Opens(SkipSpace(s[1..]));
      (n + 1, rest)
    else (0, s)
  }

  /** A join in front of another condition. */
  function JoinHere(s: string): Option<(Join, string)> {
    match JoinAt(s)
    case None => None
    case Some((join, rest)) => if SourceAt(Opens(SkipSpace(rest)).1).Some? then Some((join, rest)) else None
  }

  /** Whether the next character ends the quote, and escapes the one after it. */
  datatype Quote = Outside | Inside(mark: char, escaped: bool)

  function Quoted(q: Quote, c: char): Quote {
    match q
    case Outside => if c == '"' || c == '\'' then Inside(c, false) else Outside
    case Inside(mark, escaped) =>
      if escaped then Inside(mark, false)
      else if c == '\\' then Inside(mark, true)
      else if c == mark then Outside
      else q
  }

  /** The first join outside quotes that begins a new condition: the text before it, and what follows. */
  function NextJoin(s: string, q: Quote): (r: Option<(string, Join, string)>)
    ensures r.Some? ==> |r.value.0| + |r.value.2| < |s|
    decreases |s|
  {
    if s == "" then None
    else if q.Outside? && Quoted(q, s[0]).Outside? && JoinHere(s).Some? then
      Some(("", JoinHere(s).value.0, JoinHere(s).value.1))
    else
      match NextJoin(s[1..], Quoted(q, s[0]))
      case None => None
      case Some((before, join, rest)) => Some(([s[0]] + before, join, rest))
  }

  /** At most limit closing groups at the end, counted, and what stands before them. */
  function Closes(s: string, limit: nat): (r: (nat, string))
    ensures r.0 <= limit && |r.1| <= |s|
    decreases |s|
  {
    if limit > 0 && s != "" && s[|s| - 1] == ')' then
      var (n, before) := Closes(TrimEnd(s[..|s| - 1]), limit - 1);
      (n + 1, before)
    else (0, s)
  }

  /** A join at the end with nothing but groups after it. */
  predicate Dangling(raw: string) {
    exists i :: 1 <= i < |raw| && DanglingAt(raw, i)
  }

  predicate DanglingAt(raw: string, i: nat)
    requires 1 <= i < |raw|
  {
    && IsSpace(raw[i])
    && (forall k :: 0 <= k < i ==> raw[k] !in "\n\r\U{2028}\U{2029}")
    && var t := SkipSpace(raw[i..]);
       (BeginsJoin(t, And) && OnlyGroups(t[3..])) || (BeginsJoin(t, Or) && OnlyGroups(t[2..]))
  }

  predicate OnlyGroups(s: string) {
    forall k :: 0 <= k < |s| ==> IsSpace(s[k]) || s[k] == '('
  }

  /** A join in front of a word and a colon. */
  predicate UnknownSource(raw: string) {
    exists i :: 0 <= i < |raw| && UnknownSourceAt(raw, i)
  }

  predicate UnknownSourceAt(raw: string, i: nat)
    requires i < |raw|
  {
    && IsSpace(raw[i])
    && var t := raw[i + 1..];
       (BeginsJoin(t, And) && LabelAfterSpace(t[3..])) || (BeginsJoin(t, Or) && LabelAfterSpace(t[2..]))
  }

  predicate LabelAfterSpace(s: string) {
    s != "" && IsSpace(s[0]) && Label(SkipSpace(s))
  }

  predicate Label(s: string) {
    && s != "" && IsLetter(s[0])
    && exists n :: 1 <= n <= |s| && AfterColon(s, n).Some?
                   && forall k :: 0 <= k < n ==> IsWordChar(s[k]) || s[k] == '-'
  }

  function Unescaped(s: string, mark: char): string {
    if s == "" then ""
    else if |s| >= 2 && s[0] == '\\' && (s[1] == '\\' || s[1] == mark) then [s[1]] + Unescaped(s[2..], mark)
    else [s[0]] + Unescaped(s[1..], mark)
  }

  function Unquoted(value: string): Option<string> {
    if value == "" || (value[0] != '"' && value[0] != '\'') then Some(value)
    else if |value| < 2 || value[|value| - 1] != value[0] then None
    else Some(Unescaped(value[1..|value| - 1], value[0]))
  }

  // ----------------------------------------------------------------- the reader

  datatype Mistake =
    | TooManyOpenings
    | MissingColon
    | ExpectedSource
    | EmptyPattern(source: Source)
    | DanglingJoin
    | UnknownLabel
    | OpenQuote
    | MissingClosing(count: nat)

  datatype Parsed = Parsed(patterns: seq<SearchPredicate>, error: Option<Mistake>)

  /** One condition: the row, and the text from its next join on. */
  datatype Row = Row(pattern: SearchPredicate, next: Option<(Join, string)>)

  /** What stands between the colon and the next join: the closing groups and the value. */
  function ReadValue(text: string, limit: nat, source: Source): (r: Result<(nat, string), Mistake>)
    ensures r.Ok? ==> r.value.0 <= limit
  {
    var (closeGroups, before) := Closes(TrimEnd(text), limit);
    var raw := SkipSpace(before);
    if raw == "" then Err(EmptyPattern(source))
    else if Dangling(raw) then Err(DanglingJoin)
    else if UnknownSource(raw) then Err(UnknownLabel)
    else
      match Unquoted(raw)
      case None => Err(OpenQuote)
      case Some(value) => Ok((closeGroups, value))
  }

  function ReadRow(s: string, balance: nat, join: Join): (r: Result<Row, Mistake>)
    ensures r.Ok? && r.value.next.Some? ==> |r.value.next.value.1| < |s|
    ensures r.Ok? ==> r.value.pattern.openGroups <= MAXIMUM_GROUPS
    ensures r.Ok? ==> r.value.pattern.closeGroups <= balance + r.value.pattern.openGroups
  {
    var (openGroups, condition) := Opens(SkipSpace(s));
    if openGroups > MAXIMUM_GROUPS then Err(TooManyOpenings)
    else
      match SourceAt(condition)
      case None => Err(if NamesSource(condition) then MissingColon else ExpectedSource)
      case Some((source, rest)) =>
        var next := NextJoin(rest, Outside);
        match ReadValue(if next.Some? then next.value.0 else rest, balance + openGroups, source)
        case Err(mistake) => Err(mistake)
        case Ok((closeGroups, value)) =>
          Ok(Row(SearchPredicate(source, value, join, openGroups, closeGroups),
                 if next.Some? then Some((next.value.1, next.value.2)) else None))
  }

  /** What a row makes of what is read after it. */
  function Then(row: Result<Row, Mistake>, balance: nat, rest: Parsed): Parsed {
    if row.Err? then Parsed([], Some(row.error))
    else if row.value.next.None? then
      var left := Left(row.value.pattern, balance);
      Parsed([row.value.pattern], if left > 0 then Some(MissingClosing(left)) else None)
    else rest.(patterns := [row.value.pattern] + rest.patterns)
  }

  /** The groups still open after a row. */
  function Left(p: SearchPredicate, balance: nat): nat {
    if p.closeGroups <= balance + p.openGroups then balance + p.openGroups - p.closeGroups else 0
  }

  function ReadRows(s: string, balance: nat, join: Join): Parsed
    decreases |s|
  {
    var row := ReadRow(s, balance, join);
    Then(row, balance,
         if row.Ok? && row.value.next.Some? then
           ReadRows(row.value.next.value.1, Left(row.value.pattern, balance), row.value.next.value.0)
         else Parsed([], None))
  }

  function ParseText(expression: string): Parsed {
    if SkipSpace(expression) == "" then Parsed([], None) else ReadRows(expression, 0, Or)
  }

  // ------------------------------------------------ the reader, walking a cursor

  predicate IsSuffix(r: string, s: string) {
    |r| <= |s| && r == s[|s| - |r|..]
  }

  lemma {:induction false} SkippedIsSuffix(s: string)
    ensures IsSuffix(SkipSpace(s), s)
  {
    if s != "" && IsSpace(s[0]) { SkippedIsSuffix(s[1..]); }
  }

  lemma JoinedIsSuffix(s: string)
    requires JoinAt(s).Some?
    ensures IsSuffix(JoinAt(s).value.1, s)
  {
    SkippedIsSuffix(s);
  }

  method SkipWhitespace(expression: string, start: nat) returns (index: nat)
    requires start <= |expression|
    ensures start <= index <= |expression| && expression[index..] == SkipSpace(expression[start..])
  {
    hide IsSpace;
    index := start;
    while index < |expression| && IsSpace(expression[index])
      invariant start <= index <= |expression|
      invariant SkipSpace(expression[index..]) == SkipSpace(expression[start..])
    {
      assert expression[index..][1..] == expression[index + 1..];
      index := index + 1;
    }
  }

  method CountOpens(expression: string, start: nat) returns (openGroups: nat, cursor: nat)
    requires start <= |expression|
    ensures start <= cursor <= |expression|
    ensures (openGroups, expression[cursor..]) == Opens(SkipSpace(expression[start..]))
  {
    hide SkipSpace;
    cursor := SkipWhitespace(expression, start);
    openGroups := 0;
    while cursor < |expression| && expression[cursor] == '('
      invariant start <= cursor <= |expression|
      invariant (openGroups + Opens(expression[cursor..]).0, Opens(expression[cursor..]).1)
                == Opens(SkipSpace(expression[start..]))
      decreases |expression| - cursor
    {
      var here := expression[cursor..];
      assert here[1..] == expression[cursor + 1..];
      assert Opens(here) == (Opens(SkipSpace(here[1..])).0 + 1, Opens(SkipSpace(here[1..])).1);
      openGroups := openGroups + 1;
      cursor := SkipWhitespace(expression, cursor + 1);
    }
  }

  /** The same join, found behind some more text. */
  function Behind(w: string, found: Option<(string, Join, string)>): Option<(string, Join, string)> {
    if found.None? then None else Some((w + found.value.0, found.value.1, found.value.2))
  }

  lemma ScanOn(prefix: string, here: string, q: Quote)
    requires here != "" && !(q.Outside? && Quoted(q, here[0]).Outside? && JoinHere(here).Some?)
    ensures Behind(prefix, NextJoin(here, q)) == Behind(prefix + [here[0]], NextJoin(here[1..], Quoted(q, here[0])))
  {
    var found := NextJoin(here[1..], Quoted(q, here[0]));
    if found.Some? { assert prefix + ([here[0]] + found.value.0) == prefix + [here[0]] + found.value.0; }
  }

  method NextSearchExpressionJoin(expression: string, start: nat) returns (found: Option<(nat, Join, nat)>)
    requires start <= |expression|
    ensures match found
      case None => NextJoin(expression[start..], Outside).None?
      case Some((index, join, end)) =>
        start <= index < end <= |expression|
          && NextJoin(expression[start..], Outside) == Some((expression[start..index], join, expression[end..]))
  {
    hide JoinHere, NextJoin;
    var q := Outside;
    ghost var all := NextJoin(expression[start..], Outside);
    assert expression[start..start] == "";
    BehindNothing(all);
    for index := start to |expression|
      invariant Behind(expression[start..index], NextJoin(expression[index..], q)) == all
    {
      var here := expression[index..];
      if q.Outside? && Quoted(q, expression[index]).Outside? {
        var join := JoinHere(here);
        if join.Some? {
          var rest := join.value.1;
          var end := |expression| - |rest|;
          JoinBeginsHere(here, q);
          assert rest == here[|here| - |rest|..] == expression[end..];
          assert expression[start..index] + "" == expression[start..index];
          return Some((index, join.value.0, end));
        }
      }
      ScanOn(expression[start..index], here, q);
      assert here[1..] == expression[index + 1..];
      assert expression[start..index + 1] == expression[start..index] + [expression[index]];
      q := Quoted(q, expression[index]);
    }
    NoJoinInNothing(q);
    return None;
  }

  lemma JoinBeginsHere(here: string, q: Quote)
    requires here != "" && q.Outside? && Quoted(q, here[0]).Outside? && JoinHere(here).Some?
    ensures var (join, rest) := JoinHere(here).value;
      NextJoin(here, q) == Some(("", join, rest)) && IsSuffix(rest, here) && |rest| < |here|
  {
    JoinedIsSuffix(here);
  }

  lemma NoJoinInNothing(q: Quote)
    ensures NextJoin("", q).None?
  {
  }

  lemma BehindNothing(found: Option<(string, Join, string)>)
    ensures Behind("", found) == found
  {
    if found.Some? { assert "" + found.value.0 == found.value.0; }
  }

  method CountCloses(text: string, limit: nat) returns (closeGroups: nat, value: string)
    ensures (closeGroups, value) == Closes(text, limit)
  {
    hide TrimEnd;
    closeGroups, value := 0, text;
    while closeGroups < limit && value != "" && value[|value| - 1] == ')'
      invariant closeGroups <= limit
      invariant (closeGroups + Closes(value, limit - closeGroups).0, Closes(value, limit - closeGroups).1)
                == Closes(text, limit)
      decreases limit - closeGroups
    {
      closeGroups := closeGroups + 1;
      value := TrimEnd(value[..|value| - 1]);
    }
  }

  method ReadPatternValue(text: string, limit: nat, source: Source) returns (r: Result<(nat, string), Mistake>)
    ensures r == ReadValue(text, limit, source)
  {
    var closeGroups, value := CountCloses(TrimEnd(text), limit);
    var raw := SkipSpace(value);
    if raw == "" { return Err(EmptyPattern(source)); }
    if Dangling(raw) { return Err(DanglingJoin); }
    if UnknownSource(raw) { return Err(UnknownLabel); }
    var unquoted := Unquoted(raw);
    if unquoted.None? { return Err(OpenQuote); }
    return Ok((closeGroups, unquoted.value));
  }

  method ReadSource(expression: string, start: nat) returns (source: Source, cursor: nat)
    requires start <= |expression| && SourceAt(expression[start..]).Some?
    ensures start < cursor <= |expression| && SourceAt(expression[start..]).value == (source, expression[cursor..])
  {
    var condition := expression[start..];
    var rest := SourceAt(condition).value.1;
    source := SourceAt(condition).value.0;
    SourceIsSuffix(condition);
    cursor := |expression| - |rest|;
    assert expression[cursor..] == condition[|condition| - |rest|..];
  }

  /** The text up to the next join, or to the end, and where what follows the join begins. */
  method ReadText(expression: string, cursor: nat) returns (text: string, next: Option<(Join, nat)>)
    requires cursor <= |expression|
    ensures match NextJoin(expression[cursor..], Outside)
      case None => text == expression[cursor..] && next == None
      case Some((before, join, rest)) =>
        && text == before && next.Some? && next.value.0 == join
        && cursor < next.value.1 <= |expression| && expression[next.value.1..] == rest
  {
    var found := NextSearchExpressionJoin(expression, cursor);
    if found.None? { return expression[cursor..], None; }
    return expression[cursor..found.value.0], Some((found.value.1, found.value.2));
  }

  method ReadCondition(expression: string, start: nat, balance: nat, join: Join)
    returns (r: Result<(SearchPredicate, Option<(Join, nat)>), Mistake>)
    requires start <= |expression|
    ensures SameRow(expression, start, ReadRow(expression[start..], balance, join), r)
  {
    var openGroups, cursor := CountOpens(expression, start);
    if openGroups > MAXIMUM_GROUPS { return Err(TooManyOpenings); }
    if SourceAt(expression[cursor..]).None? {
      return Err(if NamesSource(expression[cursor..]) then MissingColon else ExpectedSource);
    }
    var source, valueStart := ReadSource(expression, cursor);
    var text, next := ReadText(expression, valueStart);
    var value := ReadPatternValue(text, balance + openGroups, source);
    if value.Err? { return Err(value.error); }
    return Ok((SearchPredicate(source, value.value.1, join, openGroups, value.value.0), next));
  }

  /** The row read at a cursor is the row read from the text there, with the cursor of what follows. */
  predicate SameRow(
      expression: string, start: nat, row: Result<Row, Mistake>,
      r: Result<(SearchPredicate, Option<(Join, nat)>), Mistake>)
  {
    match row
    case Err(mistake) => r == Err(mistake)
    case Ok(Row(pattern, None)) => r == Ok((pattern, None))
    case Ok(Row(pattern, Some((join, rest)))) =>
      && r.Ok? && r.value.0 == pattern && r.value.1.Some? && r.value.1.value.0 == join
      && start < r.value.1.value.1 <= |expression| && expression[r.value.1.value.1..] == rest
  }

  lemma SuffixIsTransitive(a: string, b: string, c: string)
    requires IsSuffix(a, b) && IsSuffix(b, c)
    ensures IsSuffix(a, c)
  {
    assert c[|c| - |a|..] == b[|b| - |a|..];
  }

  lemma ColonIsSuffix(s: string, n: nat)
    requires n <= |s| && AfterColon(s, n).Some?
    ensures IsSuffix(AfterColon(s, n).value, s)
  {
    var t := SkipSpace(s[n..]);
    SkippedIsSuffix(s[n..]);
    SuffixIsTransitive(t, s[n..], s);
    SuffixIsTransitive(t[1..], t, s);
  }

  lemma SourceIsSuffix(s: string)
    requires SourceAt(s).Some?
    ensures IsSuffix(SourceAt(s).value.1, s)
  {
    if Begins3(s, 'm', 's', 'g') {
      ColonIsSuffix(s, 3);
    } else if BeginsMessage(s) {
      ColonIsSuffix(s, 7);
    } else {
      ColonIsSuffix(s, 4);
    }
  }

  type Reader = (string, nat, Join) -> Result<Row, Mistake>

  /** ReadRows, for any way of reading one row. */
  function ReadRowsBy(read: Reader, s: string, balance: nat, join: Join): Parsed
    decreases |s|
  {
    var row := read(s, balance, join);
    Then(row, balance,
         if row.Ok? && row.value.next.Some? && |row.value.next.value.1| < |s|
         then ReadRowsBy(read, row.value.next.value.1, Left(row.value.pattern, balance), row.value.next.value.0)
         else Parsed([], None))
  }

  lemma {:induction false} ReadRowsIsBy(s: string, balance: nat, join: Join)
    ensures ReadRowsBy(ReadRow, s, balance, join) == ReadRows(s, balance, join)
    decreases |s|
  {
    var row := ReadRow(s, balance, join);
    if row.Ok? && row.value.next.Some? {
      ReadRowsIsBy(row.value.next.value.1, Left(row.value.pattern, balance), row.value.next.value.0);
    }
  }

  /** The trigger keeps what is known of read from unfolding every row it reads. */
  ghost predicate ReadsRows(read: Reader) {
    forall s, balance, join {:trigger ReadRow(s, balance, join)} :: read(s, balance, join) == ReadRow(s, balance, join)
  }

  /** parseSearchExpression. */
  method ParseSearchExpression(expression: string) returns (r: Parsed)
    ensures r == ParseText(expression)
  {
    if SkipSpace(expression) == "" { return Parsed([], None); }
    ReadRowsIsBy(expression, 0, Or);
    r := ParseRows(expression, ReadRow);
  }

  method ParseRows(expression: string, ghost read: Reader) returns (r: Parsed)
    requires ReadsRows(read)
    ensures r == ReadRowsBy(read, expression, 0, Or)
  {
    var patterns: seq<SearchPredicate> := [];
    var cursor: nat, balance: nat, join := 0, 0, Or;
    ghost var all, rest := ReadRowsBy(read, expression, 0, Or), ReadRowsBy(read, expression, 0, Or);
    assert expression[0..] == expression;
    while true
      invariant cursor <= |expression|
      invariant rest == ReadRowsBy(read, expression[cursor..], balance, join)
      invariant Continued(patterns, rest) == all
      decreases |expression| - cursor
    {
      var row;
      ghost var before := patterns;
      row, rest := ReadNext(expression, cursor, balance, join, read);
      if row.Err? {
        ContinuedWithNothing(patterns);
        return Parsed(patterns, Some(row.error));
      }
      var (pattern, next) := row.value;
      balance := balance + pattern.openGroups - pattern.closeGroups;
      patterns := patterns + [pattern];
      ContinuedWithOne(before, pattern, rest);
      if next.None? { break; }
      join, cursor := next.value.0, next.value.1;
    }
    return Parsed(patterns, if balance > 0 then Some(MissingClosing(balance)) else None);
  }

  /** Reads one condition; what is read after it is given as well. */
  method ReadNext(expression: string, cursor: nat, balance: nat, join: Join, ghost read: Reader)
    returns (row: Result<(SearchPredicate, Option<(Join, nat)>), Mistake>, ghost rest: Parsed)
    requires cursor <= |expression| && ReadsRows(read)
    ensures row.Err? ==> ReadRowsBy(read, expression[cursor..], balance, join) == Parsed([], Some(row.error))
    ensures row.Ok? ==>
      && row.value.0.closeGroups <= balance + row.value.0.openGroups
      && ReadRowsBy(read, expression[cursor..], balance, join) == rest.(patterns := [row.value.0] + rest.patterns)
    ensures row.Ok? && row.value.1.None? ==>
      var left := Left(row.value.0, balance);
      rest == Parsed([], if left > 0 then Some(MissingClosing(left)) else None)
    ensures row.Ok? && row.value.1.Some? ==>
      && cursor < row.value.1.value.1 <= |expression|
      && rest == ReadRowsBy(read, expression[row.value.1.value.1..], Left(row.value.0, balance), row.value.1.value.0)
  {
    row := ReadCondition(expression, cursor, balance, join);
    rest := Parsed([], None);
    if row.Ok? {
      var left := Left(row.value.0, balance);
      if row.value.1.None? {
        rest := Parsed([], if left > 0 then Some(MissingClosing(left)) else None);
        assert [row.value.0] + [] == [row.value.0];
      } else {
        rest := ReadRowsBy(read, expression[row.value.1.value.1..], left, row.value.1.value.0);
      }
    }
  }

  function Continued(patterns: seq<SearchPredicate>, rest: Parsed): Parsed {
    rest.(patterns := patterns + rest.patterns)
  }

  lemma ContinuedWithNothing(patterns: seq<SearchPredicate>)
    ensures patterns + [] == patterns
  {
  }

  lemma ContinuedWithOne(patterns: seq<SearchPredicate>, pattern: SearchPredicate, rest: Parsed)
    ensures Continued(patterns, rest.(patterns := [pattern] + rest.patterns)) == Continued(patterns + [pattern], rest)
  {
    assert patterns + ([pattern] + rest.patterns) == patterns + [pattern] + rest.patterns;
  }

  // --------------------------------------------------- what is read is balanced

  /** Every text read without an error gives rows whose groups balance, with at most eight openings each. */
  lemma ReadIsBalanced(expression: string)
    requires ParseText(expression).error.None?
    ensures Balanced(ParseText(expression).patterns)
    ensures forall p :: p in ParseText(expression).patterns ==> p.openGroups <= MAXIMUM_GROUPS
  {
    if SkipSpace(expression) != "" {
      RowsBalance(expression, 0, Or);
      var ps := ParseText(expression).patterns;
      assert Balance(ps, 0) == 0;
    }
  }

  lemma {:induction false} RowsBalance(s: string, balance: nat, join: Join)
    ensures var r := ReadRows(s, balance, join);
      && StaysOpen(balance, r.patterns)
      && (r.error.None? ==> balance + Balance(r.patterns, |r.patterns|) == 0)
      && (forall p :: p in r.patterns ==> p.openGroups <= MAXIMUM_GROUPS)
    decreases |s|
  {
    hide ReadRow;
    match ReadRow(s, balance, join)
    case Err(_) =>
    case Ok(Row(pattern, next)) =>
      var left := Left(pattern, balance);
      if next.Some? { RowsBalance(next.value.1, left, next.value.0); }
      var tail := if next.Some? then ReadRows(next.value.1, left, next.value.0).patterns else [];
      PrependBalances(pattern, tail, balance);
      assert [pattern] + [] == [pattern];
  }

  ghost predicate StaysOpen(balance: nat, ps: seq<SearchPredicate>) {
    forall n :: 0 <= n <= |ps| ==> balance + Balance(ps, n) >= 0
  }

  lemma PrependBalances(first: SearchPredicate, rest: seq<SearchPredicate>, balance: nat)
    requires first.closeGroups <= balance + first.openGroups
    requires StaysOpen(balance + first.openGroups - first.closeGroups, rest)
    ensures StaysOpen(balance, [first] + rest)
    ensures Balance([first] + rest, |rest| + 1) == first.openGroups - first.closeGroups + Balance(rest, |rest|)
  {
    forall n | 1 <= n <= |rest| + 1 ensures balance + Balance([first] + rest, n) >= 0 {
      BalanceOfRest(first, rest, n);
      assert balance + first.openGroups - first.closeGroups + Balance(rest, n - 1) >= 0;
    }
    BalanceOfRest(first, rest, |rest| + 1);
    assert Balance([first] + rest, 0) == 0;
  }

  lemma {:induction false} BalanceOfRest(first: SearchPredicate, rest: seq<SearchPredicate>, n: nat)
    requires 1 <= n <= |rest| + 1
    ensures Balance([first] + rest, n) == first.openGroups - first.closeGroups + Balance(rest, n - 1)
    decreases n
  {
    var all := [first] + rest;
    if n == 1 {
      assert Balance(all, 0) == 0 && all[0] == first;
    } else {
      BalanceOfRest(first, rest, n - 1);
      assert all[n - 1] == rest[n - 2];
    }
  }

  // ------------------------------------------------------------------ the printer

  function SourceText(source: Source): string {
    match source
    case Msg => "MSG"
    case Diff => "DIFF"
    case File => "FILE"
  }

  function JoinText(join: Join): string {
    match join
    case And => "AND"
    case Or => "OR"
  }

  function Times(c: char, n: nat): (r: string)
    ensures |r| == n && forall i :: 0 <= i < n ==> r[i] == c
  {
    if n == 0 then "" else [c] + Times(c, n - 1)
  }

  function RowText(p: SearchPredicate): string {
    Times('(', p.openGroups) + (SourceText(p.source) + (": " + (p.value + Times(')', p.closeGroups))))
  }

  function PatternText(p: SearchPredicate, index: nat): string {
    (if index > 0 then JoinText(p.join) + " " else "") + RowText(p)
  }

  /** The rows from k on, joined by spaces. */
  function RowsText(ps: seq<SearchPredicate>, k: nat): string
    requires k <= |ps|
    decreases |ps| - k
  {
    if k == |ps| then ""
    else PatternText(ps[k], k) + if k + 1 < |ps| then " " + RowsText(ps, k + 1) else ""
  }

  function ExpressionText(ps: seq<SearchPredicate>): string {
    RowsText(ps, 0)
  }

  predicate Plain(c: char) {
    !IsSpace(c) && c != '(' && c != ')' && c != '"' && c != '\''
  }

  predicate PlainText(s: string) {
    forall i :: 0 <= i < |s| ==> Plain(s[i])
  }

  predicate Printable(p: SearchPredicate) {
    p.value != "" && PlainText(p.value) && p.openGroups <= MAXIMUM_GROUPS
  }

  /** Lists that printing does not change: plain values, at most eight openings a row, balanced,
      and Or for the join that is not printed. */
  ghost predicate Canonical(ps: seq<SearchPredicate>) {
    Balanced(ps) && OpenEnded(ps)
  }

  /** The same of a list whose groups may stay open at the end. */
  ghost predicate OpenEnded(ps: seq<SearchPredicate>) {
    && (forall n :: 0 <= n <= |ps| ==> Balance(ps, n) >= 0)
    && (forall i :: 0 <= i < |ps| ==> Printable(ps[i]))
    && (ps != [] ==> ps[0].join == Or)
  }

  /** What is wrong with groups that stay open. */
  function Unclosed(ps: seq<SearchPredicate>): Option<Mistake> {
    if Balance(ps, |ps|) > 0 then Some(MissingClosing(Balance(ps, |ps|))) else None
  }

  // --------------------------------------------- reading what has been printed

  /** A row's text in front of more text, and the rows from k on behind the word before them. */
  function RowAnd(p: SearchPredicate, tail: string): string {
    Times('(', p.openGroups) + (SourceText(p.source) + (": " + (p.value + (Times(')', p.closeGroups) + tail))))
  }

  function Tail(ps: seq<SearchPredicate>, k: nat): string
    requires k <= |ps|
    decreases |ps| - k
  {
    if k == |ps| then "" else [' '] + (JoinText(ps[k].join) + ([' '] + RowAnd(ps[k], Tail(ps, k + 1))))
  }

  lemma RowAndIsRow(p: SearchPredicate, tail: string)
    ensures RowAnd(p, tail) == RowText(p) + tail
  {
    var c := Times(')', p.closeGroups);
    assert p.value + (c + tail) == p.value + c + tail;
    assert ": " + (p.value + c + tail) == ": " + (p.value + c) + tail;
    assert SourceText(p.source) + (": " + (p.value + c) + tail) == SourceText(p.source) + (": " + (p.value + c)) + tail;
  }

  lemma {:induction false} TextIsRows(ps: seq<SearchPredicate>, k: nat)
    requires k < |ps|
    ensures RowsText(ps, k) == (if k > 0 then JoinText(ps[k].join) + " " else "") + RowAnd(ps[k], Tail(ps, k + 1))
    decreases |ps| - k
  {
    var lead, row := if k > 0 then JoinText(ps[k].join) + " " else "", RowText(ps[k]);
    RowAndIsRow(ps[k], Tail(ps, k + 1));
    if k + 1 < |ps| {
      TextIsRows(ps, k + 1);
      var next := RowsText(ps, k + 1);
      Reassociate(JoinText(ps[k + 1].join), RowAnd(ps[k + 1], Tail(ps, k + 2)), lead, row, next);
      assert Tail(ps, k + 1) == " " + next;
    } else {
      assert lead + row + "" == lead + (row + "");
    }
  }

  lemma Reassociate(word: string, more: string, lead: string, row: string, next: string)
    requires next == word + " " + more
    ensures " " + next == [' '] + (word + ([' '] + more))
    ensures lead + row + (" " + next) == lead + (row + (" " + next))
  {
  }

  predicate Solid(s: string) {
    forall i :: 0 <= i < |s| ==> !IsSpace(s[i]) && s[i] != '(' && s[i] != '"' && s[i] != '\''
  }

  lemma SkipOneSpace(x: string)
    requires x != "" && !IsSpace(x[0])
    ensures SkipSpace(x) == x && SkipSpace([' '] + x) == x
  {
    assert ([' '] + x)[1..] == x;
  }

  lemma {:induction false} OpensPrinted(n: nat, y: string)
    requires y != "" && !IsSpace(y[0]) && y[0] != '('
    ensures Opens(Times('(', n) + y) == (n, y)
    decreases n
  {
    if n == 0 {
      assert Times('(', 0) + y == y;
    } else {
      var rest := Times('(', n - 1) + y;
      var s := Times('(', n) + y;
      assert s[1..] == rest && s[0] == '(';
      assert !IsSpace(rest[0]);
      SkipOneSpace(rest);
      OpensPrinted(n - 1, y);
    }
  }

  lemma SourcePrinted(source: Source, z: string)
    ensures SourceAt(SourceText(source) + (": " + z)) == Some((source, [' '] + z))
  {
    var s := SourceText(source) + (": " + z);
    var n := |SourceText(source)|;
    assert s[n..] == ": " + z;
    assert s[0] == SourceText(source)[0] && s[1] == SourceText(source)[1] && s[2] == SourceText(source)[2]
           && s[n - 1] == SourceText(source)[n - 1];
    assert (": " + z)[1..] == [' '] + z;
  }

  lemma NoSourceAhead(s: string)
    requires s == "" || Lower(s[0]) !in "mdf"
    ensures SourceAt(s).None?
  {
    assert s == "" || (Lower(s[0]) != 'm' && Lower(s[0]) != 'd' && Lower(s[0]) != 'f');
  }

  /** A value and closing groups, in front of nothing or of a join. */
  ghost predicate EndsOrJoins(tail: string) {
    tail == "" || exists join: Join, more: string :: JoinsOn(tail, join, more)
  }

  predicate JoinsOn(tail: string, join: Join, more: string) {
    tail == [' '] + (JoinText(join) + ([' '] + more))
  }

  lemma NothingReadAhead(tail: string)
    requires EndsOrJoins(tail)
    ensures SourceAt(Opens(SkipSpace(tail)).1).None?
  {
    if tail != "" {
      var join: Join, more: string :| JoinsOn(tail, join, more);
      var x := JoinText(join) + ([' '] + more);
      assert x[0] == JoinText(join)[0];
      SkipOneSpace(x);
      NoSourceAhead(x);
    } else {
      NoSourceAhead("");
    }
  }

  /** A value that begins like a join is not taken for one. */
  lemma ValueIsNoJoin(w: string, tail: string)
    requires w != "" && Solid(w) && EndsOrJoins(tail)
    ensures JoinHere([' '] + (w + tail)).None?
  {
    var t := w + tail;
    assert t[0] == w[0];
    SkipOneSpace(t);
    if tail != "" {
      var join: Join, more: string :| JoinsOn(tail, join, more);
      assert t[|w|] == ' ';
    }
    WordIsNoJoin(w, tail, And);
    WordIsNoJoin(w, tail, Or);
  }

  lemma WordIsNoJoin(w: string, tail: string, join: Join)
    requires w != "" && Solid(w) && EndsOrJoins(tail)
    requires tail != "" ==> (w + tail)[|w|] == ' '
    ensures var t, n := w + tail, JoinLength(join);
      BeginsJoin(t, join) && EndsWord(t, n) ==> SourceAt(Opens(SkipSpace(t[n..])).1).None?
  {
    var t, n := w + tail, JoinLength(join);
    if BeginsJoin(t, join) && EndsWord(t, n) {
      assert |w| >= n;
      var rest := t[n..];
      if |w| == n {
        assert rest == tail;
        NothingReadAhead(tail);
      } else {
        assert rest[0] == w[n];
        SkipOneSpace(rest);
        NoSourceAhead(rest);
      }
    }
  }

  lemma NoJoinWithoutSpace(s: string)
    requires s == "" || !IsSpace(s[0])
    ensures JoinHere(s).None?
  {
  }

  lemma BehindBoth(a: string, b: string, found: Option<(string, Join, string)>)
    ensures Behind(a, Behind(b, found)) == Behind(a + b, found)
  {
    if found.Some? { assert a + (b + found.value.0) == a + b + found.value.0; }
  }

  lemma {:induction false} SolidScan(w: string, t: string)
    requires Solid(w)
    ensures NextJoin(w + t, Outside) == Behind(w, NextJoin(t, Outside))
    decreases |w|
  {
    hide NextJoin, JoinHere;
    if w == "" {
      assert w + t == t;
      BehindNothing(NextJoin(t, Outside));
    } else {
      var s := w + t;
      assert s[1..] == w[1..] + t && s[0] == w[0];
      NoJoinWithoutSpace(s);
      ScanOn("", s, Outside);
      BehindNothing(NextJoin(s, Outside));
      SolidScan(w[1..], t);
      BehindBoth([w[0]], w[1..], NextJoin(t, Outside));
      assert "" + [w[0]] == [w[0]] && [w[0]] + w[1..] == w;
    }
  }

  /** From the colon on, the value and its closing groups are found before the next join. */
  lemma ValueFound(w: string, tail: string)
    requires w != "" && Solid(w) && EndsOrJoins(tail)
    ensures NextJoin([' '] + (w + tail), Outside) == Behind([' '], Behind(w, NextJoin(tail, Outside)))
  {
    var s := [' '] + (w + tail);
    ValueIsNoJoin(w, tail);
    SolidScan(w, tail);
    assert s[1..] == w + tail && s[0] == ' ';
  }

  lemma JoinPrinted(join: Join, more: string)
    ensures JoinAt([' '] + (JoinText(join) + ([' '] + more))) == Some((join, [' '] + more))
  {
    var word, rest := JoinText(join), [' '] + more;
    var t := word + rest;
    assert t[0] == word[0] && t[1] == word[1] && t[|word|] == ' ' && t[|word| - 1] == word[|word| - 1];
    assert t[|word|..] == rest;
    SkipOneSpace(t);
    assert ([' '] + t)[0] == ' ';
  }

  /** The printed join is found, with the next row behind it. */
  lemma JoinFound(ps: seq<SearchPredicate>, k: nat)
    requires k < |ps|
    ensures NextJoin(Tail(ps, k), Outside) == Some(("", ps[k].join, [' '] + RowAnd(ps[k], Tail(ps, k + 1))))
  {
    var more := RowAnd(ps[k], Tail(ps, k + 1));
    JoinPrinted(ps[k].join, more);
    RowBegins(ps[k], Tail(ps, k + 1));
    JoinHereIsFound(Tail(ps, k), ps[k].join, [' '] + more);
  }

  lemma JoinHereIsFound(s: string, join: Join, rest: string)
    requires s != "" && s[0] == ' ' && JoinAt(s) == Some((join, rest)) && SourceAt(Opens(SkipSpace(rest)).1).Some?
    ensures NextJoin(s, Outside) == Some(("", join, rest))
  {
    assert JoinHere(s) == Some((join, rest));
  }

  lemma RowBegins(p: SearchPredicate, tail: string)
    ensures SkipSpace([' '] + RowAnd(p, tail)) == SkipSpace(RowAnd(p, tail)) == RowAnd(p, tail)
    ensures Opens(RowAnd(p, tail))
            == (p.openGroups, SourceText(p.source) + (": " + (p.value + (Times(')', p.closeGroups) + tail))))
    ensures SourceAt(Opens(RowAnd(p, tail)).1)
            == Some((p.source, [' '] + (p.value + (Times(')', p.closeGroups) + tail))))
  {
    var z := p.value + (Times(')', p.closeGroups) + tail);
    var y := SourceText(p.source) + (": " + z);
    assert y[0] == SourceText(p.source)[0];
    OpensPrinted(p.openGroups, y);
    assert RowAnd(p, tail)[0] == if p.openGroups > 0 then '(' else y[0];
    SkipOneSpace(RowAnd(p, tail));
    SourcePrinted(p.source, z);
  }

  lemma TrimmedAlready(s: string)
    requires s != "" && !IsSpace(s[|s| - 1])
    ensures TrimEnd(s) == s
  {
  }

  /** A space, a value, and n closing groups. */
  function Enclosed(v: string, n: nat): string {
    [' '] + (v + Times(')', n))
  }

  lemma EnclosedEnds(v: string, n: nat)
    requires v != "" && PlainText(v)
    ensures TrimEnd(Enclosed(v, n)) == Enclosed(v, n)
    ensures if n > 0 then Enclosed(v, n)[|v| + n] == ')' && Enclosed(v, n)[..|v| + n] == Enclosed(v, n - 1)
      else Enclosed(v, n) == [' '] + v && Enclosed(v, n)[|v|] != ')'
  {
    var s := Enclosed(v, n);
    if n > 0 {
      TimesAtEnd(')', n);
      assert s[|v| + n] == Times(')', n)[n - 1];
      assert s[..|v| + n] == Enclosed(v, n - 1);
    } else {
      assert s == [' '] + v;
      assert s[|v|] == v[|v| - 1];
    }
    TrimmedAlready(s);
  }

  lemma {:induction false} ClosesPrinted(v: string, n: nat, limit: nat)
    requires v != "" && PlainText(v) && n <= limit
    ensures Closes(Enclosed(v, n), limit) == (n, [' '] + v)
    decreases n
  {
    hide TrimEnd, PlainText;
    EnclosedEnds(v, n);
    if n > 0 {
      EnclosedEnds(v, n - 1);
      ClosesPrinted(v, n - 1, limit - 1);
    }
  }

  lemma {:induction false} TimesAtEnd(c: char, n: nat)
    requires n > 0
    ensures Times(c, n)[..n - 1] == Times(c, n - 1) && Times(c, n)[n - 1] == c
  {
  }

  lemma ValueRead(v: string, n: nat, limit: nat, source: Source)
    requires v != "" && PlainText(v) && n <= limit
    ensures ReadValue(Enclosed(v, n), limit, source) == Ok((n, v))
  {
    EnclosedEnds(v, n);
    ClosesPrinted(v, n, limit);
    SkipOneSpace(v);
    assert !Dangling(v);
    assert !UnknownSource(v);
  }

  lemma TailEndsOrJoins(ps: seq<SearchPredicate>, k: nat)
    requires k <= |ps|
    ensures EndsOrJoins(Tail(ps, k))
  {
    if k < |ps| { assert JoinsOn(Tail(ps, k), ps[k].join, RowAnd(ps[k], Tail(ps, k + 1))); }
  }

  /** Where the reader finds the parts of a row. */
  datatype Pieces = Pieces(condition: string, rest: string, text: string, next: Option<(string, Join, string)>)

  ghost predicate Reads(s: string, limit: nat, p: SearchPredicate, pieces: Pieces) {
    && p.openGroups <= MAXIMUM_GROUPS
    && Opens(SkipSpace(s)) == (p.openGroups, pieces.condition)
    && SourceAt(pieces.condition) == Some((p.source, pieces.rest))
    && NextJoin(pieces.rest, Outside) == pieces.next
    && pieces.text == (if pieces.next.Some? then pieces.next.value.0 else pieces.rest)
    && ReadValue(pieces.text, limit, p.source) == Ok((p.closeGroups, p.value))
  }

  lemma RowAssembles(s: string, balance: nat, p: SearchPredicate, pieces: Pieces)
    requires Reads(s, balance + p.openGroups, p, pieces)
    ensures ReadRow(s, balance, p.join)
            == Ok(Row(p, if pieces.next.Some? then Some((pieces.next.value.1, pieces.next.value.2)) else None))
  {
  }

  lemma TextFound(ps: seq<SearchPredicate>, k: nat)
    requires k < |ps| && ps[k].value != "" && PlainText(ps[k].value)
    ensures var p := ps[k];
      var rest := [' '] + (p.value + (Times(')', p.closeGroups) + Tail(ps, k + 1)));
      var text := Enclosed(p.value, p.closeGroups);
      if k + 1 == |ps| then rest == text && NextJoin(rest, Outside).None?
      else NextJoin(rest, Outside) == Some((text, ps[k + 1].join, [' '] + RowAnd(ps[k + 1], Tail(ps, k + 2))))
  {
    hide NextJoin, RowAnd;
    var p, tail := ps[k], Tail(ps, k + 1);
    var c := Times(')', p.closeGroups);
    var w := p.value + c;
    assert p.value + (c + tail) == w + tail;
    TailEndsOrJoins(ps, k + 1);
    ValueFound(w, tail);
    if k + 1 < |ps| {
      JoinFound(ps, k + 1);
      assert w + "" == w;
    } else {
      NoJoinInNothing(Outside);
      assert w + tail == w;
    }
  }

  /** The text of row k and those after it, perhaps behind the space that follows its join. */
  predicate StandsFor(s: string, ps: seq<SearchPredicate>, k: nat)
    requires k < |ps|
  {
    var row := RowAnd(ps[k], Tail(ps, k + 1));
    s == row || s == [' '] + row
  }

  lemma RowFound(ps: seq<SearchPredicate>, k: nat, s: string, limit: nat) returns (pieces: Pieces)
    requires k < |ps| && Printable(ps[k]) && StandsFor(s, ps, k) && ps[k].closeGroups <= limit
    ensures Reads(s, limit, ps[k], pieces)
    ensures if k + 1 == |ps| then pieces.next.None?
      else pieces.next.Some? && pieces.next.value.1 == ps[k + 1].join && StandsFor(pieces.next.value.2, ps, k + 1)
  {
    var p, tail := ps[k], Tail(ps, k + 1);
    var z := p.value + (Times(')', p.closeGroups) + tail);
    var condition, rest := SourceText(p.source) + (": " + z), [' '] + z;
    RowBegins(p, tail);
    TextFound(ps, k);
    ValueRead(p.value, p.closeGroups, limit, p.source);
    pieces := Pieces(condition, rest, Enclosed(p.value, p.closeGroups), NextJoin(rest, Outside));
  }

  lemma TextStands(ps: seq<SearchPredicate>)
    requires ps != []
    ensures StandsFor(ExpressionText(ps), ps, 0) && SkipSpace(ExpressionText(ps)) != ""
  {
    hide SkipSpace, Opens, SourceAt, RowAnd, Tail, RowsText;
    TextIsRows(ps, 0);
    var row := RowAnd(ps[0], Tail(ps, 1));
    assert "" + row == row;
    RowBegins(ps[0], Tail(ps, 1));
    RowIsText(ps[0], Tail(ps, 1));
  }

  lemma RowIsText(p: SearchPredicate, tail: string)
    ensures RowAnd(p, tail) != ""
  {
    assert |RowAnd(p, tail)| >= |SourceText(p.source)|;
  }

  lemma RowRead(ps: seq<SearchPredicate>, k: nat, s: string, balance: nat) returns (next: Option<(Join, string)>)
    requires k < |ps| && Printable(ps[k]) && StandsFor(s, ps, k)
    requires ps[k].closeGroups <= balance + ps[k].openGroups
    ensures ReadRow(s, balance, ps[k].join) == Ok(Row(ps[k], next))
    ensures if k + 1 == |ps| then next.None?
      else next.Some? && next.value.0 == ps[k + 1].join && StandsFor(next.value.1, ps, k + 1)
  {
    hide *;
    var pieces := RowFound(ps, k, s, balance + ps[k].openGroups);
    RowAssembles(s, balance, ps[k], pieces);
    next := if pieces.next.Some? then Some((pieces.next.value.1, pieces.next.value.2)) else None;
  }

  /** Row j is read from a text that stands for it, and the text left stands for row j + 1. */
  ghost predicate ReadsRow(read: Reader, stands: (string, nat) -> bool, ps: seq<SearchPredicate>, j: nat, t: string)
    requires j < |ps|
  {
    Balance(ps, j) >= 0 &&
    match read(t, Balance(ps, j), ps[j].join)
    case Err(_) => false
    case Ok(Row(p, next)) =>
      p == ps[j] &&
      if j + 1 == |ps| then next.None?
      else next.Some? && next.value.0 == ps[j + 1].join && |next.value.1| < |t| && stands(next.value.1, j + 1)
  }

  lemma ThenTheRest(ps: seq<SearchPredicate>, k: nat, balance: nat, row: Result<Row, Mistake>, rest: Parsed)
    requires k < |ps| && row.Ok? && row.value.pattern == ps[k] && ps[k].closeGroups <= balance + ps[k].openGroups
    requires balance == Balance(ps, k)
    requires if k + 1 == |ps| then row.value.next.None?
      else row.value.next.Some? && rest == Parsed(ps[k + 1..], Unclosed(ps))
    ensures Then(row, balance, rest) == Parsed(ps[k..], Unclosed(ps))
  {
    assert ps[k..] == [ps[k]] + ps[k + 1..];
  }

  lemma {:induction false} RowsReadBy(
      read: Reader, stands: (string, nat) -> bool, ps: seq<SearchPredicate>, k: nat, s: string, balance: nat)
    requires (forall n :: 0 <= n <= |ps| ==> Balance(ps, n) >= 0) && k < |ps|
    requires stands(s, k) && balance == Balance(ps, k)
    requires forall j: nat, t: string {:trigger ReadsRow(read, stands, ps, j, t)} :: j < |ps| && stands(t, j) ==>
             ReadsRow(read, stands, ps, j, t)
    ensures ReadRowsBy(read, s, balance, ps[k].join) == Parsed(ps[k..], Unclosed(ps))
    decreases |ps| - k
  {
    assert ReadsRow(read, stands, ps, k, s);
    var left := Balance(ps, k + 1);
    assert left == balance + ps[k].openGroups - ps[k].closeGroups && left >= 0;
    var row := read(s, balance, ps[k].join);
    var rest := Parsed([], None);
    if k + 1 < |ps| {
      RowsReadBy(read, stands, ps, k + 1, row.value.next.value.1, left);
      rest := ReadRowsBy(read, row.value.next.value.1, left, ps[k + 1].join);
    }
    ThenTheRest(ps, k, balance, row, rest);
  }

  function Stands(ps: seq<SearchPredicate>): (string, nat) -> bool {
    (t: string, j: nat) => j < |ps| && StandsFor(t, ps, j)
  }

  lemma PrintedReads(ps: seq<SearchPredicate>, j: nat, t: string)
    requires OpenEnded(ps) && j < |ps| && StandsFor(t, ps, j)
    ensures ReadsRow(ReadRow, Stands(ps), ps, j, t)
  {
    hide ReadRow, StandsFor, RowAnd, Tail;
    var balance, left := Balance(ps, j), Balance(ps, j + 1);
    assert balance >= 0 && left >= 0 && left == balance + ps[j].openGroups - ps[j].closeGroups;
    assert Printable(ps[j]);
    var next := RowRead(ps, j, t, balance);
  }

  lemma PrintedRowsRead(ps: seq<SearchPredicate>, s: string)
    requires OpenEnded(ps) && ps != [] && StandsFor(s, ps, 0)
    ensures ReadRowsBy(ReadRow, s, 0, Or) == Parsed(ps, Unclosed(ps))
  {
    var stands := Stands(ps);
    forall j: nat, t: string {:trigger ReadsRow(ReadRow, stands, ps, j, t)} | j < |ps| && stands(t, j)
      ensures ReadsRow(ReadRow, stands, ps, j, t)
    {
      PrintedReads(ps, j, t);
    }
    assert Balance(ps, 0) == 0 && ps[0..] == ps;
    RowsReadBy(ReadRow, stands, ps, 0, s, 0);
  }

  /** Printing and reading back returns every canonical list, and no error. */
  lemma ReadingInvertsPrinting(ps: seq<SearchPredicate>)
    requires Canonical(ps)
    ensures ParseText(ExpressionText(ps)) == Parsed(ps, None)
  {
    UnclosedGroupsAreCounted(ps);
  }

  /** Groups left open at the end are reported, with their number, and the rows are read all the same. */
  lemma UnclosedGroupsAreCounted(ps: seq<SearchPredicate>)
    requires OpenEnded(ps)
    ensures ParseText(ExpressionText(ps)) == Parsed(ps, Unclosed(ps))
  {
    if ps != [] {
      var s := ExpressionText(ps);
      TextStands(ps);
      PrintedRowsRead(ps, s);
      ReadRowsIsBy(s, 0, Or);
    }
  }

  /** A text that is one row without groups or joins. */
  lemma OneRowRead(source: Source, z: string, value: string)
    requires NextJoin([' '] + z, Outside).None? && ReadValue([' '] + z, 0, source) == Ok((0, value))
    ensures ParseText(SourceText(source) + (": " + z))
            == Parsed([SearchPredicate(source, value, Or, 0, 0)], None)
  {
    hide NextJoin, ReadValue, SourceAt, ReadRow;
    var s, p := SourceText(source) + (": " + z), SearchPredicate(source, value, Or, 0, 0);
    assert s[0] == SourceText(source)[0];
    SkipOneSpace(s);
    OpensPrinted(0, s);
    assert Times('(', 0) + s == s;
    SourcePrinted(source, z);
    RowAssembles(s, 0, p, Pieces(s, [' '] + z, [' '] + z, None));
  }

  lemma NoJoinYet(s: string, q: Quote)
    requires s != "" && (q.Outside? && Quoted(q, s[0]).Outside? ==> JoinAt(s).None?)
    ensures NextJoin(s, q).None? <==> NextJoin(s[1..], Quoted(q, s[0])).None?
  {
    hide NextJoin, JoinAt;
    ScanOn("", s, q);
  }

  lemma SpaceIsNoJoin(s: string)
    requires s != "" && !IsSpace(s[0]) && !BeginsJoin(s, And) && !BeginsJoin(s, Or)
    ensures JoinAt([' '] + s).None? && JoinAt(s).None?
  {
    hide SkipSpace, BeginsJoin;
    SkipOneSpace(s);
  }

  /** A value is printed without the quotes it was read in: what is printed of it reads as another. */
  lemma QuotesAreNotKept()
    ensures var quoted, plain := SearchPredicate(Msg, "a ", Or, 0, 0), SearchPredicate(Msg, "a", Or, 0, 0);
      && ParseText("MSG: \"a \"") == Parsed([quoted], None)
      && ParseText(ExpressionText([quoted])) == Parsed([plain], None)
  {
    hide ParseText, NextJoin, ReadValue;
    QuotedIsRead();
    TrailingSpaceIsRead();
    var quoted := SearchPredicate(Msg, "a ", Or, 0, 0);
    assert ExpressionText([quoted]) == "MSG" + (": " + "a ");
    assert "MSG" + (": " + "\"a \"") == "MSG: \"a \"";
    OneRowRead(Msg, "a ", "a");
    OneRowRead(Msg, "\"a \"", "a ");
  }

  lemma ValueIs(text: string, raw: string, value: string)
    requires SkipSpace(TrimEnd(text)) == raw != "" && Unquoted(raw) == Some(value)
    requires !Dangling(raw) && !UnknownSource(raw)
    ensures ReadValue(text, 0, Msg) == Ok((0, value))
  {
    hide TrimEnd, SkipSpace, Dangling, UnknownSource, Unquoted;
  }

  lemma TrailingSpaceIsRead()
    ensures NextJoin([' '] + "a ", Outside).None? && ReadValue([' '] + "a ", 0, Msg) == Ok((0, "a"))
  {
    hide NextJoin, ReadValue;
    var s := [' '] + "a ";
    assert s[1..] == "a " && "a "[1..] == " " && " "[1..] == "";
    SpaceIsNoJoin("a ");
    NoJoinYet(s, Outside);
    NoJoinYet("a ", Outside);
    assert SkipSpace(" ") == "";
    NoJoinYet(" ", Outside);
    NoJoinInNothing(Outside);
    assert s[..2] == " a" && TrimEnd(" a") == " a" && TrimEnd(s) == " a";
    SkipOneSpace("a");
    assert [' '] + "a" == " a";
    ValueIs(s, "a", "a");
  }

  lemma QuotedValue()
    ensures Unquoted("\"a \"") == Some("a ")
    ensures !Dangling("\"a \"") && !UnknownSource("\"a \"")
  {
    var raw := "\"a \"";
    assert raw[1..3] == "a " && "a "[1..] == " " && " "[1..] == "";
    assert Unescaped(" ", '"') == " " + Unescaped("", '"') == " ";
    assert Unescaped("a ", '"') == "a" + Unescaped(" ", '"') == "a ";
    forall i: nat | 1 <= i < |raw| ensures !DanglingAt(raw, i) {
      assert raw[2..] == " \"" && SkipSpace(" \"") == "\"";
    }
    forall i: nat | i < |raw| ensures !UnknownSourceAt(raw, i) {
    }
  }

  lemma QuotedIsRead()
    ensures NextJoin([' '] + "\"a \"", Outside).None? && ReadValue([' '] + "\"a \"", 0, Msg) == Ok((0, "a "))
  {
    hide NextJoin, ReadValue, Unquoted, Dangling, UnknownSource;
    var raw := "\"a \"";
    var s, inside := [' '] + raw, Inside('"', false);
    assert s[1..] == raw && raw[1..] == "a \"" && "a \""[1..] == " \"" && " \""[1..] == "\"" && "\""[1..] == "";
    SpaceIsNoJoin(raw);
    NoJoinYet(s, Outside);
    NoJoinYet(raw, Outside);
    NoJoinYet("a \"", inside);
    NoJoinYet(" \"", inside);
    NoJoinYet("\"", inside);
    NoJoinInNothing(Outside);
    TrimmedAlready(s);
    SkipOneSpace(raw);
    QuotedValue();
    ValueIs(s, raw, "a ");
  }

  // -------------------------------------------------------------------- grouping

  function GroupRange(ps: seq<SearchPredicate>, start: int, end: int): (r: seq<SearchPredicate>)
    ensures |r| == |ps|
  {
    if start < 0 || end >= |ps| || start >= end then ps
    else
      ps[start := ps[start].(openGroups := ps[start].openGroups + 1)]
        [end := ps[end].(closeGroups := ps[end].closeGroups + 1)]
  }

  function UngroupRange(ps: seq<SearchPredicate>, start: int, end: int): (r: seq<SearchPredicate>)
    ensures |r| == |ps|
  {
    if start < 0 || end >= |ps| || start >= end then ps
    else if ps[start].openGroups == 0 || ps[end].closeGroups == 0 then ps
    else
      ps[start := ps[start].(openGroups := ps[start].openGroups - 1)]
        [end := ps[end].(closeGroups := ps[end].closeGroups - 1)]
  }

  lemma {:induction false} GroupedBalance(ps: seq<SearchPredicate>, start: nat, end: nat, n: nat)
    requires start < end < |ps| && n <= |ps|
    ensures Balance(GroupRange(ps, start, end), n) == Balance(ps, n) + if start < n <= end then 1 else 0
  {
    if n > 0 { GroupedBalance(ps, start, end, n - 1); }
  }

  /** Grouping a range keeps a list balanced, and ungrouping it gives the list back. */
  lemma GroupingKeepsBalance(ps: seq<SearchPredicate>, start: int, end: int)
    ensures Balanced(ps) ==> Balanced(GroupRange(ps, start, end))
    ensures 0 <= start < end < |ps| ==> UngroupRange(GroupRange(ps, start, end), start, end) == ps
  {
    if 0 <= start < end < |ps| {
      forall n | 0 <= n <= |ps|
        ensures Balance(GroupRange(ps, start, end), n) == Balance(ps, n) + if start < n <= end then 1 else 0
      {
        GroupedBalance(ps, start, end, n);
      }
    }
  }

  /** Some group is open all the way from one row to the other. */
  ghost predicate OpenBetween(ps: seq<SearchPredicate>, start: nat, end: nat)
    requires start < end < |ps|
  {
    forall n :: start < n <= end ==> Balance(ps, n) > 0
  }

  /** Between the two rows every depth drops by one, so ungrouping keeps a list balanced exactly
      where no depth was zero. */
  lemma UngroupingKeepsBalance(ps: seq<SearchPredicate>, start: nat, end: nat)
    requires Balanced(ps) && start < end < |ps| && ps[start].openGroups > 0 && ps[end].closeGroups > 0
    ensures Balanced(UngroupRange(ps, start, end)) <==> OpenBetween(ps, start, end)
  {
    var r := UngroupRange(ps, start, end);
    forall n | 0 <= n <= |ps| ensures Balance(r, n) == Balance(ps, n) - if start < n <= end then 1 else 0 {
      UngroupedBalance(ps, start, end, n);
    }
    if Balanced(r) {
      forall n | start < n <= end ensures Balance(ps, n) > 0 {
        assert Balance(r, n) >= 0;
      }
    }
  }

  lemma {:induction false} UngroupedBalance(ps: seq<SearchPredicate>, start: nat, end: nat, n: nat)
    requires start < end < |ps| && n <= |ps| && ps[start].openGroups > 0 && ps[end].closeGroups > 0
    ensures Balance(UngroupRange(ps, start, end), n) == Balance(ps, n) - if start < n <= end then 1 else 0
  {
    if n > 0 { UngroupedBalance(ps, start, end, n - 1); }
  }

  function OpensMore(p: SearchPredicate, count: nat): SearchPredicate {
    p.(openGroups := p.openGroups + count)
  }

  function ClosesMore(p: SearchPredicate, count: nat): SearchPredicate {
    p.(closeGroups := p.closeGroups + count)
  }

  /** Removing a row hands its openings to the next row and its closings to the one before. */
  function RemoveAt(ps: seq<SearchPredicate>, index: int): seq<SearchPredicate> {
    if index < 0 || index >= |ps| then ps
    else
      var removed, left := ps[index], ps[..index] + ps[index + 1..];
      if left == [] then []
      else
        var moved := if index < |left| then left[index := OpensMore(left[index], removed.openGroups)] else left;
        var closed :=
          if index > 0 then moved[index - 1 := ClosesMore(moved[index - 1], removed.closeGroups)] else moved;
        closed[0 := closed[0].(join := Or)]
  }

  /** The balance of the first n rows left, in terms of the rows there were. */
  function BalanceLeft(ps: seq<SearchPredicate>, index: nat, n: nat): int
    requires index < |ps| && n < |ps|
  {
    if n < index then Balance(ps, n)
    else if n == index then (if index == 0 then 0 else Balance(ps, n) - ps[index].closeGroups)
    else Balance(ps, n + 1) + (if index == 0 then ps[0].closeGroups else 0)
  }

  lemma {:induction false} RemovedBalance(ps: seq<SearchPredicate>, index: nat, n: nat)
    requires index < |ps| && |ps| > 1 && n < |ps|
    ensures |RemoveAt(ps, index)| == |ps| - 1 && Balance(RemoveAt(ps, index), n) == BalanceLeft(ps, index, n)
  {
    if n > 0 {
      RemovedBalance(ps, index, n - 1);
      var r := RemoveAt(ps, index);
      assert Balance(r, n) == Balance(r, n - 1) + r[n - 1].openGroups - r[n - 1].closeGroups;
      assert Balance(ps, n + 1) == Balance(ps, n) + ps[n].openGroups - ps[n].closeGroups;
      if n > 1 { assert Balance(ps, n) == Balance(ps, n - 1) + ps[n - 1].openGroups - ps[n - 1].closeGroups; }
    }
  }

  lemma BalanceLeftIsFine(ps: seq<SearchPredicate>, index: nat)
    requires Balanced(ps) && index < |ps| && |ps| > 1
    ensures ps[index].closeGroups <= Balance(ps, index) ==> BalanceLeft(ps, index, |ps| - 1) == 0
    ensures ps[index].closeGroups <= Balance(ps, index) ==> forall n: nat :: n < |ps| ==> BalanceLeft(ps, index, n) >= 0
    ensures ps[index].closeGroups > Balance(ps, index) ==>
            BalanceLeft(ps, index, index) < 0 || BalanceLeft(ps, index, |ps| - 1) > 0
  {
    assert Balance(ps, index + 1) == Balance(ps, index) + ps[index].openGroups - ps[index].closeGroups;
    assert Balance(ps, 0) == 0;
  }

  /** Removing a row keeps a list balanced exactly when it is the only row or closes no more
      groups than were open before it. */
  lemma RemovalKeepsBalance(ps: seq<SearchPredicate>, index: nat)
    requires Balanced(ps) && index < |ps|
    ensures Balanced(RemoveAt(ps, index)) <==> |ps| == 1 || ps[index].closeGroups <= Balance(ps, index)
  {
    var r := RemoveAt(ps, index);
    if |ps| == 1 { return; }
    BalanceLeftIsFine(ps, index);
    RemovedBalance(ps, index, index);
    RemovedBalance(ps, index, |ps| - 1);
    if ps[index].closeGroups <= Balance(ps, index) {
      forall n | 0 <= n <= |r| ensures Balance(r, n) >= 0 {
        RemovedBalance(ps, index, n);
      }
    } else {
      assert Balance(r, index) < 0 || Balance(r, |r|) > 0;
    }
  }

  /** Removing the middle of a, (b), a, or ungrouping the ends of (b), a, (b), loses the balance. */
  lemma BalanceCanBeLost()
    ensures var a, b := SearchPredicate(Msg, "a", Or, 0, 0), SearchPredicate(Msg, "b", Or, 1, 1);
      && Balanced([a, b, a]) && !Balanced(RemoveAt([a, b, a], 1))
      && Balanced([b, a, b]) && !Balanced(UngroupRange([b, a, b], 0, 2))
  {
    var a, b := SearchPredicate(Msg, "a", Or, 0, 0), SearchPredicate(Msg, "b", Or, 1, 1);
    var x, y := [a, b, a], [b, a, b];
    assert Balance(x, 0) == 0 && Balance(y, 0) == 0;
    assert Balance(x, 1) == Balance(x, 0) + 0 - 0 && Balance(y, 1) == Balance(y, 0) + 1 - 1;
    assert Balance(x, 2) == Balance(x, 1) + 1 - 1 && Balance(y, 2) == Balance(y, 1) + 0 - 0;
    assert Balance(x, 3) == Balance(x, 2) + 0 - 0 && Balance(y, 3) == Balance(y, 2) + 1 - 1;
    RemovalKeepsBalance(x, 1);
    UngroupingKeepsBalance(y, 0, 2);
    assert !OpenBetween(y, 0, 2);
  }

  /** searchExpressionError has nothing to say exactly when the groups balance and no row has more than eight. */
  method SearchExpressionError(ps: seq<SearchPredicate>) returns (valid: bool)
    ensures valid <==> Balanced(ps) && forall i :: 0 <= i < |ps| ==> ps[i].openGroups <= 8 && ps[i].closeGroups <= 8
  {
    var balance := 0;
    for i := 0 to |ps|
      invariant balance == Balance(ps, i)
      invariant forall n :: 0 <= n <= i ==> Balance(ps, n) >= 0
      invariant forall j :: 0 <= j < i ==> ps[j].openGroups <= 8 && ps[j].closeGroups <= 8
    {
      if ps[i].openGroups > 8 || ps[i].closeGroups > 8 { return false; }
      balance := balance + ps[i].openGroups - ps[i].closeGroups;
      if balance < 0 {
        assert Balance(ps, i + 1) < 0;
        return false;
      }
    }
    return balance == 0;
  }
}
