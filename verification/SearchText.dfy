/**
 * Single conditions as they are typed: quoting protects any value, words are read in any
 * case, and what is wrong is named (apps/desktop/frontend/src/lib/search-expression.ts).
 */
module SearchText {
  import opened Common
  import opened SearchGrammar
  import opened SearchEvaluator
  import opened SearchExpression

  // ----------------------------------------------------------------- single rows

  /** A text that is one row without groups or joins, whatever becomes of its value. */
  lemma OneConditionRead(source: Source, z: string)
    requires NextJoin([' '] + z, Outside).None?
    ensures ParseText(SourceText(source) + (": " + z))
         == match ReadValue([' '] + z, 0, source)
            case Ok((_, value)) => Parsed([SearchPredicate(source, value, Or, 0, 0)], None)
            case Err(mistake) => Parsed([], Some(mistake))
  {
    hide NextJoin, ReadValue, ParseText;
    match ReadValue([' '] + z, 0, source)
    case Ok((n, value)) => OneRowRead(source, z, value);
    case Err(mistake) => OneRowRefused(source, z, mistake);
  }

  lemma OneRowRefused(source: Source, z: string, mistake: Mistake)
    requires NextJoin([' '] + z, Outside).None? && ReadValue([' '] + z, 0, source) == Err(mistake)
    ensures ParseText(SourceText(source) + (": " + z)) == Parsed([], Some(mistake))
  {
    hide NextJoin, ReadValue, SourceAt;
    var s := SourceText(source) + (": " + z);
    assert s[0] == SourceText(source)[0];
    SkipOneSpace(s);
    OpensPrinted(0, s);
    assert Times('(', 0) + s == s;
    SourcePrinted(source, z);
  }

  /** A text of white space asks for nothing. */
  lemma BlankIsNothing(s: string)
    requires forall i :: 0 <= i < |s| ==> IsSpace(s[i])
    ensures ParseText(s) == Parsed([], None)
  {
    hide IsSpace;
    var n := DroppedLeading(s, IsSpace);
  }

  // -------------------------------------------------------------------- quoting

  /** The value with a backslash before every backslash and quotation mark. */
  function Escaped(v: string, mark: char): string {
    if v == "" then ""
    else (if v[0] == '\\' || v[0] == mark then ['\\', v[0]] else [v[0]]) + Escaped(v[1..], mark)
  }

  function InQuotes(v: string, mark: char): string {
    [mark] + (Escaped(v, mark) + [mark])
  }

  lemma {:induction false} UnescapedInverts(v: string, mark: char)
    requires mark == '"' || mark == '\''
    ensures Unescaped(Escaped(v, mark), mark) == v
  {
    if v != "" {
      var rest := Escaped(v[1..], mark);
      UnescapedInverts(v[1..], mark);
      if v[0] == '\\' || v[0] == mark {
        var s := ['\\', v[0]] + rest;
        assert s[2..] == rest;
      } else {
        var s := [v[0]] + rest;
        assert s[1..] == rest;
      }
      assert v == [v[0]] + v[1..];
    }
  }

  /** A quoted value hides every join in it. */
  lemma {:induction false} NoJoinInQuotes(v: string, mark: char)
    requires mark == '"' || mark == '\''
    ensures NextJoin(Escaped(v, mark) + [mark], Inside(mark, false)).None?
  {
    hide NextJoin, JoinAt;
    var s := Escaped(v, mark) + [mark];
    if v == "" {
      assert s == [mark] && s[1..] == "";
      NoJoinYet(s, Inside(mark, false));
      NoJoinInNothing(Outside);
    } else {
      var rest := Escaped(v[1..], mark) + [mark];
      NoJoinInQuotes(v[1..], mark);
      NoJoinYet(s, Inside(mark, false));
      if v[0] == '\\' || v[0] == mark {
        assert s == ['\\'] + ([v[0]] + rest);
        assert s[1..] == [v[0]] + rest && s[1..][1..] == rest;
        NoJoinYet(s[1..], Inside(mark, true));
      } else {
        assert s == [v[0]] + rest;
        assert s[1..] == rest;
      }
    }
  }

  lemma QuotesHideJoins(v: string, mark: char)
    requires mark == '"' || mark == '\''
    ensures NextJoin([' '] + InQuotes(v, mark), Outside).None?
  {
    hide NextJoin, JoinAt, Escaped;
    var raw := InQuotes(v, mark);
    var s := [' '] + raw;
    assert s[1..] == raw && raw[1..] == Escaped(v, mark) + [mark];
    SpaceIsNoJoin(raw);
    NoJoinInQuotes(v, mark);
    NoJoinYet(raw, Outside);
    NoJoinYet(s, Outside);
  }

  lemma UnquotedInverts(v: string, mark: char)
    requires mark == '"' || mark == '\''
    ensures Unquoted(InQuotes(v, mark)) == Some(v)
  {
    hide Escaped, Unescaped;
    var raw := InQuotes(v, mark);
    assert raw[1..|raw| - 1] == Escaped(v, mark);
    UnescapedInverts(v, mark);
  }

  /** Nothing that ends in a quotation mark dangles. */
  lemma QuotedDoesNotDangle(raw: string)
    requires raw != "" && raw[|raw| - 1] in {'"', '\''}
    ensures !Dangling(raw)
  {
    hide IsSpace, OnlyGroups, BeginsJoin;
    MarkIsNoSpace(raw[|raw| - 1]);
    forall i: nat | 1 <= i < |raw| ensures !DanglingAt(raw, i) {
      var t := SkipSpace(raw[i..]);
      var n := DroppedLeading(raw[i..], IsSpace);
      assert raw[i..][|raw| - i - 1] == raw[|raw| - 1];
      assert n < |raw| - i && t[|t| - 1] == raw[|raw| - 1];
      EndsInMark(t, 2);
      EndsInMark(t, 3);
    }
  }

  lemma MarkIsNoSpace(c: char)
    requires c in {'"', '\''}
    ensures !IsSpace(c)
  {
  }

  lemma EndsInMark(t: string, n: nat)
    requires t != "" && t[|t| - 1] in {'"', '\''}
    ensures n < |t| ==> !OnlyGroups(t[n..])
    ensures BeginsJoin(t, And) ==> 3 < |t|
    ensures BeginsJoin(t, Or) ==> 2 < |t|
  {
    if n < |t| {
      assert t[n..][|t| - n - 1] == t[|t| - 1];
    }
  }

  /**
   * Between quotation marks any value at all is read as it is, its own marks and backslashes behind
   * backslashes, joins and parentheses included; except that a join before a word and a colon is taken
   * for a condition with an unknown source even there.
   */
  lemma QuotedValuesAreRead(source: Source, v: string, mark: char)
    requires mark == '"' || mark == '\''
    ensures ParseText(SourceText(source) + (": " + InQuotes(v, mark)))
         == if UnknownSource(InQuotes(v, mark)) then Parsed([], Some(UnknownLabel))
            else Parsed([SearchPredicate(source, v, Or, 0, 0)], None)
  {
    hide NextJoin, Dangling, UnknownSource, Unquoted, ParseText, Escaped;
    var raw := InQuotes(v, mark);
    QuotesHideJoins(v, mark);
    OneConditionRead(source, raw);
    assert raw[0] == mark && raw[|raw| - 1] == mark;
    assert ([' '] + raw)[|raw|] == mark;
    TrimmedAlready([' '] + raw);
    SkipOneSpace(raw);
    QuotedDoesNotDangle(raw);
    UnquotedInverts(v, mark);
  }

  /** A quoted value that is refused all the same. */
  lemma QuotedValueCanBeRefused()
    ensures ParseText("MSG" + (": " + InQuotes("a or b:", '"'))) == Parsed([], Some(UnknownLabel))
  {
    hide ParseText, UnknownSource;
    var v, raw := "a or b:", InQuotes("a or b:", '"');
    QuotedExample(v);
    var t := raw[3..];
    assert t == "or b:\"" && t[2..] == " b:\"";
    LabelExample();
    assert UnknownSourceAt(raw, 2);
    UnknownSourceHere(raw, 2);
    QuotedValuesAreRead(Msg, v, '"');
  }

  lemma UnknownSourceHere(raw: string, i: nat)
    requires i < |raw| && UnknownSourceAt(raw, i)
    ensures UnknownSource(raw)
  {
  }

  lemma QuotedExample(v: string)
    requires v == "a or b:"
    ensures InQuotes(v, '"') == "\"a or b:\""
  {
    NothingEscaped(v, '"');
  }

  lemma {:induction false} NothingEscaped(v: string, mark: char)
    requires forall i :: 0 <= i < |v| ==> v[i] != '\\' && v[i] != mark
    ensures Escaped(v, mark) == v
  {
    if v != "" {
      NothingEscaped(v[1..], mark);
      assert v == [v[0]] + v[1..];
    }
  }

  lemma LabelExample()
    ensures LabelAfterSpace(" b:\"")
  {
    var s := "b:\"";
    assert " b:\""[1..] == s;
    SkipOneSpace(s);
    assert [' '] + s == " b:\"";
    assert s[1..] == ":\"" && ":\""[1..] == "\"";
    assert SkipSpace(":\"") == ":\"";
    assert AfterColon(s, 1).Some?;
    assert forall k :: 0 <= k < 1 ==> IsWordChar(s[k]);
  }

  // ------------------------------------------------------- words in any case

  /** The same letters, in any case. */
  predicate Spells(w: string, word: string) {
    |w| == |word| && forall i :: 0 <= i < |w| ==> Lower(w[i]) == word[i]
  }

  function JoinWord(join: Join): string {
    if join == And then "and" else "or"
  }

  predicate SourceWord(word: string, source: Source) {
    match source
    case Msg => word == "msg" || word == "message"
    case Diff => word == "diff"
    case File => word == "file"
  }

  /** A source is named by its word in any case, with white space before the colon or none. */
  lemma SourcesAreSpelled(w: string, word: string, source: Source, space: string, rest: string)
    requires Spells(w, word) && SourceWord(word, source) && forall i :: 0 <= i < |space| ==> IsSpace(space[i])
    ensures SourceAt(w + (space + (":" + rest))) == Some((source, rest))
  {
    hide IsSpace, AfterColon;
    var s, tail := w + (space + (":" + rest)), space + (":" + rest);
    assert s[|w|..] == tail;
    assert forall i :: 0 <= i < |w| ==> Lower(s[i]) == word[i];
    ColonFound(s, |w|, space, rest);
    if word == "message" {
      assert Lower(s[0]) == 'm' && Lower(s[1]) == 'e' && Lower(s[2]) == 's' && Lower(s[3]) == 's'
             && Lower(s[4]) == 'a' && Lower(s[5]) == 'g' && Lower(s[6]) == 'e';
    } else {
      assert Lower(s[0]) == word[0] && Lower(s[1]) == word[1] && Lower(s[2]) == word[2];
      assert |word| == 4 ==> Lower(s[3]) == word[3];
    }
  }

  lemma ColonFound(s: string, n: nat, space: string, rest: string)
    requires n <= |s| && s[n..] == space + (":" + rest) && forall i :: 0 <= i < |space| ==> IsSpace(space[i])
    ensures AfterColon(s, n) == Some(rest)
  {
    SkipsAll(space, ":" + rest);
    assert (":" + rest)[1..] == rest;
  }

  lemma {:induction false} SkipsAll(space: string, rest: string)
    requires (forall i :: 0 <= i < |space| ==> IsSpace(space[i])) && rest != "" && !IsSpace(rest[0])
    ensures SkipSpace(space + rest) == rest
  {
    hide IsSpace;
    if space == "" {
      assert space + rest == rest;
    } else {
      assert (space + rest)[1..] == space[1..] + rest;
      SkipsAll(space[1..], rest);
    }
  }

  /** A join is its word in any case behind white space, when no word goes on from it. */
  lemma JoinsAreSpelled(space: string, w: string, join: Join, rest: string)
    requires space != "" && forall i :: 0 <= i < |space| ==> IsSpace(space[i])
    requires Spells(w, JoinWord(join)) && (rest == "" || !IsWordChar(rest[0]))
    ensures JoinAt(space + (w + rest)) == Some((join, rest))
  {
    hide IsSpace;
    var t := w + rest;
    assert forall i :: 0 <= i < |w| ==> Lower(t[i]) == JoinWord(join)[i];
    assert Lower(t[0]) == if join == And then 'a' else 'o';
    LetterIsNoSpace(t[0]);
    SkipsAll(space, t);
    assert t[|w|..] == rest && (rest != "" ==> t[|w|] == rest[0]);
    assert Lower(t[1]) == if join == And then 'n' else 'r';
    assert join == And ==> Lower(t[2]) == 'd';
  }

  lemma LetterIsNoSpace(c: char)
    requires 'a' <= Lower(c) <= 'z'
    ensures !IsSpace(c)
  {
  }

  // --------------------------------------------------------- what is wrong is named

  /** Nine openings are too many. */
  lemma TooManyAreReported(n: nat, rest: string)
    requires n > 8 && rest != "" && !IsSpace(rest[0]) && rest[0] != '('
    ensures ParseText(Times('(', n) + rest) == Parsed([], Some(TooManyOpenings))
  {
    var s := Times('(', n) + rest;
    assert s[0] == '(';
    SkipOneSpace(s);
    OpensPrinted(n, rest);
  }

  lemma NoSourceRefused(s: string)
    requires s != "" && !IsSpace(s[0]) && s[0] != '(' && SourceAt(s).None?
    ensures ParseText(s) == Parsed([], Some(if NamesSource(s) then MissingColon else ExpectedSource))
  {
    hide SourceAt, NamesSource;
    SkipOneSpace(s);
    assert Times('(', 0) + s == s;
    OpensPrinted(0, s);
  }

  /** A text that begins with no source is told to name one, and one that does without a colon to add it. */
  lemma MissingSourceIsReported(s: string)
    requires s != "" && !IsSpace(s[0]) && s[0] != '(' && Lower(s[0]) !in "mdf"
    ensures ParseText(s) == Parsed([], Some(ExpectedSource))
  {
    hide ParseText;
    NoSourceAhead(s);
    NoSourceRefused(s);
    assert Lower(s[0]) != 'm' && Lower(s[0]) != 'd' && Lower(s[0]) != 'f';
  }

  lemma MissingColonIsReported(w: string, word: string, source: Source, rest: string)
    requires Spells(w, word) && SourceWord(word, source)
    requires rest == "" || (!IsWordChar(rest[0]) && rest[0] != ':' && !IsSpace(rest[0]))
    ensures ParseText(w + rest) == Parsed([], Some(MissingColon))
  {
    hide ParseText, SourceAt, NamesSource, IsSpace;
    WordIsNoSource(w, word, source, rest);
    assert Lower((w + rest)[0]) == word[0];
    LetterIsNoSpace((w + rest)[0]);
    NoSourceRefused(w + rest);
  }

  lemma WordIsNoSource(w: string, word: string, source: Source, rest: string)
    requires Spells(w, word) && SourceWord(word, source)
    requires rest == "" || (!IsWordChar(rest[0]) && rest[0] != ':' && !IsSpace(rest[0]))
    ensures SourceAt(w + rest).None? && NamesSource(w + rest)
  {
    hide IsSpace, IsWordChar, SkipSpace;
    var s := w + rest;
    assert s[|w|..] == rest && (rest != "" ==> s[|w|] == rest[0]);
    assert forall i :: 0 <= i < |w| ==> Lower(s[i]) == word[i];
    assert Lower(s[0]) == word[0] && Lower(s[1]) == word[1] && Lower(s[2]) == word[2];
    NothingToSkip(rest);
    if word == "message" {
      assert Lower(s[3]) == 's' && Lower(s[4]) == 'a' && Lower(s[5]) == 'g' && Lower(s[6]) == 'e';
    } else if |word| == 4 {
      assert Lower(s[3]) == word[3];
    }
  }

  lemma NothingToSkip(rest: string)
    requires rest == "" || !IsSpace(rest[0])
    ensures SkipSpace(rest) == rest
  {
  }

  /** A condition without a value is told so. */
  lemma EmptyPatternIsReported(source: Source)
    ensures ParseText(SourceText(source) + (": " + "")) == Parsed([], Some(EmptyPattern(source)))
  {
    hide NextJoin, ParseText;
    assert [' '] + "" == " " && " "[1..] == "";
    SpaceAlone();
    NoJoinYet(" ", Outside);
    NoJoinInNothing(Outside);
    OneConditionRead(source, "");
  }

  lemma SpaceAlone()
    ensures SkipSpace(" ") == "" && TrimEnd(" ") == "" && SkipSpace("") == "" && JoinAt(" ").None?
  {
    assert " "[1..] == "" && " "[..0] == "";
  }

  /** A value that opens a quotation and does not close it is told so. */
  lemma OpenQuoteIsReported(source: Source, mark: char, v: string)
    requires (mark == '"' || mark == '\'') && v != "" && PlainText(v)
    ensures ParseText(SourceText(source) + (": " + ([mark] + v))) == Parsed([], Some(OpenQuote))
  {
    hide NextJoin, ParseText, Plain;
    var raw := [mark] + v;
    assert raw[1..] == v && ([' '] + raw)[1..] == raw;
    assert raw[|raw| - 1] == v[|v| - 1] && Plain(v[|v| - 1]);
    assert ([' '] + raw)[|raw|] == v[|v| - 1];
    PlainHidesJoins(v, mark, false);
    SpaceIsNoJoin(raw);
    NoJoinYet(raw, Outside);
    NoJoinYet([' '] + raw, Outside);
    PlainIs(v[|v| - 1]);
    TrimmedAlready([' '] + raw);
    SkipOneSpace(raw);
    forall i | 0 <= i < |raw| ensures !IsSpace(raw[i]) {
      if i > 0 {
        assert raw[i] == v[i - 1] && Plain(v[i - 1]);
        PlainIs(v[i - 1]);
      }
    }
    SolidIsClean(raw);
    OneConditionRead(source, raw);
  }

  lemma PlainIs(c: char)
    requires Plain(c)
    ensures !IsSpace(c) && c != '"' && c != '\'' && c != ')'
  {
  }

  lemma {:induction false} PlainHidesJoins(v: string, mark: char, escaped: bool)
    requires PlainText(v) && (mark == '"' || mark == '\'')
    ensures NextJoin(v, Inside(mark, escaped)).None?
  {
    hide NextJoin, JoinAt;
    if v == "" {
      NoJoinInNothing(Inside(mark, escaped));
    } else {
      assert Plain(v[0]);
      NoJoinYet(v, Inside(mark, escaped));
      PlainHidesJoins(v[1..], mark, !escaped && v[0] == '\\');
    }
  }

  /** Without white space nothing dangles, and no source is unknown. */
  lemma SolidIsClean(raw: string)
    requires forall i :: 0 <= i < |raw| ==> !IsSpace(raw[i])
    ensures !Dangling(raw) && !UnknownSource(raw)
  {
    hide IsSpace;
    assert forall i: nat :: 1 <= i < |raw| ==> !DanglingAt(raw, i);
    assert forall i: nat :: i < |raw| ==> !UnknownSourceAt(raw, i);
  }

  /** A join with nothing behind it is told so. */
  lemma DanglingJoinIsReported(source: Source, v: string, join: Join)
    requires v != "" && PlainText(v)
    ensures ParseText(SourceText(source) + (": " + (v + ([' '] + JoinText(join))))) == Parsed([], Some(DanglingJoin))
  {
    hide NextJoin, ParseText, ReadValue, PlainText;
    NoJoinBefore(v, [' '] + JoinText(join));
    DanglingValue(source, v, join);
    OneConditionRead(source, v + ([' '] + JoinText(join)));
  }

  lemma DanglingValue(source: Source, v: string, join: Join)
    requires v != "" && PlainText(v)
    ensures ReadValue([' '] + (v + ([' '] + JoinText(join))), 0, source) == Err(DanglingJoin)
  {
    hide Plain, IsSpace, DanglingAt, SkipSpace, TrimEnd;
    var word := JoinText(join);
    var raw := v + ([' '] + word);
    JoinWordIs(word, join);
    assert v[0] == raw[0] && Plain(v[0]);
    PlainIs(v[0]);
    assert raw[|raw| - 1] == word[|word| - 1] && ([' '] + raw)[|raw|] == raw[|raw| - 1];
    TrimmedAlready([' '] + raw);
    SkipOneSpace(raw);
    DanglesAt(v, word, join);
  }

  lemma DanglesAt(v: string, word: string, join: Join)
    requires v != "" && PlainText(v) && word == JoinText(join)
    ensures DanglingAt(v + ([' '] + word), |v|)
  {
    hide Plain, IsSpace, SkipSpace;
    var raw := v + ([' '] + word);
    JoinWordIs(word, join);
    PlainHasNoBreak(v);
    SpaceIsSpace();
    assert raw[|v|..] == [' '] + word;
    assert forall k :: 0 <= k < |v| ==> raw[k] == v[k];
    SkipOneSpace(word);
  }

  lemma SpaceIsSpace()
    ensures IsSpace(' ')
  {
  }

  lemma PlainHasNoBreak(v: string)
    requires PlainText(v)
    ensures forall k :: 0 <= k < |v| ==> v[k] !in "\n\r\U{2028}\U{2029}"
  {
    forall k | 0 <= k < |v| ensures v[k] !in "\n\r\U{2028}\U{2029}" {
      assert Plain(v[k]);
    }
  }

  lemma JoinWordIs(word: string, join: Join)
    requires word == JoinText(join)
    ensures word != "" && !IsSpace(word[0]) && !IsSpace(word[|word| - 1]) && BeginsJoin(word, join)
    ensures word[if join == And then 3 else 2..] == ""
    ensures forall i :: 0 <= i < |word| ==> !IsSpace(word[i]) && word[i] != '"' && word[i] != '\'' && word[i] != '('
  {
  }

  /** A plain value and a last join: no condition begins anywhere. */
  lemma NoJoinBefore(v: string, tail: string)
    requires v != "" && PlainText(v) && exists join :: tail == [' '] + JoinText(join)
    ensures NextJoin([' '] + (v + tail), Outside).None?
  {
    hide NextJoin, JoinHere, Plain, IsSpace;
    var join :| tail == [' '] + JoinText(join);
    var word := JoinText(join);
    JoinWordIs(word, join);
    SolidPlain(v);
    SolidScan(v, tail);
    LastJoinIsNone(word, join);
    assert tail[1..] == word;
    SolidScan(word, "");
    assert word + "" == word;
    NoJoinInNothing(Outside);
    BehindNothing(None);
    ScanOn("", tail, Outside);
    StartIsNone(v, tail, word, join);
    assert ([' '] + (v + tail))[1..] == v + tail;
    ScanOn("", [' '] + (v + tail), Outside);
  }

  lemma SolidPlain(v: string)
    requires PlainText(v)
    ensures Solid(v)
  {
    forall i | 0 <= i < |v| ensures !IsSpace(v[i]) && v[i] != '(' && v[i] != '"' && v[i] != '\'' {
      assert Plain(v[i]);
    }
  }

  lemma LastJoinIsNone(word: string, join: Join)
    requires word == JoinText(join)
    ensures JoinHere([' '] + word).None?
  {
    SkipOneSpace(word);
    assert word[|word|..] == "";
    NoSourceAhead("");
  }

  /** The value is not taken for a join in front of the last one. */
  lemma StartIsNone(v: string, tail: string, word: string, join: Join)
    requires v != "" && PlainText(v) && word == JoinText(join) && tail == [' '] + word
    ensures JoinHere([' '] + (v + tail)).None?
  {
    var t := v + tail;
    assert Plain(v[0]) && t[0] == v[0];
    SkipOneSpace(t);
    forall other: Join | BeginsJoin(t, other) && EndsWord(t, JoinLength(other))
      ensures SourceAt(Opens(SkipSpace(t[JoinLength(other)..])).1).None?
    {
      LastWordIsNoSource(v, tail, word, join, other);
    }
  }

  lemma LastWordIsNoSource(v: string, tail: string, word: string, join: Join, other: Join)
    requires v != "" && PlainText(v) && word == JoinText(join) && tail == [' '] + word
    requires BeginsJoin(v + tail, other) && EndsWord(v + tail, JoinLength(other))
    ensures SourceAt(Opens(SkipSpace((v + tail)[JoinLength(other)..])).1).None?
  {
    var t, n := v + tail, JoinLength(other);
    assert t[|v|] == ' ';
    assert n <= |v|;
    var rest := t[n..];
    if n == |v| {
      assert rest == tail;
      SkipOneSpace(word);
      NoSourceAhead(word);
    } else {
      assert rest[0] == v[n] && Plain(v[n]);
      SkipOneSpace(rest);
      NoSourceAhead(rest);
    }
  }

  // ------------------------------------------------------------- rows kept, rows gone

  /** A row as it was, but for its groups and perhaps its join. */
  predicate SameCondition(p: SearchPredicate, q: SearchPredicate) {
    p.source == q.source && p.value == q.value
  }

  /** Removing a row leaves the others in order as they were; the next takes over its openings, the one before
      its closings, and the row that becomes first needs no join. A row that is not there is not removed. */
  lemma RemovalLeavesTheRest(ps: seq<SearchPredicate>, index: int, k: nat)
    ensures !(0 <= index < |ps|) ==> RemoveAt(ps, index) == ps
    ensures 0 <= index < |ps| ==> |RemoveAt(ps, index)| == |ps| - 1
    ensures 0 <= index < |ps| && k < |ps| - 1 ==>
      var r, p := RemoveAt(ps, index)[k], ps[if k < index then k else k + 1];
      && SameCondition(r, p) && r.join == (if k == 0 then Or else p.join)
      && r.openGroups == p.openGroups + (if k == index then ps[index].openGroups else 0)
      && r.closeGroups == p.closeGroups + (if k == index - 1 then ps[index].closeGroups else 0)
  {
    if 0 <= index < |ps| && k < |ps| - 1 {
      var removed, left := ps[index], ps[..index] + ps[index + 1..];
      assert left[k] == ps[if k < index then k else k + 1];
      var moved := if index < |left| then left[index := OpensMore(left[index], removed.openGroups)] else left;
      assert moved[k] == if k == index then OpensMore(left[k], removed.openGroups) else left[k];
      var closed :=
        if index > 0 then moved[index - 1 := ClosesMore(moved[index - 1], removed.closeGroups)] else moved;
      assert closed[k] == if k == index - 1 then ClosesMore(moved[k], removed.closeGroups) else moved[k];
      assert RemoveAt(ps, index) == closed[0 := closed[0].(join := Or)];
    }
  }

  /** Grouping a range adds a group that opens at its first row and closes at its last, and nothing else;
      what is no range of rows is left alone. */
  lemma GroupingAddsOneGroup(ps: seq<SearchPredicate>, start: int, end: int, k: nat)
    ensures !(0 <= start < end < |ps|) ==> GroupRange(ps, start, end) == ps && UngroupRange(ps, start, end) == ps
    ensures 0 <= start < end < |ps| && k < |ps| ==>
      GroupRange(ps, start, end)[k]
      == ps[k].(openGroups := ps[k].openGroups + if k == start then 1 else 0,
                closeGroups := ps[k].closeGroups + if k == end then 1 else 0)
  {
  }

  /** Ungrouping takes such a group away if both rows have one, and else nothing. */
  lemma UngroupingTakesOneGroup(ps: seq<SearchPredicate>, start: nat, end: nat, k: nat)
    requires start < end < |ps| && k < |ps|
    ensures var r, grouped := UngroupRange(ps, start, end), ps[start].openGroups > 0 && ps[end].closeGroups > 0;
      && (!grouped ==> r == ps)
      && (grouped ==>
            SameCondition(r[k], ps[k]) && r[k].join == ps[k].join
            && r[k].openGroups + (if k == start then 1 else 0) == ps[k].openGroups
            && r[k].closeGroups + (if k == end then 1 else 0) == ps[k].closeGroups)
  {
  }

  // ------------------------------------------------- what a join in a value is

  predicate AllSpace(s: string) {
    forall i :: 0 <= i < |s| ==> IsSpace(s[i])
  }

  predicate OneLine(s: string) {
    forall k :: 0 <= k < |s| ==> s[k] !in "\n\r\U{2028}\U{2029}"
  }

  /** A word is made of the letters, the digits and the underscore of ASCII. */
  lemma WordCharsAre(c: char)
    ensures IsWordChar(c) <==> 'A' <= c <= 'Z' || 'a' <= c <= 'z' || c == '_' || c in Digits()
  {
  }

  function Digits(): set<char> {
    {'0', '1', '2', '3', '4', '5', '6', '7', '8', '9'}
  }

  lemma JoinThen(t: string, join: Join)
    requires BeginsJoin(t, join)
    ensures var n := JoinLength(join); n <= |t| && t == t[..n] + t[n..] && Spells(t[..n], JoinWord(join))
  {
    assert join == And ==> Lower(t[0]) == 'a' && Lower(t[1]) == 'n' && Lower(t[2]) == 'd';
    assert join == Or ==> Lower(t[0]) == 'o' && Lower(t[1]) == 'r';
  }

  lemma ThenJoin(word: string, join: Join, after: string)
    requires Spells(word, JoinWord(join))
    ensures BeginsJoin(word + after, join) && (word + after)[JoinLength(join)..] == after && !IsSpace(word[0])
  {
    assert Lower(word[0]) == JoinWord(join)[0] && Lower(word[1]) == JoinWord(join)[1];
    assert join == And ==> Lower(word[2]) == 'd';
    LetterIsNoSpace(word[0]);
  }

  /** Something on one line, white space, a join, and only white space and opening groups behind it. */
  ghost predicate DanglingParts(
      raw: string, before: string, space: string, word: string, join: Join, after: string) {
    && raw == before + (space + (word + after)) && before != "" && OneLine(before)
    && space != "" && AllSpace(space) && Spells(word, JoinWord(join))
    && forall k :: 0 <= k < |after| ==> IsSpace(after[k]) || after[k] == '('
  }

  /** Which values are refused for a join that dangles. */
  lemma DanglingIs(raw: string)
    ensures Dangling(raw)
            <==> exists before: string, space: string, word: string, join: Join, after: string ::
                   DanglingParts(raw, before, space, word, join, after)
  {
    hide Dangling, DanglingParts;
    if Dangling(raw) {
      var before, space, word, join, after := PartsOfDangling(raw);
    }
    forall before: string, space: string, word: string, join: Join, after: string
      | DanglingParts(raw, before, space, word, join, after)
      ensures Dangling(raw)
    {
      PartsDangle(raw, before, space, word, join, after);
    }
  }

  lemma PartsOfDangling(raw: string)
      returns (before: string, space: string, word: string, join: Join, after: string)
    requires Dangling(raw)
    ensures DanglingParts(raw, before, space, word, join, after)
  {
    hide IsSpace;
    var i: nat :| 1 <= i < |raw| && DanglingAt(raw, i);
    var t;
    space, t := SpaceThen(raw[i..]);
    word, join, after := JoinAndGroups(t);
    before := raw[..i];
    assert raw == before + raw[i..];
  }

  lemma SpaceThen(s: string) returns (space: string, t: string)
    requires s != "" && IsSpace(s[0])
    ensures s == space + t && t == SkipSpace(s) && space != "" && AllSpace(space)
  {
    hide IsSpace;
    var n := DroppedLeading(s, IsSpace);
    space, t := s[..n], s[n..];
  }

  lemma JoinAndGroups(t: string) returns (word: string, join: Join, after: string)
    requires (BeginsJoin(t, And) && OnlyGroups(t[3..])) || (BeginsJoin(t, Or) && OnlyGroups(t[2..]))
    ensures t == word + after && Spells(word, JoinWord(join)) && OnlyGroups(after)
  {
    hide OnlyGroups;
    join := if BeginsJoin(t, And) && OnlyGroups(t[3..]) then And else Or;
    JoinThen(t, join);
    word, after := t[..JoinLength(join)], t[JoinLength(join)..];
  }

  lemma PartsDangle(raw: string, before: string, space: string, word: string, join: Join, after: string)
    requires DanglingParts(raw, before, space, word, join, after)
    ensures Dangling(raw)
  {
    hide IsSpace, BeginsJoin;
    var i, t := |before|, word + after;
    ThenJoin(word, join, after);
    assert raw[i..] == space + t;
    SkipsAll(space, t);
    assert raw[i] == space[0] && forall k :: 0 <= k < i ==> raw[k] == before[k];
    assert DanglingAt(raw, i);
  }

  predicate IsLabel(s: string) {
    s != "" && IsLetter(s[0]) && forall k :: 0 <= k < |s| ==> IsWordChar(s[k]) || s[k] == '-'
  }

  /** A join between white space, a label and a colon, wherever they stand. */
  ghost predicate LabelParts(
      raw: string, before: string, space: string, word: string, join: Join, gap: string, name: string,
      blank: string, rest: string) {
    && raw == before + (space + (word + (gap + (name + (blank + (":" + rest))))))
    && space != "" && AllSpace(space) && Spells(word, JoinWord(join)) && gap != "" && AllSpace(gap)
    && IsLabel(name) && AllSpace(blank)
  }

  ghost predicate SomeLabel(raw: string) {
    exists before: string, space: string, word: string, join: Join, gap: string, name: string, blank: string,
           rest: string :: LabelParts(raw, before, space, word, join, gap, name, blank, rest)
  }

  /** Which values are refused for what looks like another source. */
  lemma UnknownSourceIs(raw: string)
    ensures UnknownSource(raw) <==> SomeLabel(raw)
  {
    hide UnknownSource, LabelParts;
    if UnknownSource(raw) {
      LabelInside(raw);
    }
    if SomeLabel(raw) {
      var before: string, space: string, word: string, join: Join, gap: string, name: string, blank: string,
          rest: string :| LabelParts(raw, before, space, word, join, gap, name, blank, rest);
      PartsAreUnknown(raw, before, space, word, join, gap, name, blank, rest);
    }
  }

  lemma LabelInside(raw: string)
    requires UnknownSource(raw)
    ensures SomeLabel(raw)
  {
    hide IsSpace, LabelAfterSpace, IsLabel;
    var i: nat :| i < |raw| && UnknownSourceAt(raw, i);
    var t := raw[i + 1..];
    var join := if BeginsJoin(t, And) && LabelAfterSpace(t[3..]) then And else Or;
    JoinThen(t, join);
    hide BeginsJoin;
    var n := JoinLength(join);
    var gap, name, blank, rest := PartsOfLabel(t[n..]);
    assert raw == raw[..i] + ([raw[i]] + (t[..n] + (gap + (name + (blank + (":" + rest))))));
    assert LabelParts(raw, raw[..i], [raw[i]], t[..n], join, gap, name, blank, rest);
  }

  lemma PartsOfLabel(s: string) returns (gap: string, name: string, blank: string, rest: string)
    requires LabelAfterSpace(s)
    ensures s == gap + (name + (blank + (":" + rest)))
    ensures gap != "" && AllSpace(gap) && IsLabel(name) && AllSpace(blank)
  {
    hide IsSpace, IsLetter, IsWordChar;
    var n := DroppedLeading(s, IsSpace);
    var t := s[n..];
    var m :| 1 <= m <= |t| && AfterColon(t, m).Some? && forall k :: 0 <= k < m ==> IsWordChar(t[k]) || t[k] == '-';
    blank, rest := PartsOfColon(t[m..]);
    gap, name := s[..n], t[..m];
    assert t == name + t[m..] && s == gap + t;
  }

  lemma PartsOfColon(s: string) returns (blank: string, rest: string)
    requires AfterColon(s, 0).Some?
    ensures s == blank + (":" + rest) && AllSpace(blank)
  {
    hide IsSpace;
    assert s[0..] == s;
    var k := DroppedLeading(s, IsSpace);
    blank, rest := s[..k], s[k + 1..];
    assert s[k] == s[k..][0] == ':';
  }

  lemma PartsAreUnknown(
      raw: string, before: string, space: string, word: string, join: Join, gap: string, name: string,
      blank: string, rest: string)
    requires LabelParts(raw, before, space, word, join, gap, name, blank, rest)
    ensures UnknownSource(raw)
  {
    hide IsSpace, BeginsJoin, LabelAfterSpace, IsLabel;
    var i, after := |before| + |space| - 1, gap + (name + (blank + (":" + rest)));
    ThenJoin(word, join, after);
    LabelBehind(gap, name, blank, rest);
    assert raw == before + (space + (word + after)) && raw[i] == space[|space| - 1] && raw[i + 1..] == word + after;
    assert UnknownSourceAt(raw, i);
    UnknownSourceHere(raw, i);
  }

  lemma LabelBehind(gap: string, name: string, blank: string, rest: string)
    requires gap != "" && AllSpace(gap) && IsLabel(name) && AllSpace(blank)
    ensures LabelAfterSpace(gap + (name + (blank + (":" + rest))))
  {
    hide IsSpace;
    var t := name + (blank + (":" + rest));
    LetterIsNoSpace(name[0]);
    SkipsAll(gap, t);
    assert t[|name|..] == blank + (":" + rest);
    ColonFound(t, |name|, blank, rest);
    assert forall k :: 0 <= k < |name| ==> t[k] == name[k];
  }
}
