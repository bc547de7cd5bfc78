/**
 * What search predicates mean, said of the rows as they are written, and what the
 * validator makes of them (internal/app/search.go).
 */
module SearchMeaning {
  import opened Common
  import opened SearchGrammar
  import opened SearchEvaluator

  // ---------------------------------------------------- AND binds tighter than OR

  ghost predicate NoGroups(predicates: seq<SearchPredicate>) {
    forall i :: 0 <= i < |predicates| ==> predicates[i].openGroups == predicates[i].closeGroups == 0
  }

  /** Rows from..to are joined by AND, no AND joins them to the rows around them, and all are hit. */
  ghost predicate HitRun(predicates: seq<SearchPredicate>, hits: seq<bool>, from: nat, to: nat)
    requires |hits| == |predicates|
  {
    && from < to <= |predicates|
    && (from == 0 || predicates[from].join == Or) && (to == |predicates| || predicates[to].join == Or)
    && (forall i :: from < i < to ==> predicates[i].join == And)
    && forall i :: from <= i < to ==> hits[i]
  }

  ghost predicate SomeRun(predicates: seq<SearchPredicate>, hits: seq<bool>, bound: nat)
    requires |hits| == |predicates|
  {
    exists from: nat, to: nat :: to <= bound && HitRun(predicates, hits, from, to)
  }

  /** What the parser holds after the first n rows: the runs that are over, and the run that begins at row s. */
  ghost predicate Holds(
      predicates: seq<SearchPredicate>, hits: seq<bool>, n: nat, frame: Frame, s: nat)
    requires |hits| == |predicates|
  {
    && s < n <= |predicates| && (s == 0 || predicates[s].join == Or)
    && (forall i :: s < i < n ==> predicates[i].join == And)
    && (frame.disjunction.None? <==> s == 0) && (frame.conjunction.None? <==> s == n - 1)
    && (frame.disjunction.Some? ==> (Value(frame.disjunction.value, hits) <==> SomeRun(predicates, hits, s)))
    && (frame.conjunction.Some? ==>
          (ConjunctionValue(frame.conjunction.value, hits) <==> forall i :: s <= i < n - 1 ==> hits[i]))
  }

  /** The run that ends before row n. */
  lemma RunEnds(predicates: seq<SearchPredicate>, hits: seq<bool>, n: nat, s: nat)
    requires |hits| == |predicates| && s < n <= |predicates| && (s == 0 || predicates[s].join == Or)
    requires (forall i :: s < i < n ==> predicates[i].join == And) && (n == |predicates| || predicates[n].join == Or)
    ensures SomeRun(predicates, hits, n)
            <==> (s > 0 && SomeRun(predicates, hits, s)) || forall i :: s <= i < n ==> hits[i]
  {
    if forall i :: s <= i < n ==> hits[i] {
      assert HitRun(predicates, hits, s, n);
    }
    if SomeRun(predicates, hits, n) {
      var from: nat, to: nat :| to <= n && HitRun(predicates, hits, from, to);
      if to > s {
        assert from == s && to == n;
      }
    }
    if s > 0 && SomeRun(predicates, hits, s) {
      var from: nat, to: nat :| to <= s && HitRun(predicates, hits, from, to);
      assert to <= n;
    }
  }

  /** The value of a level that row n - 1 ends. */
  lemma FinishedValue(predicates: seq<SearchPredicate>, hits: seq<bool>, n: nat, frame: Frame, s: nat)
    requires |hits| == |predicates| && Holds(predicates, hits, n, frame, s)
    ensures ConjunctionValue(Conjoin(frame.conjunction, Leaf(n - 1)), hits) <==> forall i :: s <= i < n ==> hits[i]
    ensures n == |predicates| || predicates[n].join == Or ==>
              (Value(Finish(frame, Leaf(n - 1)), hits) <==> SomeRun(predicates, hits, n))
  {
    if n == |predicates| || predicates[n].join == Or {
      RunEnds(predicates, hits, n, s);
    }
  }

  lemma RowTokens(predicates: seq<SearchPredicate>, n: nat)
    requires n < |predicates| && NoGroups(predicates)
    ensures Tokens(predicates, n + 1) == Tokens(predicates, n) + Joins(predicates, n) + [Hit(n)]
  {
    assert Repeat(Opening, 0) == [] && Repeat(Closing, 0) == [];
    var before, join := Tokens(predicates, n), Joins(predicates, n);
    assert before + (join + [] + [Hit(n)] + []) == before + join + [Hit(n)];
  }

  lemma {:induction false} ReadsRuns(predicates: seq<SearchPredicate>, hits: seq<bool>, n: nat)
      returns (frame: Frame, s: nat)
    requires |hits| == |predicates| && NoGroups(predicates) && 1 <= n <= |predicates|
    ensures ReadAll(NOTHING_READ, Tokens(predicates, n)) == Some(Reading([frame], Some(Leaf(n - 1))))
    ensures Holds(predicates, hits, n, frame, s)
  {
    hide ReadAll, Tokens, Holds, NoGroups, Joins;
    RowTokens(predicates, n - 1);
    if n == 1 {
      frame, s := EMPTY_FRAME, 0;
      FirstRow(predicates, hits);
      ReadOne(NOTHING_READ, Hit(0));
    } else {
      var before, from := ReadsRuns(predicates, hits, n - 1);
      frame, s := NextFrame(predicates, hits, n - 1, before, from);
      NextJoins(predicates, n - 1);
      var mid := Reading([before], Some(Leaf(n - 2)));
      ReadThenOne(NOTHING_READ, Tokens(predicates, n - 1), mid, Joining(predicates[n - 1].join));
      ReadAtTop([], before, Leaf(n - 2));
      assert [] + [before] == [before] && [] + [frame] == [frame];
      ReadThenOne(NOTHING_READ, Tokens(predicates, n - 1) + [Joining(predicates[n - 1].join)],
                  Reading([frame], None), Hit(n - 1));
    }
  }

  lemma NextJoins(predicates: seq<SearchPredicate>, n: nat)
    requires 0 < n < |predicates|
    ensures Joins(predicates, n) == [Joining(predicates[n].join)]
  {
  }

  lemma FirstRow(predicates: seq<SearchPredicate>, hits: seq<bool>)
    requires |hits| == |predicates| && predicates != []
    ensures Holds(predicates, hits, 1, EMPTY_FRAME, 0)
    ensures Tokens(predicates, 0) + Joins(predicates, 0) + [Hit(0)] == [Hit(0)]
  {
  }

  /** What the join of row n does to the level. */
  lemma NextFrame(predicates: seq<SearchPredicate>, hits: seq<bool>, n: nat, frame: Frame, s: nat)
      returns (frame': Frame, s': nat)
    requires |hits| == |predicates| && 0 < n < |predicates| && Holds(predicates, hits, n, frame, s)
    ensures frame' == (if predicates[n].join == And
                       then Frame(frame.disjunction, Some(Conjoin(frame.conjunction, Leaf(n - 1))))
                       else Frame(Some(Finish(frame, Leaf(n - 1))), None))
    ensures Holds(predicates, hits, n + 1, frame', s')
  {
    FinishedValue(predicates, hits, n, frame, s);
    if predicates[n].join == And {
      frame', s' := Frame(frame.disjunction, Some(Conjoin(frame.conjunction, Leaf(n - 1)))), s;
    } else {
      frame', s' := Frame(Some(Finish(frame, Leaf(n - 1))), None), n;
    }
  }

  /**
   * Rows without groups match exactly when all the rows of some run joined by AND are hit: AND binds
   * tighter than OR.
   */
  lemma PlainRowsMean(predicates: seq<SearchPredicate>, hits: seq<bool>)
    requires |hits| == |predicates| && predicates != [] && NoGroups(predicates)
    ensures var tree := Parse(Tokens(predicates, |predicates|));
      tree.Some? && (Value(tree.value, hits) <==> SomeRun(predicates, hits, |predicates|))
  {
    hide ReadAll, Tokens, Value, Holds, SomeRun;
    var frame, s := ReadsRuns(predicates, hits, |predicates|);
    FinishedValue(predicates, hits, |predicates|, frame, s);
    ParseReads(Tokens(predicates, |predicates|));
  }

  /** A group that spans a whole list of tokens changes nothing but where it may stand. */
  lemma GroupsKeepTheValue(d: Disjunction, hits: seq<bool>)
    ensures var grouped := Just(One(Group(d)));
      && Parse([Opening] + Text(d) + [Closing]) == Some(grouped)
      && (Value(grouped, hits) <==> Value(d, hits))
  {
    var grouped := Just(One(Group(d)));
    assert AtomText(Group(d)) == [Opening] + Text(d) + [Closing];
    assert ConjunctionText(One(Group(d))) == AtomText(Group(d));
    assert AtomValue(Group(d), hits) == Value(d, hits);
    assert ConjunctionValue(One(Group(d)), hits) == AtomValue(Group(d), hits);
    ParseInvertsText(grouped);
  }

  // ------------------------------------------------------------- the validator

  /** The text without the white space around it. */
  lemma TrimmedIs(s: string) returns (a: nat, b: nat)
    ensures a <= b <= |s| && Trim(s) == s[a..b]
    ensures forall i :: 0 <= i < a || b <= i < |s| ==> IsGoSpace(s[i])
    ensures a < b ==> !IsGoSpace(s[a]) && !IsGoSpace(s[b - 1])
  {
    hide IsGoSpace;
    a, b := DroppedAround(s, IsGoSpace);
  }

  /** The character is this small letter, or a capital whose small letter it is. */
  predicate SmallOf(c: char, small: char) {
    c == small || ('A' <= c <= 'Z' && small == c - 'A' + 'a') || (small == 'i' && c == '\U{130}')
      || (small == 'k' && c == '\U{212a}')
  }

  /** The text is this word, in any case and with white space around it. */
  ghost predicate Names(s: string, word: string) {
    exists a: nat :: NamesAt(s, word, a)
  }

  ghost predicate NamesAt(s: string, word: string, a: nat) {
    && a + |word| <= |s|
    && (forall i :: 0 <= i < a || a + |word| <= i < |s| ==> IsGoSpace(s[i]))
    && forall i :: 0 <= i < |word| ==> SmallOf(s[a + i], word[i])
  }

  predicate SmallLetters(word: string) {
    forall i :: 0 <= i < |word| ==> 'a' <= word[i] <= 'z'
  }

  lemma FoldedNames(s: string, word: string)
    requires SmallLetters(word)
    ensures Folded(s) == word <==> Names(s, word)
  {
    hide IsGoSpace, SmallOf, GoLower;
    var a, b := TrimmedIs(s);
    forall i | 0 <= i < |Folded(s)| ensures Folded(s)[i] == GoLower(s[a + i]) {
    }
    if Folded(s) == word {
      forall i | 0 <= i < |word| ensures SmallOf(s[a + i], word[i]) {
        FoldsTo(s[a + i], word[i]);
      }
      assert NamesAt(s, word, a);
    }
    if c: nat :| NamesAt(s, word, c) {
      SameEnds(s, a, b, c, word);
      forall i | 0 <= i < |word| ensures Folded(s)[i] == word[i] {
        FoldsTo(s[a + i], word[i]);
      }
    }
  }

  lemma FoldsTo(c: char, small: char)
    requires 'a' <= small <= 'z'
    ensures GoLower(c) == small <==> SmallOf(c, small)
  {
  }

  lemma LettersAreNoSpace(c: char, small: char)
    requires 'a' <= small <= 'z' && SmallOf(c, small)
    ensures !IsGoSpace(c)
  {
  }

  lemma SameEnds(s: string, a: nat, b: nat, c: nat, word: string)
    requires a <= b <= |s| && forall i :: 0 <= i < a || b <= i < |s| ==> IsGoSpace(s[i])
    requires a < b ==> !IsGoSpace(s[a]) && !IsGoSpace(s[b - 1])
    requires NamesAt(s, word, c) && SmallLetters(word)
    ensures b - a == |word| && (word != "" ==> a == c)
  {
    hide IsGoSpace, SmallOf;
    if word == "" {
      forall i | 0 <= i < |s| ensures IsGoSpace(s[i]) {
      }
    } else {
      var last := |word| - 1;
      LettersAreNoSpace(s[c + 0], word[0]);
      LettersAreNoSpace(s[c + last], word[last]);
      assert a <= c && c + last < b;
      forall i | 0 <= i < c || c + |word| <= i < |s| ensures IsGoSpace(s[i]) {
      }
    }
  }

  /** The source a text names. */
  ghost predicate NamesSource(s: string, source: Source) {
    match source
    case Msg => Names(s, "msg")
    case Diff => Names(s, "diff")
    case File => Names(s, "file")
  }

  ghost predicate NamesASource(s: string) {
    Names(s, "msg") || Names(s, "diff") || Names(s, "file")
  }

  ghost predicate NamesAJoin(s: string) {
    Names(s, "") || Names(s, "and") || Names(s, "or")
  }

  lemma SourceNamed(s: string)
    ensures SourceOf(Folded(s)).Some? <==> NamesASource(s)
    ensures SourceOf(Folded(s)).Some? ==> NamesSource(s, SourceOf(Folded(s)).value)
  {
    hide Names, Folded;
    FoldedNames(s, "msg");
    FoldedNames(s, "diff");
    FoldedNames(s, "file");
  }

  lemma JoinNamed(s: string)
    ensures Folded(s) in {"", "and", "or"} <==> NamesAJoin(s)
    ensures Folded(s) == "and" <==> Names(s, "and")
  {
    hide Names, Folded;
    FoldedNames(s, "");
    FoldedNames(s, "and");
    FoldedNames(s, "or");
  }

  /**
   * A predicate is accepted exactly when it names a source, when it is not the first joins by AND, OR or
   * nothing, and opens and closes at most eight groups; its value is trimmed, and nothing joins like OR.
   */
  lemma NormalizedIs(raw: RawPredicate, first: bool)
    ensures var r, named, joined :=
              Normalize(raw, first), NamesASource(raw.source), first || NamesAJoin(raw.join);
      && (r.Ok? <==> named && joined && 0 <= raw.openGroups <= 8 && 0 <= raw.closeGroups <= 8)
      && (r == Err(UnsupportedSource) <==> !named)
      && (r == Err(UnsupportedJoin) <==> named && !joined)
      && (r.Ok? ==>
            && NamesSource(raw.source, r.value.source) && r.value.value == Trim(raw.value)
            && (r.value.join == And <==> !first && Names(raw.join, "and"))
            && r.value.openGroups == raw.openGroups && r.value.closeGroups == raw.closeGroups)
  {
    hide Names, Folded, NamesAJoin, NamesASource, NamesSource, SourceOf;
    SourceNamed(raw.source);
    JoinNamed(raw.join);
  }

  /** Predicates given are taken; otherwise every pattern becomes one: those on messages first, then those on
      diffs, then those on files, any of which may match. */
  lemma RequestedAre(options: SearchOptions, i: nat)
    ensures options.predicates != [] ==> Requested(options) == options.predicates
    ensures options.predicates == [] ==>
      var m, d, f := |options.messages|, |options.diffs|, |options.files|;
      && |Requested(options)| == m + d + f
      && (i < m + d + f ==>
            Requested(options)[i] ==
              RawPredicate(if i < m then "msg" else if i < m + d then "diff" else "file",
                           if i < m then options.messages[i]
                           else if i < m + d then options.diffs[i - m] else options.files[i - m - d], "or", 0, 0))
  {
  }
}
