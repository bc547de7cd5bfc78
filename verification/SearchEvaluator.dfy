/**
 * The two-stack evaluator and the validator of search predicates
 * (internal/app/search.go).
 */
module SearchEvaluator {
  import opened Common
  import opened SearchGrammar

  datatype Source = Msg | Diff | File

  /** A normalized predicate; the first one's join is not used. */
  datatype SearchPredicate = SearchPredicate(
    source: Source,
    value: string,
    join: Join,
    openGroups: nat,
    closeGroups: nat)

  // ------------------------------------------------------------------- tokens

  function Repeat(token: Token, n: nat): (r: seq<Token>)
    ensures |r| == n
  {
    if n == 0 then [] else Repeat(token, n - 1) + [token]
  }

  function Joins(predicates: seq<SearchPredicate>, i: nat): seq<Token>
    requires i < |predicates|
  {
    if i == 0 then [] else [Joining(predicates[i].join)]
  }

  function PredicateTokens(predicates: seq<SearchPredicate>, i: nat): seq<Token>
    requires i < |predicates|
  {
    Joins(predicates, i) + Repeat(Opening, predicates[i].openGroups) + [Hit(i)]
      + Repeat(Closing, predicates[i].closeGroups)
  }

  /** The first n predicates as tokens, with predicate i's hit as Hit(i). */
  function Tokens(predicates: seq<SearchPredicate>, n: nat): seq<Token>
    requires n <= |predicates|
  {
    if n == 0 then [] else Tokens(predicates, n - 1) + PredicateTokens(predicates, n - 1)
  }

  /** Opening groups minus closing groups of the first n predicates. */
  function Balance(predicates: seq<SearchPredicate>, n: nat): int
    requires n <= |predicates|
  {
    if n == 0 then 0 else Balance(predicates, n - 1) + predicates[n - 1].openGroups - predicates[n - 1].closeGroups
  }

  ghost predicate Balanced(predicates: seq<SearchPredicate>) {
    && (forall n :: 0 <= n <= |predicates| ==> Balance(predicates, n) >= 0)
    && Balance(predicates, |predicates|) == 0
  }

  // ------------------------------------------------------------- the two stacks

  datatype Operator = Joined(join: Join) | Parenthesis

  datatype Stacks = Stacks(values: seq<bool>, operators: seq<Operator>)

  function Precedence(join: Join): nat {
    if join == And then 2 else 1
  }

  function JoinCount(operators: seq<Operator>): nat {
    if operators == [] then 0
    else JoinCount(operators[..|operators| - 1]) + if operators[|operators| - 1].Joined? then 1 else 0
  }

  /** The stacks have a right operand for every operator still waiting. */
  predicate Fed(s: Stacks) {
    |s.values| == JoinCount(s.operators) + 1
  }

  predicate CanApply(s: Stacks, precedence: nat) {
    s.operators != [] && s.operators[|s.operators| - 1].Joined?
      && Precedence(s.operators[|s.operators| - 1].join) >= precedence
  }

  function ApplyTop(s: Stacks): (r: Stacks)
    requires Fed(s) && CanApply(s, 0)
    ensures Fed(r) && |r.operators| < |s.operators|
  {
    var n := |s.values|;
    var left, right := s.values[n - 2], s.values[n - 1];
    var value := if s.operators[|s.operators| - 1].join == And then left && right else left || right;
    Stacks(s.values[..n - 2] + [value], s.operators[..|s.operators| - 1])
  }

  function Reduce(s: Stacks, precedence: nat): (r: Stacks)
    requires Fed(s)
    ensures Fed(r) && !CanApply(r, precedence)
    decreases |s.operators|
  {
    if CanApply(s, precedence) then Reduce(ApplyTop(s), precedence) else s
  }

  // ---------------------------------------------- the stacks of a partial parse

  function FrameValues(frame: Frame, hits: seq<bool>): seq<bool> {
    (if frame.disjunction.Some? then [Value(frame.disjunction.value, hits)] else [])
    + (if frame.conjunction.Some? then [ConjunctionValue(frame.conjunction.value, hits)] else [])
  }

  function FrameOperators(frame: Frame): seq<Operator> {
    (if frame.disjunction.Some? then [Joined(Or)] else []) + (if frame.conjunction.Some? then [Joined(And)] else [])
  }

  function FramesValues(frames: seq<Frame>, hits: seq<bool>): seq<bool>
  {
    if frames == [] then [] else FramesValues(frames[..|frames| - 1], hits) + FrameValues(frames[|frames| - 1], hits)
  }

  function FramesOperators(frames: seq<Frame>): seq<Operator>
  {
    if frames == [] then []
    else
      var last := |frames| - 1;
      FramesOperators(frames[..last]) + (if last == 0 then [] else [Parenthesis]) + FrameOperators(frames[last])
  }

  /** The stacks the evaluator holds when the parser holds r. */
  function StacksOf(r: Reading, hits: seq<bool>): Stacks {
    Stacks(FramesValues(r.frames, hits) + (if r.last.Some? then [AtomValue(r.last.value, hits)] else []),
           FramesOperators(r.frames))
  }

  lemma TopFrame(lower: seq<Frame>, top: Frame, hits: seq<bool>)
    ensures FramesValues(lower + [top], hits) == FramesValues(lower, hits) + FrameValues(top, hits)
    ensures FramesOperators(lower + [top])
            == FramesOperators(lower) + (if lower == [] then [] else [Parenthesis]) + FrameOperators(top)
  {
    assert (lower + [top])[..|lower|] == lower;
  }

  lemma {:induction false} JoinCountAppend(a: seq<Operator>, b: seq<Operator>)
    ensures JoinCount(a + b) == JoinCount(a) + JoinCount(b)
    decreases |b|
  {
    if b == [] {
      assert a + b == a;
    } else {
      JoinCountAppend(a, b[..|b| - 1]);
      assert (a + b)[..|a + b| - 1] == a + b[..|b| - 1];
    }
  }

  lemma {:induction false} FramesAreFed(frames: seq<Frame>, hits: seq<bool>)
    ensures |FramesValues(frames, hits)| == JoinCount(FramesOperators(frames))
    decreases |frames|
  {
    if frames != [] {
      var lower, top := frames[..|frames| - 1], frames[|frames| - 1];
      FramesAreFed(lower, hits);
      var mid := if |frames| == 1 then [] else [Parenthesis];
      JoinCountAppend(FramesOperators(lower), mid);
      JoinCountAppend(FramesOperators(lower) + mid, FrameOperators(top));
      assert JoinCount(mid) == 0;
      FrameIsFed(top, hits);
    }
  }

  lemma FrameIsFed(frame: Frame, hits: seq<bool>)
    ensures |FrameValues(frame, hits)| == JoinCount(FrameOperators(frame))
  {
    var ops := FrameOperators(frame);
    if |ops| == 2 {
      assert ops[..1] == [Joined(Or)];
      assert ops[..1][..0] == [];
    } else if |ops| == 1 {
      assert ops[..0] == [];
    }
  }

  // ---------------------------------------- what reducing a level comes down to

  lemma ReduceStops(values: seq<bool>, operators: seq<Operator>, precedence: nat)
    requires Fed(Stacks(values, operators)) && (operators == [] || operators[|operators| - 1] == Parenthesis)
    ensures Reduce(Stacks(values, operators), precedence) == Stacks(values, operators)
  {
  }

  /** Applying the AND waiting on top. */
  lemma ReduceAnd(values: seq<bool>, operators: seq<Operator>, left: bool, right: bool, precedence: nat)
    requires precedence <= 2 && Fed(Stacks(values + [left, right], operators + [Joined(And)]))
    ensures Fed(Stacks(values + [left && right], operators))
    ensures Reduce(Stacks(values + [left, right], operators + [Joined(And)]), precedence)
      == Reduce(Stacks(values + [left && right], operators), precedence)
  {
    var s := Stacks(values + [left, right], operators + [Joined(And)]);
    assert s.operators[..|s.operators| - 1] == operators;
    assert s.values[..|s.values| - 2] == values;
    assert ApplyTop(s) == Stacks(values + [left && right], operators);
  }

  /** Applying the OR waiting on top. */
  lemma ReduceOr(values: seq<bool>, operators: seq<Operator>, left: bool, right: bool, precedence: nat)
    requires precedence <= 1 && Fed(Stacks(values + [left, right], operators + [Joined(Or)]))
    ensures Fed(Stacks(values + [left || right], operators))
    ensures Reduce(Stacks(values + [left, right], operators + [Joined(Or)]), precedence)
      == Reduce(Stacks(values + [left || right], operators), precedence)
  {
    var s := Stacks(values + [left, right], operators + [Joined(Or)]);
    assert s.operators[..|s.operators| - 1] == operators;
    assert s.values[..|s.values| - 2] == values;
    assert ApplyTop(s) == Stacks(values + [left || right], operators);
  }

  function Waiting<T>(present: bool, value: T): seq<T> {
    if present then [value] else []
  }

  function ConjunctionWaiting(c: Option<Conjunction>, hits: seq<bool>): seq<bool> {
    if c.Some? then [ConjunctionValue(c.value, hits)] else []
  }

  function DisjunctionWaiting(d: Option<Disjunction>, hits: seq<bool>): seq<bool> {
    if d.Some? then [Value(d.value, hits)] else []
  }

  /** An AND waiting on top, if there is one, is applied before any operator. */
  lemma ReduceTopAnd(
      values: seq<bool>, operators: seq<Operator>, c: Option<Conjunction>, a: Atom, hits: seq<bool>, precedence: nat)
    requires precedence <= 2 && |values| == JoinCount(operators)
    ensures Fed(Stacks(values + ConjunctionWaiting(c, hits) + [AtomValue(a, hits)],
                       operators + Waiting(c.Some?, Joined(And))))
    ensures Fed(Stacks(values + [ConjunctionValue(Conjoin(c, a), hits)], operators))
    ensures Reduce(Stacks(values + ConjunctionWaiting(c, hits) + [AtomValue(a, hits)],
                          operators + Waiting(c.Some?, Joined(And))), precedence)
      == Reduce(Stacks(values + [ConjunctionValue(Conjoin(c, a), hits)], operators), precedence)
  {
    if c.Some? {
      var left, right := ConjunctionValue(c.value, hits), AtomValue(a, hits);
      JoinCountAppend(operators, [Joined(And)]);
      assert [Joined(And)][..0] == [];
      assert values + [left] + [right] == values + [left, right];
      ReduceAnd(values, operators, left, right, precedence);
    } else {
      assert values + [] == values && operators + [] == operators;
    }
  }

  /** An OR waiting on top, if there is one, is applied at the end of its level. */
  lemma ReduceTopOr(
      values: seq<bool>, operators: seq<Operator>, d: Option<Disjunction>, c: Conjunction, hits: seq<bool>)
    requires |values| == JoinCount(operators)
    ensures Fed(Stacks(values + DisjunctionWaiting(d, hits) + [ConjunctionValue(c, hits)],
                       operators + Waiting(d.Some?, Joined(Or))))
    ensures Fed(Stacks(values + [Value(Disjoin(d, c), hits)], operators))
    ensures Reduce(Stacks(values + DisjunctionWaiting(d, hits) + [ConjunctionValue(c, hits)],
                          operators + Waiting(d.Some?, Joined(Or))), 1)
      == Reduce(Stacks(values + [Value(Disjoin(d, c), hits)], operators), 1)
  {
    if d.Some? {
      var left, right := Value(d.value, hits), ConjunctionValue(c, hits);
      JoinCountAppend(operators, [Joined(Or)]);
      assert [Joined(Or)][..0] == [];
      assert values + [left] + [right] == values + [left, right];
      ReduceOr(values, operators, left, right, 1);
    } else {
      assert values + [] == values && operators + [] == operators;
    }
  }

  /** The operators below the innermost level. */
  function Base(lower: seq<Frame>): seq<Operator> {
    FramesOperators(lower) + if lower == [] then [] else [Parenthesis]
  }

  lemma StacksTop(lower: seq<Frame>, top: Frame, last: Option<Atom>, hits: seq<bool>)
    ensures StacksOf(Reading(lower + [top], last), hits) == Stacks(
        FramesValues(lower, hits) + DisjunctionWaiting(top.disjunction, hits)
          + ConjunctionWaiting(top.conjunction, hits)
          + (if last.Some? then [AtomValue(last.value, hits)] else []),
        Base(lower) + Waiting(top.disjunction.Some?, Joined(Or)) + Waiting(top.conjunction.Some?, Joined(And)))
  {
    TopFrame(lower, top, hits);
  }

  lemma LevelIsFed(lower: seq<Frame>, d: Option<Disjunction>, hits: seq<bool>)
    ensures |FramesValues(lower, hits)| == JoinCount(Base(lower))
    ensures |FramesValues(lower, hits) + DisjunctionWaiting(d, hits)|
            == JoinCount(Base(lower) + Waiting(d.Some?, Joined(Or)))
    ensures Base(lower) == [] || Base(lower)[|Base(lower)| - 1] == Parenthesis
  {
    FramesAreFed(lower, hits);
    assert [Parenthesis][..0] == [] && [Joined(Or)][..0] == [];
    JoinCountAppend(FramesOperators(lower), if lower == [] then [] else [Parenthesis]);
    JoinCountAppend(Base(lower), Waiting(d.Some?, Joined(Or)));
  }

  /** Reducing everything inside the innermost level leaves the value of what was read there. */
  lemma ReduceLevel(lower: seq<Frame>, top: Frame, a: Atom, hits: seq<bool>)
    ensures var s := StacksOf(Reading(lower + [top], Some(a)), hits);
      Fed(s) && Reduce(s, 1) == Stacks(FramesValues(lower, hits) + [Value(Finish(top, a), hits)], Base(lower))
  {
    var values, base := FramesValues(lower, hits), Base(lower);
    StacksTop(lower, top, Some(a), hits);
    LevelIsFed(lower, top.disjunction, hits);
    ReduceTopAnd(values + DisjunctionWaiting(top.disjunction, hits), base + Waiting(top.disjunction.Some?, Joined(Or)),
                 top.conjunction, a, hits, 1);
    ReduceTopOr(values, base, top.disjunction, Conjoin(top.conjunction, a), hits);
    ReduceStops(values + [Value(Finish(top, a), hits)], base, 1);
  }

  /** Before an AND, only a waiting AND is applied. */
  lemma ReduceConjunction(lower: seq<Frame>, top: Frame, a: Atom, hits: seq<bool>)
    ensures var s := StacksOf(Reading(lower + [top], Some(a)), hits);
      && Fed(s)
      && Reduce(s, 2) == Stacks(
           FramesValues(lower, hits) + DisjunctionWaiting(top.disjunction, hits)
             + [ConjunctionValue(Conjoin(top.conjunction, a), hits)],
           Base(lower) + Waiting(top.disjunction.Some?, Joined(Or)))
  {
    hide Reduce, FramesValues, FramesOperators, StacksOf, AtomValue, ConjunctionValue, Conjoin, JoinCount;
    var values := FramesValues(lower, hits) + DisjunctionWaiting(top.disjunction, hits);
    var operators := Base(lower) + Waiting(top.disjunction.Some?, Joined(Or));
    StacksTop(lower, top, Some(a), hits);
    LevelIsFed(lower, top.disjunction, hits);
    ReduceTopAnd(values, operators, top.conjunction, a, hits, 2);
    NothingToReduce(Stacks(values + [ConjunctionValue(Conjoin(top.conjunction, a), hits)], operators), 2);
  }

  lemma NothingToReduce(s: Stacks, precedence: nat)
    requires Fed(s) && !CanApply(s, precedence)
    ensures Reduce(s, precedence) == s
  {
  }

  // --------------------------------------------------------- one token at a time

  /** Joining one more condition. */
  lemma JoinSteps(lower: seq<Frame>, top: Frame, a: Atom, join: Join, hits: seq<bool>)
    ensures var s, next :=
            StacksOf(Reading(lower + [top], Some(a)), hits), Read(Reading(lower + [top], Some(a)), Joining(join));
      && Fed(s) && next.Some?
      && StacksOf(next.value, hits)
         == Stacks(Reduce(s, Precedence(join)).values, Reduce(s, Precedence(join)).operators + [Joined(join)])
  {
    ReadAtTop(lower, top, a);
    if join == And {
      ReduceConjunction(lower, top, a, hits);
      StacksTop(lower, Frame(top.disjunction, Some(Conjoin(top.conjunction, a))), None, hits);
    } else {
      ReduceLevel(lower, top, a, hits);
      StacksTop(lower, Frame(Some(Finish(top, a)), None), None, hits);
    }
  }

  /** A closing group finds its parenthesis exactly when the parser has a level to close. */
  lemma CloseSteps(lower: seq<Frame>, top: Frame, a: Atom, hits: seq<bool>)
    ensures var s, next :=
            StacksOf(Reading(lower + [top], Some(a)), hits), Read(Reading(lower + [top], Some(a)), Closing);
      Fed(s)
      && var reduced := Reduce(s, 1);
      && (next.Some? <==> reduced.operators != [])
      && (next.Some? ==>
          StacksOf(next.value, hits) == Stacks(reduced.values, reduced.operators[..|reduced.operators| - 1]))
  {
    assert (lower + [top])[..|lower|] == lower;
    ReduceLevel(lower, top, a, hits);
    if lower != [] {
      assert Base(lower)[..|Base(lower)| - 1] == FramesOperators(lower);
    }
  }

  lemma OpenSteps(r: Reading, hits: seq<bool>)
    requires r.frames != [] && r.last.None?
    ensures Read(r, Opening) == Some(Reading(r.frames + [EMPTY_FRAME], None))
    ensures StacksOf(Reading(r.frames + [EMPTY_FRAME], None), hits)
            == Stacks(StacksOf(r, hits).values, StacksOf(r, hits).operators + [Parenthesis])
  {
    TopFrame(r.frames, EMPTY_FRAME, hits);
  }

  /** The final reduction leaves one value, that of the whole expression, unless a level is still open. */
  lemma EndSteps(lower: seq<Frame>, top: Frame, a: Atom, hits: seq<bool>)
    ensures var s := StacksOf(Reading(lower + [top], Some(a)), hits);
      && Fed(s)
      && (lower == [] ==> Reduce(s, 1) == Stacks([Value(Finish(top, a), hits)], []))
      && (lower != [] ==> Reduce(s, 1).operators != [])
  {
    ReduceLevel(lower, top, a, hits);
  }

  // ------------------------------------------------------------------ the loops

  lemma OneMore(r: Reading, tokens: seq<Token>, token: Token) returns (r': Reading, tokens': seq<Token>)
    requires r.frames != [] && ReadAll(NOTHING_READ, tokens) == Some(r) && Read(r, token).Some?
    ensures tokens' == tokens + [token] && r' == Read(r, token).value && r'.frames != []
    ensures ReadAll(NOTHING_READ, tokens') == Some(r')
  {
    r', tokens' := Read(r, token).value, tokens + [token];
    assert tokens'[..|tokens'| - 1] == tokens;
  }

  lemma Stuck(tokens: seq<Token>, more: seq<Token>)
    requires tokens <= more && ReadAll(NOTHING_READ, tokens).None?
    ensures ReadAll(NOTHING_READ, more).None?
  {
    ReadAllAppend(NOTHING_READ, tokens, more[|tokens|..]);
    assert more == tokens + more[|tokens|..];
  }

  lemma {:induction false} RepeatGrows(token: Token, k: nat, n: nat)
    requires k <= n
    ensures Repeat(token, k) <= Repeat(token, n)
    decreases n
  {
    if k < n {
      RepeatGrows(token, k, n - 1);
    }
  }

  lemma {:induction false} TokensGrow(predicates: seq<SearchPredicate>, m: nat, n: nat)
    requires m <= n <= |predicates|
    ensures Tokens(predicates, m) <= Tokens(predicates, n)
    decreases n
  {
    if m < n {
      TokensGrow(predicates, m, n - 1);
    }
  }

  function UpToHit(predicates: seq<SearchPredicate>, i: nat): seq<Token>
    requires i < |predicates|
  {
    Tokens(predicates, i) + (Joins(predicates, i) + Repeat(Opening, predicates[i].openGroups) + [Hit(i)])
  }

  lemma UpToHitGrows(predicates: seq<SearchPredicate>, i: nat)
    requires i < |predicates|
    ensures UpToHit(predicates, i) + Repeat(Closing, predicates[i].closeGroups) == Tokens(predicates, i + 1)
  {
    var a, b, c :=
        Tokens(predicates, i), Joins(predicates, i) + Repeat(Opening, predicates[i].openGroups) + [Hit(i)],
        Repeat(Closing, predicates[i].closeGroups);
    assert (a + b) + c == a + (b + c);
  }

  lemma PrefixAppend(p: seq<Token>, a: seq<Token>, b: seq<Token>)
    requires a <= b
    ensures p + a <= p + b
  {
  }

  /** A closing group with nothing to close: no continuation parses. */
  lemma Unreadable(predicates: seq<SearchPredicate>, index: nat, tokens: seq<Token>, k: nat)
    requires index < |predicates| && k < predicates[index].closeGroups
    requires tokens == UpToHit(predicates, index) + Repeat(Closing, k)
    requires ReadAll(NOTHING_READ, tokens + [Closing]).None?
    ensures ReadAll(NOTHING_READ, Tokens(predicates, |predicates|)).None?
  {
    var upToHit, all := UpToHit(predicates, index), Tokens(predicates, |predicates|);
    RepeatGrows(Closing, k + 1, predicates[index].closeGroups);
    PrefixAppend(upToHit, Repeat(Closing, k + 1), Repeat(Closing, predicates[index].closeGroups));
    UpToHitGrows(predicates, index);
    TokensGrow(predicates, index + 1, |predicates|);
    assert tokens + [Closing] == upToHit + Repeat(Closing, k + 1);
    Stuck(tokens + [Closing], all);
  }

  lemma ParseReads(tokens: seq<Token>)
    ensures var r := ReadAll(NOTHING_READ, tokens);
      && (Parse(tokens).Some? <==> r.Some? && r.value.last.Some? && |r.value.frames| == 1)
      && (Parse(tokens).Some? ==> Parse(tokens).value == Finish(r.value.frames[0], r.value.last.value))
  {
  }

  method Apply(s: Stacks, ghost precedence: nat) returns (r: Stacks)
    requires Fed(s) && CanApply(s, precedence)
    ensures Fed(r) && |r.operators| < |s.operators| && Reduce(r, precedence) == Reduce(s, precedence)
  {
    var operator := s.operators[|s.operators| - 1];
    var operators := s.operators[..|s.operators| - 1];
    var right := s.values[|s.values| - 1];
    var left := s.values[|s.values| - 2];
    var values := s.values[..|s.values| - 2];
    if operator.join == And {
      values := values + [left && right];
    } else {
      values := values + [left || right];
    }
    r := Stacks(values, operators);
    assert r == ApplyTop(s);
  }

  method ApplyWhile(s: Stacks, precedence: nat) returns (r: Stacks)
    requires Fed(s)
    ensures r == Reduce(s, precedence)
  {
    r := s;
    while CanApply(r, precedence)
      invariant Fed(r) && Reduce(r, precedence) == Reduce(s, precedence)
      decreases |r.operators|
    {
      r := Apply(r, precedence);
    }
  }

  /** The parser's state r after tokens, and the stacks that go with it. */
  ghost predicate InStep(s: Stacks, r: Reading, tokens: seq<Token>, hits: seq<bool>) {
    r.frames != [] && ReadAll(NOTHING_READ, tokens) == Some(r) && s == StacksOf(r, hits)
  }

  lemma Split(r: Reading) returns (lower: seq<Frame>, top: Frame)
    requires r.frames != []
    ensures r.frames == lower + [top]
  {
    lower, top := r.frames[..|r.frames| - 1], r.frames[|r.frames| - 1];
  }

  method JoinNext(s: Stacks, join: Join, hits: seq<bool>, ghost r: Reading, ghost tokens: seq<Token>)
    returns (s': Stacks, ghost r': Reading)
    requires InStep(s, r, tokens, hits) && r.last.Some?
    ensures InStep(s', r', tokens + [Joining(join)], hits) && r'.last.None?
  {
    ghost var lower, top := Split(r);
    JoinSteps(lower, top, r.last.value, join, hits);
    s' := ApplyWhile(s, Precedence(join));
    s' := Stacks(s'.values, s'.operators + [Joined(join)]);
    ghost var tokens';
    r', tokens' := OneMore(r, tokens, Joining(join));
  }

  method OpenGroups(s: Stacks, n: nat, hits: seq<bool>, ghost r: Reading, ghost tokens: seq<Token>)
    returns (s': Stacks, ghost r': Reading)
    requires InStep(s, r, tokens, hits) && r.last.None?
    ensures InStep(s', r', tokens + Repeat(Opening, n), hits) && r'.last.None?
  {
    hide ReadAll, StacksOf;
    s', r' := s, r;
    assert tokens + Repeat(Opening, 0) == tokens;
    for k := 0 to n
      invariant InStep(s', r', tokens + Repeat(Opening, k), hits) && r'.last.None?
    {
      OpenSteps(r', hits);
      s' := Stacks(s'.values, s'.operators + [Parenthesis]);
      ghost var tokens';
      assert tokens + Repeat(Opening, k) + [Opening] == tokens + Repeat(Opening, k + 1);
      r', tokens' := OneMore(r', tokens + Repeat(Opening, k), Opening);
    }
  }

  method CloseGroup(s: Stacks, hits: seq<bool>, ghost r: Reading, ghost tokens: seq<Token>)
    returns (s': Stacks, closed: bool, ghost r': Reading)
    requires InStep(s, r, tokens, hits) && r.last.Some?
    ensures closed ==> InStep(s', r', tokens + [Closing], hits) && r'.last.Some?
    ensures !closed ==> ReadAll(NOTHING_READ, tokens + [Closing]).None?
  {
    r' := r;
    ghost var lower, top := Split(r);
    CloseSteps(lower, top, r.last.value, hits);
    s' := ApplyWhile(s, 1);
    if s'.operators == [] {
      assert (tokens + [Closing])[..|tokens|] == tokens;
      return s', false, r';
    }
    s' := Stacks(s'.values, s'.operators[..|s'.operators| - 1]);
    ghost var tokens';
    r', tokens' := OneMore(r, tokens, Closing);
    closed := true;
  }

  /** Stops at the first group that closes nothing. */
  method CloseGroups(s: Stacks, n: nat, hits: seq<bool>, ghost r: Reading, ghost tokens: seq<Token>)
    returns (s': Stacks, closed: bool, ghost r': Reading, ghost k: nat)
    requires InStep(s, r, tokens, hits) && r.last.Some?
    ensures closed ==> InStep(s', r', tokens + Repeat(Closing, n), hits) && r'.last.Some?
    ensures !closed ==> k < n && ReadAll(NOTHING_READ, tokens + Repeat(Closing, k) + [Closing]).None?
  {
    s', r', k, closed := s, r, 0, true;
    ghost var now := tokens;
    assert now == tokens + Repeat(Closing, 0);
    for i := 0 to n
      invariant now == tokens + Repeat(Closing, i) && InStep(s', r', now, hits) && r'.last.Some?
    {
      s', closed, r' := CloseGroup(s', hits, r', now);
      if !closed { return s', false, r', i; }
      now := now + [Closing];
    }
    closed := true;
  }

  method JoinPredicate(
      s: Stacks, predicates: seq<SearchPredicate>, index: nat, hits: seq<bool>, ghost r: Reading,
      ghost tokens: seq<Token>)
    returns (s': Stacks, ghost r': Reading)
    requires index < |predicates| && InStep(s, r, tokens, hits) && (r.last.Some? <==> index > 0)
    ensures InStep(s', r', tokens + Joins(predicates, index), hits) && r'.last.None?
  {
    s', r' := s, r;
    if index > 0 {
      s', r' := JoinNext(s, predicates[index].join, hits, r, tokens);
    } else {
      assert tokens + Joins(predicates, index) == tokens;
    }
  }

  lemma UpToHitIs(predicates: seq<SearchPredicate>, i: nat)
    requires i < |predicates|
    ensures Tokens(predicates, i) + Joins(predicates, i) + Repeat(Opening, predicates[i].openGroups) + [Hit(i)]
            == UpToHit(predicates, i)
  {
    hide Tokens, Joins, Repeat;
    var a, b, c, d := Tokens(predicates, i), Joins(predicates, i), Repeat(Opening, predicates[i].openGroups), [Hit(i)];
    assert a + b + c + d == a + (b + c + d);
  }

  method OpenPredicate(
      s: Stacks, predicates: seq<SearchPredicate>, index: nat, hits: seq<bool>, ghost r: Reading,
      ghost tokens: seq<Token>)
    returns (s': Stacks, ghost r': Reading)
    requires index < |predicates| == |hits| && InStep(s, r, tokens, hits) && (r.last.Some? <==> index > 0)
    ensures InStep(s', r',
                   tokens + Joins(predicates, index) + Repeat(Opening, predicates[index].openGroups) + [Hit(index)],
                   hits) && r'.last.Some?
  {
    ghost var joined := tokens + Joins(predicates, index);
    s', r' := JoinPredicate(s, predicates, index, hits, r, tokens);
    s', r' := OpenGroups(s', predicates[index].openGroups, hits, r', joined);
    s', r' := PushHit(s', index, hits, r', joined + Repeat(Opening, predicates[index].openGroups));
  }

  method EvaluatePredicate(s: Stacks, predicates: seq<SearchPredicate>, index: nat, hits: seq<bool>, ghost r: Reading)
    returns (s': Stacks, closed: bool, ghost r': Reading)
    requires index < |predicates| == |hits|
    requires InStep(s, r, Tokens(predicates, index), hits) && (r.last.Some? <==> index > 0)
    ensures closed ==> InStep(s', r', Tokens(predicates, index + 1), hits) && r'.last.Some?
    ensures !closed ==> ReadAll(NOTHING_READ, Tokens(predicates, |predicates|)).None?
  {
    s', r' := OpenPredicate(s, predicates, index, hits, r, Tokens(predicates, index));
    UpToHitIs(predicates, index);
    ghost var k;
    s', closed, r', k := CloseGroups(s', predicates[index].closeGroups, hits, r', UpToHit(predicates, index));
    if closed {
      UpToHitGrows(predicates, index);
    } else {
      Unreadable(predicates, index, UpToHit(predicates, index) + Repeat(Closing, k), k);
    }
  }

  method PushHit(s: Stacks, index: nat, hits: seq<bool>, ghost r: Reading, ghost tokens: seq<Token>)
    returns (s': Stacks, ghost r': Reading)
    requires index < |hits| && InStep(s, r, tokens, hits) && r.last.None?
    ensures InStep(s', r', tokens + [Hit(index)], hits) && r'.last.Some?
  {
    s' := Stacks(s.values + [hits[index]], s.operators);
    ghost var tokens';
    r', tokens' := OneMore(r, tokens, Hit(index));
  }

  lemma NothingIsInStep(hits: seq<bool>)
    ensures InStep(Stacks([], []), NOTHING_READ, [], hits)
  {
    TopFrame([], EMPTY_FRAME, hits);
    assert [] + [EMPTY_FRAME] == [EMPTY_FRAME];
  }

  /**
   * evaluateSearchExpression. Popping is always possible; the malformed-input exits are
   * taken exactly when the predicates do not parse; otherwise the result is the value of
   * the expression they spell.
   */
  method EvaluateSearchExpression(predicates: seq<SearchPredicate>, hits: seq<bool>)
    returns (matched: bool, malformed: bool)
    ensures predicates == [] || |predicates| != |hits| ==> !matched
    ensures predicates != [] && |predicates| == |hits| ==>
      var tree := Parse(Tokens(predicates, |predicates|));
      malformed == tree.None? && matched == (tree.Some? && Value(tree.value, hits))
  {
    hide ReadAll, StacksOf, Value, Reduce;
    if predicates == [] || |predicates| != |hits| { return false, true; }
    var s := Stacks([], []);
    ghost var r := NOTHING_READ;
    NothingIsInStep(hits);
    for index := 0 to |predicates|
      invariant InStep(s, r, Tokens(predicates, index), hits) && (r.last.Some? <==> index > 0)
    {
      var closed;
      s, closed, r := EvaluatePredicate(s, predicates, index, hits, r);
      if !closed {
        ParseReads(Tokens(predicates, |predicates|));
        return false, true;
      }
    }
    ghost var lower, top := Split(r);
    EndSteps(lower, top, r.last.value, hits);
    ParseReads(Tokens(predicates, |predicates|));
    s, malformed := ApplyRest(s);
    return !malformed && |s.values| == 1 && s.values[0], malformed;
  }

  /** Stops at a group left open. */
  method ApplyRest(s: Stacks) returns (s': Stacks, unclosed: bool)
    requires Fed(s)
    ensures unclosed == (Reduce(s, 1).operators != [])
    ensures !unclosed ==> s' == Reduce(s, 1)
  {
    s' := s;
    while s'.operators != []
      invariant Fed(s') && Reduce(s', 1) == Reduce(s, 1)
      decreases |s'.operators|
    {
      if s'.operators[|s'.operators| - 1] == Parenthesis { return s', true; }
      s' := Apply(s', 1);
    }
    unclosed := false;
  }

  // ------------------------------------------------------------- the validator

  /** A predicate as it arrives. */
  datatype RawPredicate = RawPredicate(source: string, value: string, join: string, openGroups: int, closeGroups: int)

  /** Predicates, or lists of patterns any of which may match. */
  datatype SearchOptions = SearchOptions(
    predicates: seq<RawPredicate>,
    messages: seq<string>,
    diffs: seq<string>,
    files: seq<string>)

  datatype Invalid = UnsupportedSource | UnsupportedJoin | TooManyGroups | ClosedBeforeOpened | Unbalanced

  function Trim(s: string): string {
    DropTrailing(SkipGoSpace(s), IsGoSpace)
  }

  /** Lower case, of the letters whose lower case is an ASCII letter; the words compared are ASCII. */
  function GoLower(c: char): char {
    if c == '\U{130}' then 'i' else if c == '\U{212a}' then 'k' else Lower(c)
  }

  /** Trimmed, in lower case. */
  function Folded(s: string): string {
    seq(|Trim(s)|, i requires 0 <= i < |Trim(s)| => GoLower(Trim(s)[i]))
  }

  function SourceOf(source: string): Option<Source> {
    if source == "msg" then Some(Msg)
    else if source == "diff" then Some(Diff)
    else if source == "file" then Some(File)
    else None
  }

  /** The patterns of one source, as predicates joined by OR. */
  function AnyOf(source: string, values: seq<string>): seq<RawPredicate> {
    seq(|values|, i requires 0 <= i < |values| => RawPredicate(source, values[i], "or", 0, 0))
  }

  function Requested(options: SearchOptions): seq<RawPredicate> {
    if options.predicates != [] then options.predicates
    else AnyOf("msg", options.messages) + AnyOf("diff", options.diffs) + AnyOf("file", options.files)
  }

  function Normalize(raw: RawPredicate, first: bool): (r: Result<SearchPredicate, Invalid>)
    ensures r.Err? ==> r.error in {UnsupportedSource, UnsupportedJoin, TooManyGroups}
  {
    if SourceOf(Folded(raw.source)).None? then Err(UnsupportedSource)
    else if !first && Folded(raw.join) !in {"", "and", "or"} then Err(UnsupportedJoin)
    else if raw.openGroups < 0 || raw.closeGroups < 0 || raw.openGroups > 8 || raw.closeGroups > 8 then
      Err(TooManyGroups)
    else
      Ok(SearchPredicate(SourceOf(Folded(raw.source)).value, Trim(raw.value),
                         if !first && Folded(raw.join) == "and" then And else Or, raw.openGroups, raw.closeGroups))
  }

  /** Every predicate is valid by itself, and these are what they come to. */
  predicate Normalizes(raw: seq<RawPredicate>, all: seq<SearchPredicate>) {
    |all| == |raw| && forall i :: 0 <= i < |raw| ==> Normalize(raw[i], i == 0) == Ok(all[i])
  }

  /** Predicate i is the first that is not valid by itself. */
  predicate FirstInvalid(raw: seq<RawPredicate>, i: nat, error: Invalid) {
    && i < |raw| && Normalize(raw[i], i == 0) == Err(error)
    && forall j :: 0 <= j < i ==> Normalize(raw[j], j == 0).Ok?
  }

  method RequestedPredicates(options: SearchOptions) returns (predicates: seq<RawPredicate>)
    ensures predicates == Requested(options)
  {
    if |options.predicates| > 0 { return options.predicates; }
    predicates := [];
    var entries := [("msg", options.messages), ("diff", options.diffs), ("file", options.files)];
    for e := 0 to |entries|
      invariant e == 0 ==> predicates == []
      invariant e == 1 ==> predicates == AnyOf("msg", options.messages)
      invariant e == 2 ==> predicates == AnyOf("msg", options.messages) + AnyOf("diff", options.diffs)
      invariant e == 3 ==> predicates == Requested(options)
    {
      var (source, values) := entries[e];
      ghost var before := predicates;
      for i := 0 to |values|
        invariant predicates == before + AnyOf(source, values)[..i]
      {
        predicates := predicates + [RawPredicate(source, values[i], "or", 0, 0)];
      }
      assert AnyOf(source, values)[..|values|] == AnyOf(source, values);
    }
  }

  /**
   * normalizedSearchPredicates: the predicates asked for, normalized one by one and in order,
   * with groups that balance; or the first predicate that is not valid; or, when all are, how
   * the groups fail to balance.
   */
  method NormalizedSearchPredicates(options: SearchOptions) returns (r: Result<seq<SearchPredicate>, Invalid>)
    ensures r.Ok? ==> Normalizes(Requested(options), r.value) && Balanced(r.value)
    ensures r.Err? && r.error !in {ClosedBeforeOpened, Unbalanced} ==>
              exists i :: FirstInvalid(Requested(options), i, r.error)
    ensures r.Err? && r.error in {ClosedBeforeOpened, Unbalanced} ==>
              exists all :: Normalizes(Requested(options), all) && !Balanced(all)
                            && (r.error == ClosedBeforeOpened <==> ClosesEarly(all))
  {
    hide Requested, Normalize;
    var raw := RequestedPredicates(options);
    var normalized: seq<SearchPredicate> := [];
    for i := 0 to |raw|
      invariant |normalized| == i && forall j :: 0 <= j < i ==> Normalize(raw[j], j == 0) == Ok(normalized[j])
    {
      match Normalize(raw[i], i == 0) {
        case Err(error) =>
          assert FirstInvalid(raw, i, error);
          return Err(error);
        case Ok(valid) => normalized := normalized + [valid];
      }
    }
    assert Normalizes(raw, normalized);
    var balance := 0;
    for n := 0 to |normalized|
      invariant balance == Balance(normalized, n) && forall m :: 0 <= m <= n ==> Balance(normalized, m) >= 0
    {
      balance := balance + normalized[n].openGroups;
      balance := balance - normalized[n].closeGroups;
      if balance < 0 {
        assert Balance(normalized, n + 1) < 0;
        return Err(ClosedBeforeOpened);
      }
    }
    if balance != 0 { return Err(Unbalanced); }
    return Ok(normalized);
  }

  /** Some group is closed before it is opened. */
  ghost predicate ClosesEarly(predicates: seq<SearchPredicate>) {
    exists n :: 0 <= n <= |predicates| && Balance(predicates, n) < 0
  }

  // --------------------------------------------------- balanced means it parses

  lemma {:induction false} ReadOpens(r: Reading, n: nat)
    requires r.frames != [] && r.last.None?
    ensures var after := ReadAll(r, Repeat(Opening, n));
      after.Some? && after.value.last.None? && |after.value.frames| == |r.frames| + n
  {
    if n > 0 {
      ReadOpens(r, n - 1);
      ReadThenOne(r, Repeat(Opening, n - 1), ReadAll(r, Repeat(Opening, n - 1)).value, Opening);
    }
  }

  lemma ReadNothing(r: Reading)
    requires r.frames != []
    ensures ReadAll(r, []) == Some(r)
  {
  }

  lemma {:induction false} ReadCloses(r: Reading, n: nat)
    requires r.frames != [] && r.last.Some?
    ensures ReadAll(r, Repeat(Closing, n)).Some? <==> n < |r.frames|
    ensures n < |r.frames| ==>
      ReadAll(r, Repeat(Closing, n)).value.last.Some? && |ReadAll(r, Repeat(Closing, n)).value.frames| == |r.frames| - n
  {
    hide ReadAll;
    ReadNothing(r);
    if n > 0 {
      ReadCloses(r, n - 1);
      assert Repeat(Closing, n) == Repeat(Closing, n - 1) + [Closing];
      ReadAllAppend(r, Repeat(Closing, n - 1), [Closing]);
      if n <= |r.frames| {
        ReadOne(ReadAll(r, Repeat(Closing, n - 1)).value, Closing);
      }
    }
  }

  lemma ReadPredicate(predicates: seq<SearchPredicate>, i: nat, r: Reading)
    requires i < |predicates| && r.frames != [] && (r.last.Some? <==> i > 0)
    ensures var p, after := predicates[i], ReadAll(r, PredicateTokens(predicates, i));
      && (after.Some? <==> p.closeGroups < |r.frames| + p.openGroups)
      && (after.Some? ==> after.value.last.Some? && |after.value.frames| == |r.frames| + p.openGroups - p.closeGroups)
  {
    var p, join := predicates[i], Joins(predicates, i);
    ReadJoin(predicates, i, r);
    var joined := ReadAll(r, join).value;
    ReadCondition(joined, i, p.openGroups, p.closeGroups);
    var rest := Repeat(Opening, p.openGroups) + [Hit(i)] + Repeat(Closing, p.closeGroups);
    assert PredicateTokens(predicates, i) == join + rest;
    ReadThenAll(r, join, joined, rest);
  }

  lemma ReadJoin(predicates: seq<SearchPredicate>, i: nat, r: Reading)
    requires i < |predicates| && r.frames != [] && (r.last.Some? <==> i > 0)
    ensures var joined := ReadAll(r, Joins(predicates, i));
      joined.Some? && joined.value.last.None? && |joined.value.frames| == |r.frames|
  {
    if i > 0 { ReadOne(r, Joining(predicates[i].join)); }
  }

  /** Groups opened, a condition, groups closed. */
  lemma ReadCondition(r: Reading, i: nat, opens: nat, closes: nat)
    requires r.frames != [] && r.last.None?
    ensures var after := ReadAll(r, Repeat(Opening, opens) + [Hit(i)] + Repeat(Closing, closes));
      && (after.Some? <==> closes < |r.frames| + opens)
      && (after.Some? ==> after.value.last.Some? && |after.value.frames| == |r.frames| + opens - closes)
  {
    ReadOpens(r, opens);
    var inside := ReadAll(r, Repeat(Opening, opens)).value;
    ReadThenOne(r, Repeat(Opening, opens), inside, Hit(i));
    var hit := Read(inside, Hit(i)).value;
    ReadThenAll(r, Repeat(Opening, opens) + [Hit(i)], hit, Repeat(Closing, closes));
    ReadCloses(hit, closes);
  }

  ghost predicate NeverNegative(predicates: seq<SearchPredicate>, n: nat)
    requires n <= |predicates|
  {
    forall m :: 0 <= m <= n ==> Balance(predicates, m) >= 0
  }

  lemma NeverNegativeNext(predicates: seq<SearchPredicate>, n: nat)
    requires 0 < n <= |predicates|
    ensures NeverNegative(predicates, n) <==> NeverNegative(predicates, n - 1) && Balance(predicates, n) >= 0
  {
  }

  ghost predicate DepthIsBalance(predicates: seq<SearchPredicate>, n: nat, r: Option<Reading>)
    requires n <= |predicates|
  {
    && (r.Some? <==> NeverNegative(predicates, n))
    && (r.Some? ==>
        r.value.frames != [] && (r.value.last.Some? <==> n > 0) && |r.value.frames| == 1 + Balance(predicates, n))
  }

  lemma NextDepth(predicates: seq<SearchPredicate>, n: nat, before: Option<Reading>)
    requires 0 < n <= |predicates| && DepthIsBalance(predicates, n - 1, before)
    ensures DepthIsBalance(predicates, n,
                           if before.None? then None
                           else ReadAll(before.value, PredicateTokens(predicates, n - 1)))
  {
    NeverNegativeNext(predicates, n);
    if before.Some? { ReadPredicate(predicates, n - 1, before.value); }
  }

  /** The parser's depth is the balance, and it fails when the balance goes negative. */
  lemma {:induction false} ReadTokens(predicates: seq<SearchPredicate>, n: nat)
    requires n <= |predicates|
    ensures DepthIsBalance(predicates, n, ReadAll(NOTHING_READ, Tokens(predicates, n)))
  {
    if n > 0 {
      var before := ReadAll(NOTHING_READ, Tokens(predicates, n - 1));
      ReadTokens(predicates, n - 1);
      ReadAllAppend(NOTHING_READ, Tokens(predicates, n - 1), PredicateTokens(predicates, n - 1));
      NextDepth(predicates, n, before);
    }
  }

  /** The predicate lists the validator accepts are exactly those that spell an expression. */
  lemma BalancedParses(predicates: seq<SearchPredicate>)
    requires predicates != []
    ensures Parse(Tokens(predicates, |predicates|)).Some? <==> Balanced(predicates)
  {
    ReadTokens(predicates, |predicates|);
    ParseReads(Tokens(predicates, |predicates|));
    assert Balanced(predicates) <==> NeverNegative(predicates, |predicates|) && Balance(predicates, |predicates|) == 0;
  }

  /**
   * An accepted predicate list is the text of exactly one expression, and the evaluator
   * returns that expression's value: for the tree this lemma names, and for any other
   * tree with the same text because there is none.
   */
  lemma AcceptedSpellsOneExpression(predicates: seq<SearchPredicate>) returns (tree: Disjunction)
    requires predicates != [] && Balanced(predicates)
    ensures Parse(Tokens(predicates, |predicates|)) == Some(tree)
    ensures forall other :: Text(other) == Tokens(predicates, |predicates|) <==> other == tree
  {
    BalancedParses(predicates);
    tree := Parse(Tokens(predicates, |predicates|)).value;
    TextInvertsParse(Tokens(predicates, |predicates|));
    forall other | Text(other) == Tokens(predicates, |predicates|) ensures other == tree {
      ParseInvertsText(other);
    }
  }

  /** Adding hits never loses a match. */
  lemma AcceptedIsMonotone(predicates: seq<SearchPredicate>, hits: seq<bool>, more: seq<bool>)
    requires predicates != [] && Balanced(predicates) && AtMost(hits, more)
    ensures var tree := Parse(Tokens(predicates, |predicates|));
      tree.Some? && (Value(tree.value, hits) ==> Value(tree.value, more))
  {
    BalancedParses(predicates);
    var tree := Parse(Tokens(predicates, |predicates|)).value;
    if Value(tree, hits) {
      ValueMonotone(tree, hits, more);
    }
  }
}
