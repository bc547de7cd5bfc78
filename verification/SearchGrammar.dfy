/**
 * The grammar of search expressions: AND binds tighter than OR, both associate to the
 * left, parentheses group. Its parser is the two-stack evaluator with trees for values,
 * which makes it both total on balanced input and unambiguous.
 */
module SearchGrammar {
  import opened Common

  datatype Join = And | Or

  datatype Token = Joining(join: Join) | Opening | Closing | Hit(index: nat)

  datatype Atom = Leaf(index: nat) | Group(body: Disjunction)
  datatype Conjunction = One(atom: Atom) | Both(left: Conjunction, right: Atom)
  datatype Disjunction = Just(conjunction: Conjunction) | Either(left: Disjunction, right: Conjunction)

  // ---------------------------------------------------------- text and meaning

  function AtomText(a: Atom): seq<Token> {
    match a
    case Leaf(i) => [Hit(i)]
    case Group(d) => [Opening] + Text(d) + [Closing]
  }

  function ConjunctionText(c: Conjunction): seq<Token> {
    match c
    case One(a) => AtomText(a)
    case Both(l, r) => ConjunctionText(l) + [Joining(And)] + AtomText(r)
  }

  function Text(d: Disjunction): seq<Token> {
    match d
    case Just(c) => ConjunctionText(c)
    case Either(l, r) => Text(l) + [Joining(Or)] + ConjunctionText(r)
  }

  predicate AtomValue(a: Atom, hits: seq<bool>) {
    match a
    case Leaf(i) => i < |hits| && hits[i]
    case Group(d) => Value(d, hits)
  }

  predicate ConjunctionValue(c: Conjunction, hits: seq<bool>) {
    match c
    case One(a) => AtomValue(a, hits)
    case Both(l, r) => ConjunctionValue(l, hits) && AtomValue(r, hits)
  }

  predicate Value(d: Disjunction, hits: seq<bool>) {
    match d
    case Just(c) => ConjunctionValue(c, hits)
    case Either(l, r) => Value(l, hits) || ConjunctionValue(r, hits)
  }

  // ----------------------------------------------------------------- the parser

  /** The operands waiting inside one parenthesis level: disjunction "or", then conjunction "and". */
  datatype Frame = Frame(disjunction: Option<Disjunction>, conjunction: Option<Conjunction>)

  /** What has been read: open levels, outermost first, and the last atom if one was just read. */
  datatype Reading = Reading(frames: seq<Frame>, last: Option<Atom>)

  const EMPTY_FRAME := Frame(None, None)
  const NOTHING_READ := Reading([EMPTY_FRAME], None)

  function Conjoin(pending: Option<Conjunction>, a: Atom): Conjunction {
    match pending
    case None => One(a)
    case Some(c) => Both(c, a)
  }

  function Disjoin(pending: Option<Disjunction>, c: Conjunction): Disjunction {
    match pending
    case None => Just(c)
    case Some(d) => Either(d, c)
  }

  function Finish(frame: Frame, a: Atom): Disjunction {
    Disjoin(frame.disjunction, Conjoin(frame.conjunction, a))
  }

  function Read(r: Reading, token: Token): (r': Option<Reading>)
    requires r.frames != []
    ensures r'.Some? ==> r'.value.frames != []
  {
    var lower, top := r.frames[..|r.frames| - 1], r.frames[|r.frames| - 1];
    match (r.last, token)
    case (None, Opening) => Some(Reading(r.frames + [EMPTY_FRAME], None))
    case (None, Hit(i)) => Some(Reading(r.frames, Some(Leaf(i))))
    case (Some(a), Joining(And)) =>
      Some(Reading(lower + [Frame(top.disjunction, Some(Conjoin(top.conjunction, a)))], None))
    case (Some(a), Joining(Or)) => Some(Reading(lower + [Frame(Some(Finish(top, a)), None)], None))
    case (Some(a), Closing) => if lower == [] then None else Some(Reading(lower, Some(Group(Finish(top, a)))))
    case _ => None
  }

  function ReadAll(r: Reading, tokens: seq<Token>): (r': Option<Reading>)
    requires r.frames != []
    ensures r'.Some? ==> r'.value.frames != []
    decreases |tokens|
  {
    if tokens == [] then Some(r)
    else
      match ReadAll(r, tokens[..|tokens| - 1])
      case None => None
      case Some(before) => Read(before, tokens[|tokens| - 1])
  }

  function Parse(tokens: seq<Token>): Option<Disjunction> {
    match ReadAll(NOTHING_READ, tokens)
    case Some(Reading(frames, Some(a))) => if |frames| == 1 then Some(Finish(frames[0], a)) else None
    case _ => None
  }

  lemma {:induction false} ReadAllAppend(r: Reading, a: seq<Token>, b: seq<Token>)
    requires r.frames != []
    ensures ReadAll(r, a + b) == match ReadAll(r, a) case None => None case Some(m) => ReadAll(m, b)
    decreases |b|
  {
    if b == [] {
      assert a + b == a;
    } else {
      ReadAllAppend(r, a, b[..|b| - 1]);
      assert (a + b)[..|a + b| - 1] == a + b[..|b| - 1];
    }
  }

  lemma ReadOne(r: Reading, token: Token)
    requires r.frames != []
    ensures ReadAll(r, [token]) == Read(r, token)
  {
    assert [token][..0] == [];
    assert ReadAll(r, [token][..0]) == Some(r);
  }

  lemma ReadThenOne(r: Reading, tokens: seq<Token>, mid: Reading, token: Token)
    requires r.frames != [] && ReadAll(r, tokens) == Some(mid)
    ensures ReadAll(r, tokens + [token]) == Read(mid, token)
  {
    ReadAllAppend(r, tokens, [token]);
    ReadOne(mid, token);
  }

  lemma ReadThenAll(r: Reading, tokens: seq<Token>, mid: Reading, more: seq<Token>)
    requires r.frames != [] && ReadAll(r, tokens) == Some(mid)
    ensures ReadAll(r, tokens + more) == ReadAll(mid, more)
  {
    ReadAllAppend(r, tokens, more);
  }

  /** What one more token does to the level on top. */
  lemma ReadAtTop(lower: seq<Frame>, top: Frame, a: Atom)
    ensures var r := Reading(lower + [top], Some(a));
      && Read(r, Joining(And))
         == Some(Reading(lower + [Frame(top.disjunction, Some(Conjoin(top.conjunction, a)))], None))
      && Read(r, Joining(Or)) == Some(Reading(lower + [Frame(Some(Finish(top, a)), None)], None))
      && (lower != [] ==> Read(r, Closing) == Some(Reading(lower, Some(Group(Finish(top, a))))))
  {
    assert (lower + [top])[..|lower|] == lower;
  }

  // -------------------------------------------------- parsing inverts printing

  function Pending(c: Conjunction): Option<Conjunction> {
    match c case One(_) => None case Both(l, _) => Some(l)
  }

  function Last(c: Conjunction): Atom {
    match c case One(a) => a case Both(_, r) => r
  }

  function FrameOf(d: Disjunction): Frame {
    match d
    case Just(c) => Frame(None, Pending(c))
    case Either(l, r) => Frame(Some(l), Pending(r))
  }

  function LastOf(d: Disjunction): Atom {
    match d case Just(c) => Last(c) case Either(_, r) => Last(r)
  }

  lemma {:induction false} ReadAtom(frames: seq<Frame>, a: Atom)
    requires frames != []
    ensures ReadAll(Reading(frames, None), AtomText(a)) == Some(Reading(frames, Some(a)))
    decreases a, 0
  {
    var r := Reading(frames, None);
    match a {
      case Leaf(i) =>
        ReadOne(r, Hit(i));
      case Group(d) =>
        ReadDisjunction(frames, d);
        ReadGroup(frames, d, Text(d));
    }
  }

  lemma ReadGroup(frames: seq<Frame>, d: Disjunction, text: seq<Token>)
    requires frames != []
    requires ReadAll(Reading(frames + [EMPTY_FRAME], None), text)
             == Some(Reading(frames + [FrameOf(d)], Some(LastOf(d))))
    ensures ReadAll(Reading(frames, None), [Opening] + text + [Closing]) == Some(Reading(frames, Some(Group(d))))
  {
    hide ReadAll;
    var r := Reading(frames, None);
    ReadOne(r, Opening);
    ReadThenAll(r, [Opening], Reading(frames + [EMPTY_FRAME], None), text);
    ReadThenOne(r, [Opening] + text, Reading(frames + [FrameOf(d)], Some(LastOf(d))), Closing);
    ReadAtTop(frames, FrameOf(d), LastOf(d));
  }

  lemma {:induction false} ReadConjunction(lower: seq<Frame>, pending: Option<Disjunction>, c: Conjunction)
    ensures ReadAll(Reading(lower + [Frame(pending, None)], None), ConjunctionText(c))
      == Some(Reading(lower + [Frame(pending, Pending(c))], Some(Last(c))))
    decreases c, 1
  {
    match c {
      case One(a) =>
        ReadAtom(lower + [Frame(pending, None)], a);
      case Both(l, a) =>
        ReadConjunction(lower, pending, l);
        ReadAnd(lower, pending, l, ConjunctionText(l), AtomText(a));
        ReadAtom(lower + [Frame(pending, Some(l))], a);
    }
  }

  lemma ReadAnd(lower: seq<Frame>, pending: Option<Disjunction>, l: Conjunction, left: seq<Token>, right: seq<Token>)
    requires ReadAll(Reading(lower + [Frame(pending, None)], None), left)
             == Some(Reading(lower + [Frame(pending, Pending(l))], Some(Last(l))))
    ensures ReadAll(Reading(lower + [Frame(pending, None)], None), left + [Joining(And)] + right)
            == ReadAll(Reading(lower + [Frame(pending, Some(l))], None), right)
  {
    hide ReadAll;
    var r := Reading(lower + [Frame(pending, None)], None);
    ReadThenOne(r, left, Reading(lower + [Frame(pending, Pending(l))], Some(Last(l))), Joining(And));
    ReadAtTop(lower, Frame(pending, Pending(l)), Last(l));
    ReadThenAll(r, left + [Joining(And)], Reading(lower + [Frame(pending, Some(l))], None), right);
  }

  lemma {:induction false} ReadDisjunction(lower: seq<Frame>, d: Disjunction)
    ensures ReadAll(Reading(lower + [EMPTY_FRAME], None), Text(d))
            == Some(Reading(lower + [FrameOf(d)], Some(LastOf(d))))
    decreases d, 2
  {
    match d {
      case Just(c) =>
        ReadConjunction(lower, None, c);
      case Either(l, c) =>
        ReadDisjunction(lower, l);
        ReadOr(lower, l, Text(l), ConjunctionText(c));
        ReadConjunction(lower, Some(l), c);
    }
  }

  lemma ReadOr(lower: seq<Frame>, l: Disjunction, left: seq<Token>, right: seq<Token>)
    requires ReadAll(Reading(lower + [EMPTY_FRAME], None), left) == Some(Reading(lower + [FrameOf(l)], Some(LastOf(l))))
    ensures ReadAll(Reading(lower + [EMPTY_FRAME], None), left + [Joining(Or)] + right)
            == ReadAll(Reading(lower + [Frame(Some(l), None)], None), right)
  {
    hide ReadAll;
    var r := Reading(lower + [EMPTY_FRAME], None);
    ReadThenOne(r, left, Reading(lower + [FrameOf(l)], Some(LastOf(l))), Joining(Or));
    ReadAtTop(lower, FrameOf(l), LastOf(l));
    ReadThenAll(r, left + [Joining(Or)], Reading(lower + [Frame(Some(l), None)], None), right);
  }

  /** Parsing the text of a tree gives the tree back: the grammar is unambiguous. */
  lemma ParseInvertsText(d: Disjunction)
    ensures Parse(Text(d)) == Some(d)
  {
    hide ReadAll, Text;
    ReadDisjunction([], d);
    assert [] + [EMPTY_FRAME] == [EMPTY_FRAME];
  }

  // -------------------------------------------------- printing inverts parsing

  function FrameText(frame: Frame): seq<Token> {
    (if frame.disjunction.Some? then Text(frame.disjunction.value) + [Joining(Or)] else [])
    + (if frame.conjunction.Some? then ConjunctionText(frame.conjunction.value) + [Joining(And)] else [])
  }

  function FramesText(frames: seq<Frame>): seq<Token>
    requires frames != []
  {
    if |frames| == 1 then FrameText(frames[0])
    else FramesText(frames[..|frames| - 1]) + [Opening] + FrameText(frames[|frames| - 1])
  }

  function ReadingText(r: Reading): seq<Token>
    requires r.frames != []
  {
    FramesText(r.frames) + if r.last.Some? then AtomText(r.last.value) else []
  }

  lemma FinishText(frame: Frame, a: Atom)
    ensures FrameText(frame) + AtomText(a) == Text(Finish(frame, a))
    ensures FrameText(Frame(frame.disjunction, Some(Conjoin(frame.conjunction, a))))
            == FrameText(frame) + AtomText(a) + [Joining(And)]
    ensures FrameText(Frame(Some(Finish(frame, a)), None)) == FrameText(frame) + AtomText(a) + [Joining(Or)]
  {
    hide FrameText, Text, ConjunctionText, AtomText, Conjoin, Disjoin;
    var c := Conjoin(frame.conjunction, a);
    var outer, inner := FrameText(Frame(frame.disjunction, None)), FrameText(Frame(None, frame.conjunction));
    FrameTextParts(frame);
    FrameTextParts(Frame(frame.disjunction, Some(c)));
    ConjoinText(frame.conjunction, a);
    DisjoinText(frame.disjunction, c);
    assert outer + (inner + AtomText(a)) == outer + inner + AtomText(a);
    assert outer + (inner + AtomText(a) + [Joining(And)]) == outer + inner + AtomText(a) + [Joining(And)];
  }

  lemma FrameTextParts(frame: Frame)
    ensures FrameText(frame) == FrameText(Frame(frame.disjunction, None)) + FrameText(Frame(None, frame.conjunction))
  {
  }

  lemma ConjoinText(pending: Option<Conjunction>, a: Atom)
    ensures ConjunctionText(Conjoin(pending, a)) == FrameText(Frame(None, pending)) + AtomText(a)
    ensures FrameText(Frame(None, Some(Conjoin(pending, a))))
            == FrameText(Frame(None, pending)) + AtomText(a) + [Joining(And)]
  {
    hide AtomText;
  }

  lemma DisjoinText(pending: Option<Disjunction>, c: Conjunction)
    ensures Text(Disjoin(pending, c)) == FrameText(Frame(pending, None)) + ConjunctionText(c)
    ensures FrameText(Frame(Some(Disjoin(pending, c)), None)) == Text(Disjoin(pending, c)) + [Joining(Or)]
  {
    hide ConjunctionText;
  }

  lemma FramesTextTop(lower: seq<Frame>, top: Frame)
    ensures FramesText(lower + [top]) == (if lower == [] then [] else FramesText(lower) + [Opening]) + FrameText(top)
  {
    assert (lower + [top])[..|lower|] == lower;
  }

  lemma JoinExtends(lower: seq<Frame>, top: Frame, a: Atom, join: Join)
    ensures FramesText(lower
                       + [if join == And then Frame(top.disjunction, Some(Conjoin(top.conjunction, a)))
                          else Frame(Some(Finish(top, a)), None)])
      == FramesText(lower + [top]) + AtomText(a) + [Joining(join)]
  {
    hide FramesText, FrameText, AtomText, Conjoin, Finish;
    var next :=
      if join == And then Frame(top.disjunction, Some(Conjoin(top.conjunction, a)))
      else Frame(Some(Finish(top, a)), None);
    FinishText(top, a);
    FramesTextTop(lower, top);
    FramesTextTop(lower, next);
    var prefix := if lower == [] then [] else FramesText(lower) + [Opening];
    assert prefix + (FrameText(top) + AtomText(a) + [Joining(join)])
           == prefix + FrameText(top) + AtomText(a) + [Joining(join)];
  }

  lemma CloseExtends(lower: seq<Frame>, top: Frame, a: Atom)
    requires lower != []
    ensures FramesText(lower) + AtomText(Group(Finish(top, a))) == FramesText(lower + [top]) + AtomText(a) + [Closing]
  {
    FinishText(top, a);
    FramesTextTop(lower, top);
    var text := FramesText(lower);
    assert text + ([Opening] + (FrameText(top) + AtomText(a)) + [Closing])
      == text + [Opening] + FrameText(top) + AtomText(a) + [Closing];
  }

  lemma ReadExtends(r: Reading, token: Token)
    requires r.frames != [] && Read(r, token).Some?
    ensures ReadingText(Read(r, token).value) == ReadingText(r) + [token]
  {
    var lower, top := r.frames[..|r.frames| - 1], r.frames[|r.frames| - 1];
    assert r.frames == lower + [top];
    if r.last.None? {
      FramesTextTop(r.frames, EMPTY_FRAME);
    } else if token == Closing {
      CloseExtends(lower, top, r.last.value);
    } else {
      JoinExtends(lower, top, r.last.value, token.join);
    }
  }

  lemma {:induction false} ReadAllKeepsText(tokens: seq<Token>)
    requires ReadAll(NOTHING_READ, tokens).Some?
    ensures ReadingText(ReadAll(NOTHING_READ, tokens).value) == tokens
    decreases |tokens|
  {
    if tokens != [] {
      ReadAllKeepsText(tokens[..|tokens| - 1]);
      ReadExtends(ReadAll(NOTHING_READ, tokens[..|tokens| - 1]).value, tokens[|tokens| - 1]);
    }
  }

  /** What parses is the text of what it parses to. */
  lemma TextInvertsParse(tokens: seq<Token>)
    requires Parse(tokens).Some?
    ensures Text(Parse(tokens).value) == tokens
  {
    ReadAllKeepsText(tokens);
    var r := ReadAll(NOTHING_READ, tokens).value;
    FinishText(r.frames[0], r.last.value);
  }

  // ------------------------------------------------------------------ monotone

  ghost predicate AtMost(a: seq<bool>, b: seq<bool>) {
    |a| == |b| && forall i :: 0 <= i < |a| ==> a[i] ==> b[i]
  }

  lemma {:induction false} AtomMonotone(a: Atom, hits: seq<bool>, more: seq<bool>)
    requires AtMost(hits, more) && AtomValue(a, hits)
    ensures AtomValue(a, more)
    decreases a, 0
  {
    if a.Group? { ValueMonotone(a.body, hits, more); }
  }

  lemma {:induction false} ConjunctionMonotone(c: Conjunction, hits: seq<bool>, more: seq<bool>)
    requires AtMost(hits, more) && ConjunctionValue(c, hits)
    ensures ConjunctionValue(c, more)
    decreases c, 1
  {
    match c {
      case One(a) => AtomMonotone(a, hits, more);
      case Both(l, a) => ConjunctionMonotone(l, hits, more); AtomMonotone(a, hits, more);
    }
  }

  /** More hits never turn a match into a miss. */
  lemma {:induction false} ValueMonotone(d: Disjunction, hits: seq<bool>, more: seq<bool>)
    requires AtMost(hits, more) && Value(d, hits)
    ensures Value(d, more)
    decreases d, 2
  {
    match d {
      case Just(c) => ConjunctionMonotone(c, hits, more);
      case Either(l, c) =>
        if Value(l, hits) { ValueMonotone(l, hits, more); } else { ConjunctionMonotone(c, hits, more); }
    }
  }
}
