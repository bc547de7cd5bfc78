/**
 * Choosing and checking the range a rewrite replays: the draft comparisons of
 * apps/desktop/frontend/src/lib/commit-edit.ts and the permutation test of
 * validateRewriteRange (internal/desktop/commit_rewrite.go).
 *
 * Ids, texts and dates are compared only, so they are numbers; 0 is the empty fingerprint.
 */
module CommitEdit {
  import opened Common

  type Id = nat

  datatype Draft = Draft(commit: Id, message: nat, name: nat, email: nat, date: nat)

  type Fingerprints = map<Id, nat>

  function FingerprintOf(fingerprints: Fingerprints, id: Id): nat {
    if id in fingerprints then fingerprints[id] else 0
  }

  function Ids(xs: seq<Draft>): (r: seq<Id>)
    ensures |r| == |xs| && forall i :: 0 <= i < |xs| ==> r[i] == xs[i].commit
  {
    seq(|xs|, i requires 0 <= i < |xs| => xs[i].commit)
  }

  /** Two lists of different ids, of one length, the first inside the second: what the draft checks ask. */
  ghost predicate Rearranges(a: seq<Id>, b: seq<Id>) {
    Distinct(a) && Distinct(b) && |a| == |b| && forall x :: x in a ==> x in b
  }

  function SetOf(ids: seq<Id>): set<Id> {
    set x | x in ids
  }

  lemma {:induction false} DistinctCounts(ids: seq<Id>)
    requires Distinct(ids)
    ensures |SetOf(ids)| == |ids|
    ensures forall x :: x in ids ==> multiset(ids)[x] == 1
  {
    if ids != [] {
      var last := |ids| - 1;
      var front := ids[..last];
      DistinctCounts(front);
      assert ids == front + [ids[last]];
      assert SetOf(ids) == SetOf(front) + {ids[last]};
    }
  }

  lemma {:induction false} FewValues(ids: seq<Id>)
    ensures |SetOf(ids)| <= |ids|
  {
    if ids != [] {
      var last := |ids| - 1;
      FewValues(ids[..last]);
      assert SetOf(ids) == SetOf(ids[..last]) + {ids[last]};
    }
  }

  lemma SubsetOfSameSize(a: set<Id>, b: set<Id>)
    requires a <= b && |a| >= |b|
    ensures a == b
  {
    assert |b - a| == |b| - |a|;
  }

  /** A list without repetition that stays inside one no longer is a permutation of it. */
  lemma InsideIsPermutation(a: seq<Id>, b: seq<Id>)
    requires Distinct(a) && |a| == |b| && forall x :: x in a ==> x in b
    ensures multiset(a) == multiset(b) && Distinct(b) && forall x :: x in b ==> x in a
  {
    DistinctCounts(a);
    FewValues(b);
    SubsetOfSameSize(SetOf(a), SetOf(b));
    assert forall x :: x in a <==> x in SetOf(a);
    assert forall x :: x in b <==> x in SetOf(b);
    FullIsDistinct(b);
    DistinctCounts(b);
    assert forall x :: multiset(a)[x] == multiset(b)[x];
  }

  lemma {:induction false} FullIsDistinct(ids: seq<Id>)
    requires |SetOf(ids)| == |ids|
    ensures Distinct(ids)
  {
    if ids != [] {
      var last := |ids| - 1;
      var front := ids[..last];
      FewValues(front);
      assert SetOf(ids) == SetOf(front) + {ids[last]};
      assert ids[last] !in SetOf(front);
      FullIsDistinct(front);
    }
  }

  // ------------------------------------------------------------------ the anchor

  predicate SameDraft(left: Draft, right: Draft, fingerprints: Fingerprints) {
    left == right && FingerprintOf(fingerprints, right.commit) == 0
  }

  ghost predicate IndexesOf(xs: seq<Draft>, m: map<Id, nat>) {
    && (forall i :: 0 <= i < |xs| ==> xs[i].commit in m && m[xs[i].commit] == i)
    && (forall id :: id in m ==> m[id] < |xs| && xs[m[id]].commit == id)
  }

  method CommitIndexes(xs: seq<Draft>) returns (r: Option<map<Id, nat>>)
    ensures r.Some? <==> Distinct(Ids(xs))
    ensures r.Some? ==> IndexesOf(xs, r.value)
  {
    var indexes: map<Id, nat> := map[];
    for i := 0 to |xs|
      invariant IndexesOf(xs[..i], indexes)
      invariant Distinct(Ids(xs[..i]))
    {
      if xs[i].commit in indexes {
        assert Ids(xs)[indexes[xs[i].commit]] == Ids(xs)[i];
        return None;
      }
      indexes := indexes[xs[i].commit := i];
      assert forall j :: 0 <= j < i ==> Ids(xs[..i])[j] != xs[i].commit;
    }
    assert xs[..|xs|] == xs;
    return Some(indexes);
  }

  predicate MovedOrEdited(original: seq<Draft>, draft: seq<Draft>, fingerprints: Fingerprints, i: nat, d: nat)
    requires i < |original| && d < |draft|
  {
    draft[d].commit == original[i].commit && (d != i || !SameDraft(original[i], draft[d], fingerprints))
  }

  /** Row i of the original stands elsewhere in the draft, or reads otherwise there. */
  ghost predicate Affected(original: seq<Draft>, draft: seq<Draft>, fingerprints: Fingerprints, i: nat)
    requires i < |original|
  {
    AffectedWithin(original, draft, fingerprints, i, |draft|)
  }

  ghost predicate AffectedWithin(original: seq<Draft>, draft: seq<Draft>, fingerprints: Fingerprints, i: nat, n: nat)
    requires i < |original| && n <= |draft|
  {
    exists d: nat :: d < n && MovedOrEdited(original, draft, fingerprints, i, d)
  }

  lemma AffectedNext(original: seq<Draft>, draft: seq<Draft>, fingerprints: Fingerprints, i: nat, n: nat)
    requires i < |original| && n < |draft|
    ensures AffectedWithin(original, draft, fingerprints, i, n + 1)
       <==> AffectedWithin(original, draft, fingerprints, i, n) || MovedOrEdited(original, draft, fingerprints, i, n)
  {
    if AffectedWithin(original, draft, fingerprints, i, n) {
      var d: nat :| d < n && MovedOrEdited(original, draft, fingerprints, i, d);
      assert d < n + 1;
    }
  }

  /** The oldest affected row; there is none in a list that is no rearrangement, and none in an unchanged one. */
  ghost predicate IsAnchor(original: seq<Draft>, draft: seq<Draft>, fingerprints: Fingerprints, r: Option<nat>) {
    match r
    case Some(k) =>
      && Rearranges(Ids(original), Ids(draft))
      && k < |original| && Affected(original, draft, fingerprints, k)
      && forall i: nat :: k < i < |original| ==> !Affected(original, draft, fingerprints, i)
    case None =>
      Rearranges(Ids(original), Ids(draft)) ==> forall i: nat :: i < |original| ==>
        !Affected(original, draft, fingerprints, i)
  }

  /** The largest original index of the rows affected among the first n rows of the draft, plus one. */
  ghost predicate SeenUpTo(original: seq<Draft>, draft: seq<Draft>, fingerprints: Fingerprints, n: nat, bound: nat)
    requires n <= |draft| && bound <= |original|
  {
    && (bound > 0 ==> Affected(original, draft, fingerprints, bound - 1))
    && forall i: nat :: bound <= i < |original| ==> !AffectedWithin(original, draft, fingerprints, i, n)
  }

  method OldestAffectedOriginalIndex(original: seq<Draft>, draft: seq<Draft>, fingerprints: Fingerprints)
    returns (r: Option<nat>)
    ensures IsAnchor(original, draft, fingerprints, r)
  {
    var originalIndexes := CommitIndexes(original);
    var draftIndexes := CommitIndexes(draft);
    if originalIndexes.None? || draftIndexes.None? || |original| != |draft| { return None; }
    if !(originalIndexes.value.Keys <= draftIndexes.value.Keys) {
      KeysDecide(original, draft, originalIndexes.value, draftIndexes.value);
      return None;
    }
    KeysDecide(original, draft, originalIndexes.value, draftIndexes.value);
    InsideIsPermutation(Ids(original), Ids(draft));
    var oldest := -1;
    for d := 0 to |draft|
      invariant -1 <= oldest < |original|
      invariant SeenUpTo(original, draft, fingerprints, d, oldest + 1)
    {
      assert Ids(draft)[d] in Ids(original);
      var i := originalIndexes.value[draft[d].commit];
      if i != d || !SameDraft(original[i], draft[d], fingerprints) {
        assert MovedOrEdited(original, draft, fingerprints, i, d);
        if i > oldest { oldest := i; }
      }
      ghost var next := d + 1;
      forall x: nat | oldest < x < |original| ensures !AffectedWithin(original, draft, fingerprints, x, next) {
        AffectedNext(original, draft, fingerprints, x, d);
        assert x != i ==> Ids(original)[x] != Ids(original)[i];
      }
    }
    if oldest < 0 { return None; }
    return Some(oldest);
  }

  lemma KeysDecide(original: seq<Draft>, draft: seq<Draft>, o: map<Id, nat>, d: map<Id, nat>)
    requires IndexesOf(original, o) && IndexesOf(draft, d)
    ensures o.Keys <= d.Keys <==> forall x :: x in Ids(original) ==> x in Ids(draft)
  {
    assert forall x :: x in Ids(original) <==> x in o;
    assert forall x :: x in Ids(draft) <==> x in d;
  }

  // ------------------------------------------------------------- the stack draft

  datatype Reason =
    | EmptyStack
    | DuplicateCommitId
    | DraftIsNotAPermutation
    | StackIsNotVisibleHeadRange
    | DraftCrossesRewriteRange
    | ChangesOutsideRewriteRange

  function Reverse<T>(xs: seq<T>): (r: seq<T>)
    ensures |r| == |xs| && forall i :: 0 <= i < |xs| ==> r[i] == xs[|xs| - 1 - i]
  {
    seq(|xs|, i requires 0 <= i < |xs| => xs[|xs| - 1 - i])
  }

  ghost predicate RestIsSame(original: seq<Draft>, draft: seq<Draft>, fingerprints: Fingerprints, n: nat)
    requires |original| == |draft|
  {
    forall i :: n <= i < |original| ==> SameDraft(original[i], draft[i], fingerprints)
  }

  ghost function Derive(
      original: seq<Draft>, draft: seq<Draft>, stack: seq<Id>, fingerprints: Fingerprints): Result<seq<Draft>, Reason>
  {
    var n := |stack|;
    if !Distinct(Ids(original)) || !Distinct(Ids(draft)) || !Distinct(stack) then Err(DuplicateCommitId)
    else if n == 0 then Err(EmptyStack)
    else if !Rearranges(Ids(original), Ids(draft)) then Err(DraftIsNotAPermutation)
    else if n > |original| || Ids(original[..n]) != Reverse(stack) then Err(StackIsNotVisibleHeadRange)
    else if !Rearranges(stack, Ids(draft[..n])) then Err(DraftCrossesRewriteRange)
    else if !RestIsSame(original, draft, fingerprints, n) then Err(ChangesOutsideRewriteRange)
    else Ok(Reverse(draft[..n]))
  }

  method AllDistinct(ids: seq<Id>) returns (r: bool)
    ensures r == Distinct(ids)
  {
    var seen: set<Id> := {};
    for i := 0 to |ids|
      invariant seen == SetOf(ids[..i]) && Distinct(ids[..i])
    {
      if ids[i] in seen {
        var j :| 0 <= j < i && ids[..i][j] == ids[i];
        assert ids[j] == ids[i];
        return false;
      }
      seen := seen + {ids[i]};
      assert forall j :: 0 <= j < i ==> ids[..i][j] in SetOf(ids[..i]);
    }
    assert ids[..|ids|] == ids;
    return true;
  }

  method AllInside(ids: seq<Id>, others: seq<Id>) returns (r: bool)
    ensures r <==> forall x :: x in ids ==> x in others
  {
    var prefixIds := SetOf(others);
    r := forall x :: x in ids ==> x in prefixIds;
  }

  method IsRestSame(original: seq<Draft>, draft: seq<Draft>, fingerprints: Fingerprints, n: nat) returns (r: bool)
    requires |original| == |draft| && n <= |original|
    ensures r == RestIsSame(original, draft, fingerprints, n)
  {
    for i := n to |original|
      invariant forall j :: n <= j < i ==> SameDraft(original[j], draft[j], fingerprints)
    {
      if !SameDraft(original[i], draft[i], fingerprints) { return false; }
    }
    return true;
  }

  method DeriveRewriteStackDraft(original: seq<Draft>, draft: seq<Draft>, stack: seq<Id>, fingerprints: Fingerprints)
    returns (r: Result<seq<Draft>, Reason>)
    ensures r == Derive(original, draft, stack, fingerprints)
  {
    var originalIndexes := CommitIndexes(original);
    var draftIndexes := CommitIndexes(draft);
    var stackDistinct := AllDistinct(stack);
    if originalIndexes.None? || draftIndexes.None? || !stackDistinct { return Err(DuplicateCommitId); }
    var n := |stack|;
    if n == 0 { return Err(EmptyStack); }
    KeysDecide(original, draft, originalIndexes.value, draftIndexes.value);
    if |original| != |draft| || !(originalIndexes.value.Keys <= draftIndexes.value.Keys) {
      return Err(DraftIsNotAPermutation);
    }
    var newestFirst := Reverse(stack);
    if n > |original| || Ids(original[..n]) != newestFirst { return Err(StackIsNotVisibleHeadRange); }
    PrefixIsDistinct(draft, n);
    var inside := AllInside(stack, Ids(draft[..n]));
    if !inside { return Err(DraftCrossesRewriteRange); }
    var same := IsRestSame(original, draft, fingerprints, n);
    if !same { return Err(ChangesOutsideRewriteRange); }
    return Ok(Reverse(draft[..n]));
  }

  lemma PrefixIsDistinct(xs: seq<Draft>, n: nat)
    requires n <= |xs| && Distinct(Ids(xs))
    ensures Distinct(Ids(xs[..n]))
  {
    assert forall i :: 0 <= i < n ==> Ids(xs[..n])[i] == Ids(xs)[i];
  }

  /** The stack, oldest first, of the first j visible rows. */
  function HeadRange(original: seq<Draft>, j: nat): seq<Id>
    requires j <= |original|
  {
    Reverse(Ids(original[..j]))
  }

  lemma ReverseMembers(ids: seq<Id>, x: Id)
    ensures x in Reverse(ids) <==> x in ids
  {
    if x in ids {
      var i :| 0 <= i < |ids| && ids[i] == x;
      assert Reverse(ids)[|ids| - 1 - i] == x;
    }
  }

  lemma ReverseTwice(ids: seq<Id>)
    ensures Reverse(Reverse(ids)) == ids
  {
  }

  lemma ReverseIsDistinct(ids: seq<Id>)
    requires Distinct(ids)
    ensures Distinct(Reverse(ids))
  {
  }

  lemma HeadRangeIsVisible(original: seq<Draft>, j: nat)
    requires j <= |original| && Distinct(Ids(original))
    ensures Distinct(HeadRange(original, j)) && Reverse(HeadRange(original, j)) == Ids(original[..j])
  {
    PrefixIsDistinct(original, j);
    ReverseTwice(Ids(original[..j]));
    ReverseIsDistinct(Ids(original[..j]));
  }

  /** Beyond the anchor every row stands where it stood, unchanged. */
  lemma UnaffectedStands(original: seq<Draft>, draft: seq<Draft>, fingerprints: Fingerprints, i: nat)
    requires Rearranges(Ids(original), Ids(draft)) && i < |original|
    ensures !Affected(original, draft, fingerprints, i) <==> SameDraft(original[i], draft[i], fingerprints)
  {
    assert Ids(original)[i] in Ids(draft);
    var d :| 0 <= d < |draft| && Ids(draft)[d] == original[i].commit;
    assert MovedOrEdited(original, draft, fingerprints, i, d) ==> Affected(original, draft, fingerprints, i);
    forall e: nat | e < |draft| && draft[e].commit == original[i].commit ensures e == d {
      assert Ids(draft)[e] == Ids(draft)[d];
    }
  }

  /** When the rows from j on stand unchanged, the first j rows of the draft rearrange the first j originals. */
  lemma PrefixesRearrange(original: seq<Draft>, draft: seq<Draft>, fingerprints: Fingerprints, j: nat)
    requires Rearranges(Ids(original), Ids(draft)) && j <= |original| && RestIsSame(original, draft, fingerprints, j)
    ensures Rearranges(HeadRange(original, j), Ids(draft[..j]))
  {
    HeadRangeIsVisible(original, j);
    PrefixIsDistinct(draft, j);
    var head, prefix := HeadRange(original, j), Ids(draft[..j]);
    assert forall x :: x in head ==> x in prefix by {
      forall x | x in head ensures x in prefix { HeadInPrefix(original, draft, fingerprints, j, x); }
    }
  }

  lemma HeadInPrefix(original: seq<Draft>, draft: seq<Draft>, fingerprints: Fingerprints, j: nat, x: Id)
    requires Rearranges(Ids(original), Ids(draft)) && j <= |original| && RestIsSame(original, draft, fingerprints, j)
    requires x in HeadRange(original, j)
    ensures x in Ids(draft[..j])
  {
    ReverseMembers(Ids(original[..j]), x);
    var i :| 0 <= i < j && Ids(original[..j])[i] == x;
    StaysInPrefix(original, draft, fingerprints, j, i);
  }

  lemma StaysInPrefix(original: seq<Draft>, draft: seq<Draft>, fingerprints: Fingerprints, j: nat, i: nat)
    requires Rearranges(Ids(original), Ids(draft)) && i < j <= |original|
             && RestIsSame(original, draft, fingerprints, j)
    ensures original[i].commit in Ids(draft[..j])
  {
    assert Ids(original)[i] in Ids(draft);
    var d :| 0 <= d < |draft| && Ids(draft)[d] == original[i].commit;
    assert forall e :: j <= e < |original| ==>
           Ids(draft)[e] == Ids(original)[e] && Ids(original)[e] != Ids(original)[i];
    assert Ids(draft[..j])[d] == original[i].commit;
  }

  /** The head range of length j is accepted exactly when the draft rearranges the visible rows
      and leaves those from j on alone. */
  lemma DeriveAccepts(original: seq<Draft>, draft: seq<Draft>, fingerprints: Fingerprints, j: nat)
    requires j <= |original|
    ensures Derive(original, draft, HeadRange(original, j), fingerprints).Ok?
       <==> j >= 1 && Rearranges(Ids(original), Ids(draft)) && RestIsSame(original, draft, fingerprints, j)
  {
    if Rearranges(Ids(original), Ids(draft)) {
      HeadRangeIsVisible(original, j);
      if RestIsSame(original, draft, fingerprints, j) { PrefixesRearrange(original, draft, fingerprints, j); }
    }
  }

  /**
   * The anchor is exact: the visible head range of length j is accepted as the stack to
   * replay exactly when it reaches the oldest affected row. A draft that changes nothing
   * is accepted with every range, one that is no rearrangement with none.
   */
  lemma AnchorIsExact(original: seq<Draft>, draft: seq<Draft>, fingerprints: Fingerprints, anchor: Option<nat>, j: nat)
    requires IsAnchor(original, draft, fingerprints, anchor) && j <= |original|
    ensures Derive(original, draft, HeadRange(original, j), fingerprints).Ok?
       <==> Rearranges(Ids(original), Ids(draft)) && j >= 1 && (anchor.Some? ==> j >= anchor.value + 1)
  {
    DeriveAccepts(original, draft, fingerprints, j);
    if Rearranges(Ids(original), Ids(draft)) {
      forall i: nat | i < |original|
        ensures Affected(original, draft, fingerprints, i) <==> !SameDraft(original[i], draft[i], fingerprints)
      {
        UnaffectedStands(original, draft, fingerprints, i);
      }
    }
  }

  ghost predicate IsPermutation(ids: seq<Id>, of: seq<Id>) {
    Distinct(ids) && multiset(ids) == multiset(of)
  }

  /** Whatever stack is accepted is a visible head range, and the result rearranges it. */
  lemma AcceptedIsPermutation(original: seq<Draft>, draft: seq<Draft>, stack: seq<Id>, fingerprints: Fingerprints)
    requires Derive(original, draft, stack, fingerprints).Ok?
    ensures 1 <= |stack| <= |original| && stack == HeadRange(original, |stack|)
    ensures IsPermutation(Ids(Derive(original, draft, stack, fingerprints).value), stack)
    ensures var r := Derive(original, draft, stack, fingerprints).value;
      forall i :: 0 <= i < |r| ==> r[i] == draft[|stack| - 1 - i]
    ensures draft == original ==> Ids(Derive(original, draft, stack, fingerprints).value) == stack
  {
    ReverseTwice(stack);
    ReversedRearranges(draft[..|stack|], stack);
    if draft == original {
      assert Ids(Reverse(draft[..|stack|])) == Reverse(Ids(original[..|stack|]));
    }
  }

  /** A reason for refusing a stack. */
  ghost predicate Applies(
      original: seq<Draft>, draft: seq<Draft>, stack: seq<Id>, fingerprints: Fingerprints, reason: Reason) {
    match reason
    case DuplicateCommitId => !(Distinct(Ids(original)) && Distinct(Ids(draft)) && Distinct(stack))
    case EmptyStack => stack == []
    case DraftIsNotAPermutation => multiset(Ids(draft)) != multiset(Ids(original))
    case StackIsNotVisibleHeadRange =>
      |stack| > |original| || exists i :: 0 <= i < |stack| && stack[i] != original[|stack| - 1 - i].commit
    case DraftCrossesRewriteRange =>
      |stack| <= |draft| && exists x :: x in stack && forall i :: 0 <= i < |stack| ==> draft[i].commit != x
    case ChangesOutsideRewriteRange =>
      exists i :: |stack| <= i < |original| && i < |draft| && !SameDraft(original[i], draft[i], fingerprints)
  }

  /** The order in which the reasons are looked for. */
  function Turn(reason: Reason): nat {
    match reason
    case DuplicateCommitId => 0
    case EmptyStack => 1
    case DraftIsNotAPermutation => 2
    case StackIsNotVisibleHeadRange => 3
    case DraftCrossesRewriteRange => 4
    case ChangesOutsideRewriteRange => 5
  }

  lemma RearrangesIsPermutation(a: seq<Id>, b: seq<Id>)
    requires Distinct(a) && Distinct(b)
    ensures Rearranges(a, b) <==> multiset(b) == multiset(a)
  {
    if Rearranges(a, b) { InsideIsPermutation(a, b); }
    if multiset(b) == multiset(a) {
      assert |a| == |multiset(a)| && |b| == |multiset(b)|;
      forall x | x in a ensures x in b {
        assert x in multiset(b);
      }
    }
  }

  lemma ReasonApplies(original: seq<Draft>, draft: seq<Draft>, stack: seq<Id>, fingerprints: Fingerprints)
    ensures var r := Derive(original, draft, stack, fingerprints);
      && (r.Err? ==> Applies(original, draft, stack, fingerprints, r.error))
      && forall other :: Applies(original, draft, stack, fingerprints, other) ==>
           r.Err? && Turn(r.error) <= Turn(other)
  {
    hide SameDraft;
    var n, r := |stack|, Derive(original, draft, stack, fingerprints);
    if Distinct(Ids(original)) && Distinct(Ids(draft)) && Distinct(stack) {
      RearrangesIsPermutation(Ids(original), Ids(draft));
      if n <= |original| && |original| == |draft| {
        VisibleStack(original, stack);
        CrossingStack(draft, stack);
      }
    }
  }

  lemma VisibleStack(original: seq<Draft>, stack: seq<Id>)
    requires |stack| <= |original|
    ensures Ids(original[..|stack|]) == Reverse(stack)
            <==> forall i :: 0 <= i < |stack| ==> stack[i] == original[|stack| - 1 - i].commit
  {
    var n := |stack|;
    if Ids(original[..n]) == Reverse(stack) {
      forall i | 0 <= i < n ensures stack[i] == original[n - 1 - i].commit {
        assert Reverse(stack)[n - 1 - i] == stack[i] && Ids(original[..n])[n - 1 - i] == original[n - 1 - i].commit;
      }
    }
  }

  lemma CrossingStack(draft: seq<Draft>, stack: seq<Id>)
    requires |stack| <= |draft| && Distinct(Ids(draft)) && Distinct(stack)
    ensures Rearranges(stack, Ids(draft[..|stack|]))
            <==> !exists x :: x in stack && forall i :: 0 <= i < |stack| ==> draft[i].commit != x
  {
    PrefixIsDistinct(draft, |stack|);
    var front := Ids(draft[..|stack|]);
    forall x ensures x in front <==> exists i :: 0 <= i < |stack| && draft[i].commit == x {
      if i :| 0 <= i < |stack| && draft[i].commit == x { assert front[i] == x; }
    }
  }

  /** A stack is refused exactly when some reason applies, and then for the first that does. */
  lemma FirstReasonDecides(
      original: seq<Draft>, draft: seq<Draft>, stack: seq<Id>, fingerprints: Fingerprints, reason: Reason)
    ensures Derive(original, draft, stack, fingerprints) == Err(reason)
            <==> Applies(original, draft, stack, fingerprints, reason)
                 && forall other :: Applies(original, draft, stack, fingerprints, other) ==> Turn(reason) <= Turn(other)
  {
    hide Derive, Applies;
    ReasonApplies(original, draft, stack, fingerprints);
  }

  /** A row is affected exactly when the draft has it at another place, with another text, author or date, or
      with a fingerprint of edits. */
  lemma AffectedMeans(original: seq<Draft>, draft: seq<Draft>, fingerprints: Fingerprints, i: nat)
    requires i < |original|
    ensures Affected(original, draft, fingerprints, i) <==>
      exists d: nat :: d < |draft| && draft[d].commit == original[i].commit
        && (d != i || draft[d].message != original[i].message || draft[d].name != original[i].name
            || draft[d].email != original[i].email || draft[d].date != original[i].date
            || (draft[d].commit in fingerprints && fingerprints[draft[d].commit] != 0))
  {
    if Affected(original, draft, fingerprints, i) {
      var d: nat :| d < |draft| && MovedOrEdited(original, draft, fingerprints, i, d);
      assert draft[d].commit == original[i].commit;
    }
    forall d: nat | d < |draft| && draft[d].commit == original[i].commit
      ensures SameDraft(original[i], draft[d], fingerprints) || MovedOrEdited(original, draft, fingerprints, i, d)
      ensures d != i ==> MovedOrEdited(original, draft, fingerprints, i, d)
    {
    }
  }

  lemma ReversedRearranges(prefix: seq<Draft>, stack: seq<Id>)
    requires Rearranges(stack, Ids(prefix))
    ensures IsPermutation(Ids(Reverse(prefix)), stack)
  {
    var ids := Ids(prefix);
    InsideIsPermutation(stack, ids);
    assert Ids(Reverse(prefix)) == Reverse(ids);
    ReverseKeepsElements(ids);
    ReverseIsDistinct(ids);
  }

  lemma {:induction false} ReverseKeepsElements(ids: seq<Id>)
    ensures multiset(Reverse(ids)) == multiset(ids)
  {
    if ids != [] {
      ReverseKeepsElements(ids[1..]);
      assert ids == [ids[0]] + ids[1..];
      assert Reverse(ids) == Reverse(ids[1..]) + [ids[0]];
    }
  }

  // ---------------------------------------------------------------- moving a row

  function RemoveAt<T>(xs: seq<T>, i: nat): seq<T>
    requires i < |xs|
  {
    xs[..i] + xs[i + 1..]
  }

  function Position(ids: seq<Id>, id: Id): (r: Option<nat>)
    ensures match r
      case None => id !in ids
      case Some(i) => i < |ids| && ids[i] == id && id !in ids[..i]
  {
    if ids == [] then None
    else if ids[0] == id then Some(0)
    else
      match Position(ids[1..], id)
      case None => None
      case Some(i) => assert ids[..i + 1] == [ids[0]] + ids[1..][..i]; Some(i + 1)
  }

  /** Where the row ends up: the insertion index counts the row itself when it comes before. */
  function Destination(count: nat, source: nat, insertion: int): (r: nat)
    requires source < count
    ensures r < count
  {
    var bounded := if insertion < 0 then 0 else if insertion > count then count else insertion;
    if source < bounded then bounded - 1 else bounded
  }

  /** The insertion index, kept inside the list. */
  predicate AtInsertion(b: nat, insertion: int, count: nat) {
    && b <= count && (0 <= insertion <= count ==> b == insertion)
    && (insertion < 0 ==> b == 0) && (insertion > count ==> b == count)
  }

  /** The rows in front of the insertion index, but for the row that moves. */
  function InFront(xs: seq<Draft>, source: nat, b: nat): seq<Draft>
    requires source < |xs| && b <= |xs|
  {
    if source < b then RemoveAt(xs[..b], source) else xs[..b]
  }

  /** The row moves to its destination, right behind the rows in front of the insertion index; the others
      keep their order. */
  method MoveCommitTo(xs: seq<Draft>, id: Id, insertion: int) returns (r: seq<Draft>)
    ensures id !in Ids(xs) ==> r == xs
    ensures id in Ids(xs) ==>
      var source := Position(Ids(xs), id).value;
      var destination := Destination(|xs|, source, insertion);
      && |r| == |xs| && r[destination] == xs[source] && RemoveAt(r, destination) == RemoveAt(xs, source)
      && forall b: nat :: AtInsertion(b, insertion, |xs|) ==> InFront(xs, source, b) + [xs[source]] <= r
    ensures multiset(r) == multiset(xs)
  {
    hide InFront;
    var source := Position(Ids(xs), id);
    if source.None? { return xs; }
    var from := source.value;
    var bounded := if insertion < 0 then 0 else if insertion > |xs| then |xs| else insertion;
    var to := if from < bounded then bounded - 1 else bounded;
    MovesBehind(xs, from, bounded, to);
    assert forall b: nat :: AtInsertion(b, insertion, |xs|) ==> b == bounded;
    if to == from { return xs; }
    var next := xs[..from] + xs[from + 1..];
    r := next[..to] + [xs[from]] + next[to..];
    MovedIsPermutation(xs, from, r, to);
  }

  lemma MovesBehind(xs: seq<Draft>, from: nat, bounded: nat, to: nat)
    requires from < |xs| && bounded <= |xs| && to == if from < bounded then bounded - 1 else bounded
    ensures InFront(xs, from, bounded) == RemoveAt(xs, from)[..to]
    ensures to == from ==> InFront(xs, from, bounded) + [xs[from]] <= xs
  {
    var front, rest := InFront(xs, from, bounded), RemoveAt(xs, from);
    assert |front| == to;
    assert forall i :: 0 <= i < to ==> front[i] == rest[i];
    if to == from { assert xs[..from] + [xs[from]] == xs[..from + 1]; }
  }

  lemma MovedIsPermutation(xs: seq<Draft>, from: nat, r: seq<Draft>, to: nat)
    requires from < |xs| && to < |xs| && r == RemoveAt(xs, from)[..to] + [xs[from]] + RemoveAt(xs, from)[to..]
    ensures |r| == |xs| && r[to] == xs[from] && RemoveAt(r, to) == RemoveAt(xs, from) && multiset(r) == multiset(xs)
  {
    var rest := RemoveAt(xs, from);
    assert RemoveAt(r, to) == rest[..to] + rest[to..] == rest;
    assert xs == xs[..from] + [xs[from]] + xs[from + 1..];
    assert multiset(xs) == multiset(rest) + multiset{xs[from]};
    assert multiset(r) == multiset(rest[..to] + rest[to..]) + multiset{xs[from]};
  }

  /** A draft reached by moving one row has the older of the two places as its anchor. */
  lemma MoveSetsTheAnchor(original: seq<Draft>, from: nat, to: nat, draft: seq<Draft>, anchor: Option<nat>)
    requires Distinct(Ids(original)) && from < |original| == |draft| && to < |draft| && from != to
    requires draft[to] == original[from] && RemoveAt(draft, to) == RemoveAt(original, from)
    requires IsAnchor(original, draft, map[], anchor)
    ensures anchor == Some(Max(from, to))
  {
    var rest := RemoveAt(original, from);
    assert forall i :: 0 <= i < |rest| ==> rest[i] == original[if i < from then i else i + 1];
    assert forall i :: 0 <= i < |rest| ==> rest[i] == draft[if i < to then i else i + 1];
    forall d: nat | d < |draft| ensures draft[d] == original[MovedFrom(from, to, d)] {
      if d != to { assert rest[if d < to then d else d - 1] == draft[d]; }
    }
    MoveRearranges(original, from, to, draft);
    forall i: nat | i < |original|
      ensures Affected(original, draft, map[], i) <==> Min(from, to) <= i <= Max(from, to)
    {
      UnaffectedStands(original, draft, map[], i);
      assert draft[i] == original[MovedFrom(from, to, i)];
      assert MovedFrom(from, to, i) != i ==> Ids(original)[MovedFrom(from, to, i)] != Ids(original)[i];
      assert SameDraft(original[i], draft[i], map[]) <==> MovedFrom(from, to, i) == i;
    }
    assert Affected(original, draft, map[], Max(from, to));
  }

  /** The original place of the row at place d once row from has moved to place to. */
  function MovedFrom(from: nat, to: nat, d: nat): nat {
    if d == to then from
    else if from < to && from <= d < to then d + 1
    else if to < from && to < d <= from then d - 1
    else d
  }

  lemma MoveRearranges(original: seq<Draft>, from: nat, to: nat, draft: seq<Draft>)
    requires Distinct(Ids(original)) && from < |original| == |draft| && to < |draft|
    requires forall d: nat :: d < |draft| ==> draft[d] == original[MovedFrom(from, to, d)]
    ensures Rearranges(Ids(original), Ids(draft))
  {
    forall x | x in Ids(original) ensures x in Ids(draft) {
      var i :| 0 <= i < |original| && Ids(original)[i] == x;
      var d := MovedFrom(to, from, i);
      assert MovedFrom(from, to, d) == i;
      assert Ids(draft)[d] == x;
    }
  }

  // ------------------------------------------------- projecting onto the target chain

  datatype ProjectionError =
    | DuplicateId
    | NotAPermutation
    | ChangedOutside(ids: seq<Id>)
    | VisibleChainMismatch
    | DraftChainMismatch

  function Select(xs: seq<Draft>, ids: set<Id>): seq<Draft> {
    if xs == [] then [] else (if xs[0].commit in ids then [xs[0]] else []) + Select(xs[1..], ids)
  }

  function Outside(ids: seq<Id>, targets: set<Id>): seq<Id> {
    if ids == [] then []
    else
      var before := Outside(ids[..|ids| - 1], targets);
      var id := ids[|ids| - 1];
      if id in targets || id in before then before else before + [id]
  }

  ghost function Project(
      original: seq<Draft>, draft: seq<Draft>, target: seq<Draft>,
      changed: seq<Id>): Result<seq<Draft>, ProjectionError>
  {
    var targets := SetOf(Ids(target));
    var visible, kept := Select(original, targets), Select(draft, targets);
    if !Distinct(Ids(original)) || !Distinct(Ids(draft)) || !Distinct(Ids(target)) then Err(DuplicateId)
    else if !Rearranges(Ids(original), Ids(draft)) then Err(NotAPermutation)
    else if Outside(changed, targets) != [] then Err(ChangedOutside(Outside(changed, targets)))
    else if visible == [] || |visible| > |target| || Ids(visible) != Ids(target[..|visible|]) then
      Err(VisibleChainMismatch)
    else if !Rearranges(Ids(visible), Ids(kept)) then Err(DraftChainMismatch)
    else Ok(kept + target[|visible|..])
  }

  lemma {:induction false} SelectMembers(xs: seq<Draft>, ids: set<Id>)
    ensures forall x :: x in Ids(Select(xs, ids)) <==> x in Ids(xs) && x in ids
  {
    if xs != [] {
      SelectMembers(xs[1..], ids);
      SelectedIds(xs, ids);
      assert Ids(xs) == [xs[0].commit] + Ids(xs[1..]);
    }
  }

  lemma SelectedIds(xs: seq<Draft>, ids: set<Id>)
    requires xs != []
    ensures Ids(Select(xs, ids)) == (if xs[0].commit in ids then [xs[0].commit] else []) + Ids(Select(xs[1..], ids))
  {
    hide Ids;
    var first := if xs[0].commit in ids then [xs[0]] else [];
    assert Select(xs, ids) == first + Select(xs[1..], ids);
    IdsAppend(first, Select(xs[1..], ids));
    assert Ids(first) == if xs[0].commit in ids then [xs[0].commit] else [];
  }

  lemma IdsAppend(a: seq<Draft>, b: seq<Draft>)
    ensures Ids(a + b) == Ids(a) + Ids(b)
  {
  }

  lemma {:induction false} SelectIsDistinct(xs: seq<Draft>, ids: set<Id>)
    requires Distinct(Ids(xs))
    ensures Distinct(Ids(Select(xs, ids)))
  {
    if xs != [] {
      var first, rest := xs[0].commit, Ids(Select(xs[1..], ids));
      RestIsDistinct(xs);
      SelectIsDistinct(xs[1..], ids);
      SelectMembers(xs[1..], ids);
      SelectedIds(xs, ids);
      assert first !in rest;
    }
  }

  lemma RestIsDistinct(xs: seq<Draft>)
    requires xs != [] && Distinct(Ids(xs))
    ensures Distinct(Ids(xs[1..])) && xs[0].commit !in Ids(xs[1..])
  {
    assert forall i :: 0 <= i < |xs| - 1 ==> Ids(xs[1..])[i] == Ids(xs)[i + 1];
  }

  lemma SelectionsRearrange(original: seq<Draft>, draft: seq<Draft>, ids: set<Id>)
    requires Rearranges(Ids(original), Ids(draft))
    ensures Rearranges(Ids(Select(original, ids)), Ids(Select(draft, ids)))
  {
    var a, b := Ids(Select(original, ids)), Ids(Select(draft, ids));
    SelectMembers(original, ids);
    SelectMembers(draft, ids);
    SelectIsDistinct(original, ids);
    SelectIsDistinct(draft, ids);
    InsideIsPermutation(Ids(original), Ids(draft));
    assert forall x :: x in a <==> x in b;
    DistinctCounts(a);
    DistinctCounts(b);
    assert SetOf(a) == SetOf(b);
  }

  /** Row a stands somewhere before row b. */
  ghost predicate Precedes(xs: seq<Draft>, a: Id, b: Id) {
    exists i, j :: 0 <= i < j < |xs| && xs[i].commit == a && xs[j].commit == b
  }

  lemma {:induction false} SelectKeepsOrder(xs: seq<Draft>, ids: set<Id>, a: Id, b: Id)
    requires Precedes(xs, a, b) && a in ids && b in ids
    ensures Precedes(Select(xs, ids), a, b)
  {
    var rest, r := xs[1..], Select(xs, ids);
    var i, j :| 0 <= i < j < |xs| && xs[i].commit == a && xs[j].commit == b;
    if i > 0 {
      assert rest[i - 1].commit == a && rest[j - 1].commit == b;
      SelectKeepsOrder(rest, ids, a, b);
      var k, m :| 0 <= k < m < |Select(rest, ids)|
                  && Select(rest, ids)[k].commit == a && Select(rest, ids)[m].commit == b;
      var first := |r| - |Select(rest, ids)|;
      assert r[first + k].commit == a && r[first + m].commit == b;
    } else {
      assert rest[j - 1].commit == b && Ids(rest)[j - 1] == b;
      SelectMembers(rest, ids);
      assert b in Ids(Select(rest, ids));
      var m :| 0 <= m < |Select(rest, ids)| && Ids(Select(rest, ids))[m] == b;
      assert r[0].commit == a && r[1 + m].commit == b;
    }
  }

  lemma PrecedesInFront(front: seq<Draft>, tail: seq<Draft>, a: Id, b: Id)
    requires Precedes(front, a, b)
    ensures Precedes(front + tail, a, b)
  {
    var i, j :| 0 <= i < j < |front| && front[i].commit == a && front[j].commit == b;
    assert (front + tail)[i].commit == a && (front + tail)[j].commit == b;
  }

  /**
   * The projection of a draft rearranges the visible part of the target chain as the draft
   * orders it, and keeps the invisible tail as it is; the last of its refusals cannot occur.
   */
  lemma ProjectionRearrangesTheChain(original: seq<Draft>, draft: seq<Draft>, target: seq<Draft>, changed: seq<Id>)
    ensures var r, targets := Project(original, draft, target, changed), SetOf(Ids(target));
      var n := |Select(original, targets)|;
      && (r.Ok? ==>
            && 1 <= n <= |target| == |r.value|
            && r.value[n..] == target[n..]
            && multiset(Ids(r.value[..n])) == multiset(Ids(target[..n]))
            && (forall i :: 0 <= i < n ==> r.value[i] in draft && target[i].commit in Ids(original))
            && (forall i :: n <= i < |target| ==> target[i].commit !in Ids(original))
            && forall a, b :: a in targets && b in targets && Precedes(draft, a, b) ==> Precedes(r.value, a, b))
      && r != Err(DraftChainMismatch)
  {
    var targets := SetOf(Ids(target));
    var visible, kept := Select(original, targets), Select(draft, targets);
    if Rearranges(Ids(original), Ids(draft)) { SelectionsRearrange(original, draft, targets); }
    if Project(original, draft, target, changed).Ok? {
      var n := |visible|;
      var r := kept + target[n..];
      InsideIsPermutation(Ids(visible), Ids(kept));
      SelectedRows(draft, targets);
      assert forall i :: 0 <= i < n ==> r[i] == kept[i] && kept[i] in kept;
      assert Ids(r[..n]) == Ids(kept) && Ids(visible) == Ids(target[..n]) && r[n..] == target[n..];
      VisibleAreFirst(original, target, n);
      forall a, b | a in targets && b in targets && Precedes(draft, a, b) ensures Precedes(r, a, b) {
        SelectKeepsOrder(draft, targets, a, b);
        PrecedesInFront(kept, target[n..], a, b);
      }
    }
  }

  lemma VisibleAreFirst(original: seq<Draft>, target: seq<Draft>, n: nat)
    requires n <= |target| && Distinct(Ids(target))
    requires Ids(Select(original, SetOf(Ids(target)))) == Ids(target[..n])
    ensures forall i :: 0 <= i < |target| ==> (i < n <==> target[i].commit in Ids(original))
  {
    var targets := SetOf(Ids(target));
    SelectMembers(original, targets);
    forall i | 0 <= i < |target| ensures i < n <==> target[i].commit in Ids(original) {
      assert Ids(target)[i] == target[i].commit && target[i].commit in targets;
      if i < n {
        assert Ids(target[..n])[i] == target[i].commit;
      } else {
        forall k | 0 <= k < n ensures Ids(target[..n])[k] != target[i].commit {
          assert Ids(target)[k] == Ids(target[..n])[k] && Ids(target)[k] != Ids(target)[i];
        }
      }
    }
  }

  lemma {:induction false} SelectedRows(xs: seq<Draft>, ids: set<Id>)
    ensures forall x :: x in Select(xs, ids) ==> x in xs
  {
    if xs != [] {
      SelectedRows(xs[1..], ids);
    }
  }

  // --------------------------------------------------- when a draft can be projected

  /** The first n rows of the chain are the rows of the history that it has, in the history's order. */
  ghost predicate Aligned(original: seq<Draft>, target: seq<Draft>, n: nat) {
    && 1 <= n <= |target|
    && (forall i :: 0 <= i < |target| ==> (i < n <==> target[i].commit in Ids(original)))
    && forall i, j :: 0 <= i < j < n ==> Precedes(original, target[i].commit, target[j].commit)
  }

  ghost predicate BeginsAligned(original: seq<Draft>, target: seq<Draft>) {
    exists n: nat :: Aligned(original, target, n)
  }

  lemma {:induction false} SelectReflectsOrder(xs: seq<Draft>, ids: set<Id>, a: Id, b: Id)
    requires Precedes(Select(xs, ids), a, b)
    ensures Precedes(xs, a, b)
  {
    var rest, r := Select(xs[1..], ids), Select(xs, ids);
    var i, j :| 0 <= i < j < |r| && r[i].commit == a && r[j].commit == b;
    var first := |r| - |rest|;
    if i >= first {
      assert rest[i - first].commit == a && rest[j - first].commit == b;
      SelectReflectsOrder(xs[1..], ids, a, b);
      var k, m :| 0 <= k < m < |xs| - 1 && xs[1..][k].commit == a && xs[1..][m].commit == b;
      assert xs[k + 1].commit == a && xs[m + 1].commit == b;
    } else {
      SelectedRows(xs[1..], ids);
      assert r[j] == rest[j - 1] && rest[j - 1] in rest;
      var m :| 0 <= m < |xs| - 1 && xs[1..][m] == rest[j - 1];
      assert xs[0].commit == a && xs[m + 1].commit == b;
    }
  }

  /** x stands before y. */
  ghost predicate ComesBefore(ids: seq<Id>, x: Id, y: Id) {
    exists p, q :: 0 <= p < q < |ids| && ids[p] == x && ids[q] == y
  }

  lemma {:induction false} SameOrderSameList(a: seq<Id>, b: seq<Id>)
    requires Distinct(a) && Distinct(b) && forall x :: x in a <==> x in b
    requires forall i, j :: 0 <= i < j < |a| ==> ComesBefore(b, a[i], a[j])
    ensures a == b
  {
    if a != [] {
      FirstIsFirst(a, b);
      TailsAgree(a, b);
      SameOrderSameList(a[1..], b[1..]);
      assert a == [a[0]] + a[1..] && b == [b[0]] + b[1..];
    } else {
      HeadIsIn(b);
    }
  }

  lemma FirstIsFirst(a: seq<Id>, b: seq<Id>)
    requires a != [] && Distinct(b) && forall x :: x in a <==> x in b
    requires forall i, j :: 0 <= i < j < |a| ==> ComesBefore(b, a[i], a[j])
    ensures b != [] && a[0] == b[0]
  {
    assert a[0] in a && a[0] in b && b[0] in b && b[0] in a;
    var k :| 0 <= k < |a| && a[k] == b[0];
    assert k > 0 ==> ComesBefore(b, a[0], a[k]);
  }

  lemma HeadIsIn(b: seq<Id>)
    ensures b != [] ==> b[0] in b
  {
  }

  lemma TailsAgree(a: seq<Id>, b: seq<Id>)
    requires a != [] && b != [] && a[0] == b[0] && Distinct(a) && Distinct(b) && forall x :: x in a <==> x in b
    requires forall i, j :: 0 <= i < j < |a| ==> ComesBefore(b, a[i], a[j])
    ensures Distinct(a[1..]) && Distinct(b[1..]) && forall x :: x in a[1..] <==> x in b[1..]
    ensures forall i, j :: 0 <= i < j < |a| - 1 ==> ComesBefore(b[1..], a[1..][i], a[1..][j])
  {
    assert a == [a[0]] + a[1..] && b == [b[0]] + b[1..];
    assert a[0] !in a[1..] && b[0] !in b[1..];
    forall x ensures x in a[1..] <==> x in b[1..] {
      assert x in a <==> x == a[0] || x in a[1..];
      assert x in b <==> x == b[0] || x in b[1..];
    }
    forall i, j | 0 <= i < j < |a| - 1 ensures ComesBefore(b[1..], a[1..][i], a[1..][j]) {
      assert ComesBefore(b, a[i + 1], a[j + 1]);
      var p, q :| 0 <= p < q < |b| && b[p] == a[i + 1] && b[q] == a[j + 1];
      assert p > 0 && b[1..][p - 1] == a[1..][i] && b[1..][q - 1] == a[1..][j];
    }
  }

  lemma AlignedIsVisible(original: seq<Draft>, target: seq<Draft>, n: nat)
    requires Distinct(Ids(original)) && Distinct(Ids(target)) && Aligned(original, target, n)
    ensures Ids(Select(original, SetOf(Ids(target)))) == Ids(target[..n])
  {
    var targets := SetOf(Ids(target));
    var visible, front := Ids(Select(original, targets)), Ids(target[..n]);
    SelectMembers(original, targets);
    SelectIsDistinct(original, targets);
    PrefixIsDistinct(target, n);
    forall x ensures x in front <==> x in visible {
      if x in visible {
        var i :| 0 <= i < |target| && Ids(target)[i] == x;
        assert i < n && front[i] == x;
      }
      if x in front {
        var i :| 0 <= i < n && front[i] == x;
        assert Ids(target)[i] == x;
      }
    }
    forall i, j | 0 <= i < j < n ensures ComesBefore(visible, front[i], front[j]) {
      assert Ids(target)[i] in targets && Ids(target)[j] in targets;
      SelectKeepsOrder(original, targets, target[i].commit, target[j].commit);
      var p, q :| 0 <= p < q < |visible| && Select(original, targets)[p].commit == front[i]
                  && Select(original, targets)[q].commit == front[j];
      assert visible[p] == front[i] && visible[q] == front[j];
    }
    SameOrderSameList(front, visible);
  }

  lemma VisibleIsAligned(original: seq<Draft>, target: seq<Draft>)
    requires Distinct(Ids(original)) && Distinct(Ids(target))
    requires var visible := Select(original, SetOf(Ids(target)));
      visible != [] && |visible| <= |target| && Ids(visible) == Ids(target[..|visible|])
    ensures Aligned(original, target, |Select(original, SetOf(Ids(target)))|)
  {
    var targets := SetOf(Ids(target));
    var visible := Select(original, targets);
    VisibleAreFirst(original, target, |visible|);
    forall i, j | 0 <= i < j < |visible| ensures Precedes(original, target[i].commit, target[j].commit) {
      assert Ids(visible)[i] == target[i].commit && Ids(visible)[j] == target[j].commit;
      SelectReflectsOrder(original, targets, target[i].commit, target[j].commit);
    }
  }

  /** The changed ids that are not in the chain, each once. */
  lemma {:induction false} OutsideIs(ids: seq<Id>, targets: set<Id>)
    ensures Distinct(Outside(ids, targets))
    ensures forall x :: x in Outside(ids, targets) <==> x in ids && x !in targets
  {
    if ids != [] {
      var last := |ids| - 1;
      OutsideIs(ids[..last], targets);
      assert ids == ids[..last] + [ids[last]];
    }
  }

  /**
   * A draft is projected exactly when no list repeats an id, it rearranges the history, every change is to a
   * commit of the chain, and the chain begins with those of its commits that the history shows, in the
   * history's order; otherwise it is refused for the first of these that fails.
   */
  lemma ProjectionDecides(original: seq<Draft>, draft: seq<Draft>, target: seq<Draft>, changed: seq<Id>)
    ensures var r := Project(original, draft, target, changed);
      var distinct := Distinct(Ids(original)) && Distinct(Ids(draft)) && Distinct(Ids(target));
      var permutes := multiset(Ids(draft)) == multiset(Ids(original));
      var inside := forall x :: x in changed ==> x in Ids(target);
      var aligned := BeginsAligned(original, target);
      && (r.Ok? <==> distinct && permutes && inside && aligned)
      && (r == Err(DuplicateId) <==> !distinct)
      && (r == Err(NotAPermutation) <==> distinct && !permutes)
      && (r.Err? && r.error.ChangedOutside? <==> distinct && permutes && !inside)
      && (r.Err? && r.error.ChangedOutside? ==>
            Distinct(r.error.ids) && forall x :: x in r.error.ids <==> x in changed && x !in Ids(target))
      && (r == Err(VisibleChainMismatch) <==> distinct && permutes && inside && !aligned)
  {
    hide Aligned;
    var targets := SetOf(Ids(target));
    OutsideIs(changed, targets);
    var outside := Outside(changed, targets);
    assert outside != [] ==> outside[0] in outside;
    ProjectionRearrangesTheChain(original, draft, target, changed);
    if Distinct(Ids(original)) && Distinct(Ids(draft)) && Distinct(Ids(target)) {
      RearrangesIsPermutation(Ids(original), Ids(draft));
      var visible := Select(original, targets);
      if visible != [] && |visible| <= |target| && Ids(visible) == Ids(target[..|visible|]) {
        VisibleIsAligned(original, target);
      } else {
        forall n: nat ensures !Aligned(original, target, n) {
          if Aligned(original, target, n) { NotVisible(original, target, n); }
        }
      }
    }
  }

  lemma NotVisible(original: seq<Draft>, target: seq<Draft>, n: nat)
    requires Distinct(Ids(original)) && Distinct(Ids(target)) && Aligned(original, target, n)
    ensures var visible := Select(original, SetOf(Ids(target)));
      visible != [] && |visible| <= |target| && Ids(visible) == Ids(target[..|visible|])
  {
    AlignedIsVisible(original, target, n);
    assert |Ids(target[..n])| == n;
  }

  method ProjectVisualDraftToTargetChain(original: seq<Draft>, draft: seq<Draft>, target: seq<Draft>, changed: seq<Id>)
    returns (r: Result<seq<Draft>, ProjectionError>)
    ensures r == Project(original, draft, target, changed)
  {
    var originalIndexes := CommitIndexes(original);
    var draftIndexes := CommitIndexes(draft);
    var targetIndexes := CommitIndexes(target);
    if originalIndexes.None? || draftIndexes.None? || targetIndexes.None? { return Err(DuplicateId); }
    KeysDecide(original, draft, originalIndexes.value, draftIndexes.value);
    if |original| != |draft| || !(originalIndexes.value.Keys <= draftIndexes.value.Keys) {
      return Err(NotAPermutation);
    }
    var targets := SetOf(Ids(target));
    var outside := Outside(changed, targets);
    if |outside| > 0 { return Err(ChangedOutside(outside)); }
    var visible := Select(original, targets);
    if |visible| == 0 || |visible| > |target| || Ids(visible) != Ids(target[..|visible|]) {
      return Err(VisibleChainMismatch);
    }
    var kept := Select(draft, targets);
    SelectionsRearrange(original, draft, targets);
    return Ok(kept + target[|visible|..]);
  }

  // ------------------------------------------------------- the backend's own test

  const MAXIMUM_REWRITE_COMMITS := 100

  /** A planned commit: what its name resolves to, and whether its new text and metadata are usable. */
  datatype Planned = Planned(resolved: Option<Id>, hasMessage: bool, metadataValid: bool)

  /** A commit of base..head, oldest first. */
  datatype InRange = InRange(oid: Id, parents: nat)

  datatype RangeError =
    | NoCommits | TooMany | NotAnAncestor | LengthDiffers | HasMerge | IsNoPermutation | EmptyMessage
    | BadMetadata

  function Oids(range: seq<InRange>): (r: seq<Id>)
    ensures |r| == |range| && forall i :: 0 <= i < |range| ==> r[i] == range[i].oid
  {
    seq(|range|, i requires 0 <= i < |range| => range[i].oid)
  }

  ghost predicate Resolves(planned: seq<Planned>, ids: seq<Id>) {
    |planned| == |ids| && forall i :: 0 <= i < |planned| ==> planned[i].resolved == Some(ids[i])
  }

  /** What a range must satisfy to be replayed. */
  ghost predicate Replayable(isAncestor: bool, range: seq<InRange>, planned: seq<Planned>) {
    && 1 <= |planned| <= MAXIMUM_REWRITE_COMMITS && isAncestor
    && (forall i :: 0 <= i < |range| ==> range[i].parents <= 1)
    && (forall i :: 0 <= i < |planned| ==> planned[i].hasMessage && planned[i].metadataValid)
    && exists ids: seq<Id> :: Resolves(planned, ids) && IsPermutation(ids, Oids(range))
  }

  /** What the range as a whole must satisfy. */
  ghost predicate Sized(isAncestor: bool, range: seq<InRange>, planned: seq<Planned>) {
    && 1 <= |planned| == |range| <= MAXIMUM_REWRITE_COMMITS && isAncestor
    && forall i :: 0 <= i < |range| ==> range[i].parents <= 1
  }

  ghost predicate NamedOnce(range: seq<InRange>, planned: seq<Planned>, i: nat)
    requires i < |planned|
  {
    && planned[i].resolved.Some? && planned[i].resolved.value in Oids(range)
    && forall j :: 0 <= j < i ==> planned[j].resolved != planned[i].resolved
  }

  ghost predicate Usable(range: seq<InRange>, planned: seq<Planned>, i: nat)
    requires i < |planned|
  {
    NamedOnce(range, planned, i) && planned[i].hasMessage && planned[i].metadataValid
  }

  ghost predicate FirstUnusable(range: seq<InRange>, planned: seq<Planned>, i: nat) {
    i < |planned| && !Usable(range, planned, i) && forall j :: 0 <= j < i ==> Usable(range, planned, j)
  }

  /** validateRewriteRange: the count and the set of seen commits accept permutations of
      base..head, and nothing else. */
  method ValidateRewriteRange(isAncestor: bool, range: seq<InRange>, planned: seq<Planned>)
    returns (r: Option<RangeError>)
    ensures r.None? <==> Replayable(isAncestor, range, planned)
    ensures r == Some(NoCommits) <==> planned == []
    ensures r == Some(TooMany) <==> |planned| > MAXIMUM_REWRITE_COMMITS
    ensures r == Some(NotAnAncestor) <==> 1 <= |planned| <= MAXIMUM_REWRITE_COMMITS && !isAncestor
    ensures r == Some(LengthDiffers)
            <==> 1 <= |planned| <= MAXIMUM_REWRITE_COMMITS && isAncestor && |range| != |planned|
    ensures r == Some(HasMerge)
            <==> 1 <= |planned| == |range| <= MAXIMUM_REWRITE_COMMITS && isAncestor
                 && exists i :: 0 <= i < |range| && range[i].parents > 1
    ensures r == Some(IsNoPermutation)
            <==> Sized(isAncestor, range, planned)
                 && exists i: nat :: FirstUnusable(range, planned, i) && !NamedOnce(range, planned, i)
    ensures r == Some(EmptyMessage)
            <==> Sized(isAncestor, range, planned)
                 && exists i: nat :: FirstUnusable(range, planned, i) && NamedOnce(range, planned, i)
                                && !planned[i].hasMessage
    ensures r == Some(BadMetadata)
            <==> Sized(isAncestor, range, planned)
                 && exists i: nat :: FirstUnusable(range, planned, i) && NamedOnce(range, planned, i)
                                && planned[i].hasMessage
  {
    hide NamedOnce, Usable, FirstUnusable;
    if |planned| == 0 { return Some(NoCommits); }
    if |planned| > MAXIMUM_REWRITE_COMMITS { return Some(TooMany); }
    if !isAncestor { return Some(NotAnAncestor); }
    if |range| != |planned| {
      LengthsDecide(planned, range);
      return Some(LengthDiffers);
    }
    var originalSet: set<Id> := {};
    for i := 0 to |range|
      invariant originalSet == SetOf(Oids(range)[..i])
      invariant forall j :: 0 <= j < i ==> range[j].parents <= 1
    {
      if range[i].parents > 1 { return Some(HasMerge); }
      originalSet := originalSet + {range[i].oid};
      assert Oids(range)[..i + 1] == Oids(range)[..i] + [range[i].oid];
    }
    assert Oids(range)[..|range|] == Oids(range);
    var seen: seq<Id> := [];
    for i := 0 to |planned|
      invariant Resolves(planned[..i], seen) && Distinct(seen)
      invariant forall x :: x in seen ==> x in Oids(range)
      invariant forall j :: 0 <= j < i ==> Usable(range, planned, j)
      invariant forall j :: 0 <= j < i ==> planned[j].hasMessage && planned[j].metadataValid
    {
      var resolved := planned[i].resolved;
      NamedMeans(range, planned, seen, i);
      if resolved.None? || resolved.value !in originalSet || resolved.value in seen {
        RefusedIsNoPermutation(planned, range, seen, i);
        return Some(IsNoPermutation);
      }
      if !planned[i].hasMessage { return Some(EmptyMessage); }
      if !planned[i].metadataValid { return Some(BadMetadata); }
      seen := seen + [resolved.value];
    }
    assert planned[..|planned|] == planned;
    NoneUnusable(range, planned);
    InsideIsPermutation(seen, Oids(range));
    return None;
  }

  lemma NamedMeans(range: seq<InRange>, planned: seq<Planned>, seen: seq<Id>, i: nat)
    requires i < |planned| && Resolves(planned[..i], seen)
    ensures var id := planned[i].resolved;
      NamedOnce(range, planned, i) <==> id.Some? && id.value in Oids(range) && id.value !in seen
    ensures Usable(range, planned, i)
            <==> NamedOnce(range, planned, i) && planned[i].hasMessage && planned[i].metadataValid
    ensures (forall j :: 0 <= j < i ==> Usable(range, planned, j)) && !Usable(range, planned, i) ==>
              forall k: nat :: FirstUnusable(range, planned, k) <==> k == i
  {
    assert forall j :: 0 <= j < i ==> planned[..i][j] == planned[j] && planned[j].resolved == Some(seen[j]);
  }

  lemma NoneUnusable(range: seq<InRange>, planned: seq<Planned>)
    requires forall j :: 0 <= j < |planned| ==> Usable(range, planned, j)
    ensures forall k: nat :: !FirstUnusable(range, planned, k)
  {
  }

  lemma LengthsDecide(planned: seq<Planned>, range: seq<InRange>)
    requires |range| != |planned|
    ensures forall ids: seq<Id> :: Resolves(planned, ids) ==> multiset(ids) != multiset(Oids(range))
  {
    forall ids: seq<Id> | Resolves(planned, ids) ensures multiset(ids) != multiset(Oids(range)) {
      assert |multiset(ids)| == |ids| && |multiset(Oids(range))| == |range|;
    }
  }

  lemma RefusedIsNoPermutation(planned: seq<Planned>, range: seq<InRange>, seen: seq<Id>, i: nat)
    requires i < |planned| && Resolves(planned[..i], seen)
    requires planned[i].resolved.None? || planned[i].resolved.value !in Oids(range) || planned[i].resolved.value in seen
    ensures forall ids: seq<Id> :: Resolves(planned, ids) && Distinct(ids) ==> multiset(ids) != multiset(Oids(range))
  {
    forall ids: seq<Id> | Resolves(planned, ids) && Distinct(ids) ensures multiset(ids) != multiset(Oids(range)) {
      assert ids[i] in multiset(ids);
      assert forall j :: 0 <= j < i ==> seen[j] == ids[j];
      assert ids[i] !in Oids(range);
    }
  }

  /** What the edit page derives, the backend's permutation test accepts. */
  lemma DerivedPassesTheBackend(
      original: seq<Draft>, draft: seq<Draft>, range: seq<InRange>, fingerprints: Fingerprints, planned: seq<Planned>)
    requires Derive(original, draft, Oids(range), fingerprints).Ok?
    requires Resolves(planned, Ids(Derive(original, draft, Oids(range), fingerprints).value))
    requires |planned| <= MAXIMUM_REWRITE_COMMITS
    requires forall i :: 0 <= i < |range| ==> range[i].parents <= 1
    requires forall i :: 0 <= i < |planned| ==> planned[i].hasMessage && planned[i].metadataValid
    ensures Replayable(true, range, planned)
  {
    AcceptedIsPermutation(original, draft, Oids(range), fingerprints);
    var ids := Ids(Derive(original, draft, Oids(range), fingerprints).value);
    PermutationIsReplayable(range, planned, ids);
  }

  lemma PermutationIsReplayable(range: seq<InRange>, planned: seq<Planned>, ids: seq<Id>)
    requires Resolves(planned, ids) && IsPermutation(ids, Oids(range))
    requires 1 <= |planned| <= MAXIMUM_REWRITE_COMMITS
    requires forall i :: 0 <= i < |range| ==> range[i].parents <= 1
    requires forall i :: 0 <= i < |planned| ==> planned[i].hasMessage && planned[i].metadataValid
    ensures Replayable(true, range, planned)
  {
  }
}
