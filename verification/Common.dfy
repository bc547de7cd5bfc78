/** Small types and functions shared by the modules of this project. */
module Common {
  datatype Option<+T> = None | Some(value: T)

  datatype Result<+T, +E> = Ok(value: T) | Err(error: E)

  function Min(a: nat, b: nat): nat {
    if a <= b then a else b
  }

  function Max(a: nat, b: nat): nat {
    if a <= b then b else a
  }

  /** White space to JavaScript and to Go alike. */
  predicate IsCommonSpace(c: char) {
    || c in " \t\n\U{b}\U{c}\r\U{a0}\U{1680}\U{2028}\U{2029}\U{202f}\U{205f}\U{3000}"
    || '\U{2000}' <= c <= '\U{200a}'
  }

  /** White space to JavaScript: what trim removes and a regular expression's \s matches. */
  predicate IsSpace(c: char) {
    IsCommonSpace(c) || c == '\U{feff}'
  }

  /** White space to Go: unicode.IsSpace. */
  predicate IsGoSpace(c: char) {
    IsCommonSpace(c) || c == '\U{85}'
  }

  function DropLeading(s: string, drop: char -> bool): (r: string)
    ensures |r| <= |s| && (r != "" ==> !drop(r[0]))
  {
    if s != "" && drop(s[0]) then DropLeading(s[1..], drop) else s
  }

  function DropTrailing(s: string, drop: char -> bool): (r: string)
    ensures |r| <= |s| && (r != "" ==> !drop(r[|r| - 1]))
  {
    if s != "" && drop(s[|s| - 1]) then DropTrailing(s[..|s| - 1], drop) else s
  }

  function SkipSpace(s: string): (r: string)
    ensures |r| <= |s| && (r != "" ==> !IsSpace(r[0]))
  {
    DropLeading(s, IsSpace)
  }

  function SkipGoSpace(s: string): (r: string)
    ensures |r| <= |s| && (r != "" ==> !IsGoSpace(r[0]))
  {
    DropLeading(s, IsGoSpace)
  }

  ghost predicate Distinct<T>(xs: seq<T>) {
    forall i, j :: 0 <= i < j < |xs| ==> xs[i] != xs[j]
  }

  function TrimEnd(s: string): (r: string)
    ensures |r| <= |s| && (r != "" ==> !IsSpace(r[|r| - 1]))
  {
    DropTrailing(s, IsSpace)
  }

  function Lower(c: char): char {
    if 'A' <= c <= 'Z' then c - 'A' + 'a' else c
  }

  /** What is dropped at the front is dropped for a reason, and stops in time. */
  lemma {:induction false} DroppedLeading(s: string, drop: char -> bool) returns (n: nat)
    ensures n <= |s| && DropLeading(s, drop) == s[n..]
    ensures (forall i :: 0 <= i < n ==> drop(s[i])) && (n < |s| ==> !drop(s[n]))
  {
    if s != "" && drop(s[0]) {
      var m := DroppedLeading(s[1..], drop);
      n := m + 1;
    } else {
      n := 0;
      assert s[0..] == s;
    }
  }

  /** The same at the end. */
  lemma {:induction false} DroppedTrailing(s: string, drop: char -> bool) returns (n: nat)
    ensures n <= |s| && DropTrailing(s, drop) == s[..n]
    ensures (forall i :: n <= i < |s| ==> drop(s[i])) && (n > 0 ==> !drop(s[n - 1]))
  {
    if s != "" && drop(s[|s| - 1]) {
      n := DroppedTrailing(s[..|s| - 1], drop);
    } else {
      n := |s|;
      assert s[..n] == s;
    }
  }

  /** The same at both ends. */
  lemma DroppedAround(s: string, drop: char -> bool) returns (a: nat, b: nat)
    ensures a <= b <= |s| && DropTrailing(DropLeading(s, drop), drop) == s[a..b]
    ensures forall i :: 0 <= i < a || b <= i < |s| ==> drop(s[i])
    ensures a < b ==> !drop(s[a]) && !drop(s[b - 1])
  {
    a := DroppedLeading(s, drop);
    var n := DroppedTrailing(s[a..], drop);
    b := a + n;
    assert s[a..][..n] == s[a..b];
    assert forall i :: b <= i < |s| ==> s[i] == s[a..][i - a];
  }
}
