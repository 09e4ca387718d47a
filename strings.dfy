/** Character classes and substring search over `string` (= `seq<char>`). */
module Strings {
  import opened Wrappers

  /** ALPHA of RFC 5234. */
  predicate IsAlpha(c: char) {
    'A' <= c <= 'Z' || 'a' <= c <= 'z'
  }

  /** DIGIT of RFC 5234. */
  predicate IsDigit(c: char) {
    '0' <= c <= '9'
  }

  /** `d` occurs in `s` starting at index `j`. */
  predicate OccursAt(s: string, d: string, j: nat) {
    j + |d| <= |s| && s[j..j + |d|] == d
  }

  /** An occurrence past the first character is an occurrence in the tail, one index earlier. */
  lemma OccursAtTail(s: string, d: string)
    requires |s| > 0
    ensures forall j: nat :: 0 < j ==> (OccursAt(s, d, j) <==> OccursAt(s[1..], d, j - 1))
  {
    forall j: nat | 0 < j ensures OccursAt(s, d, j) <==> OccursAt(s[1..], d, j - 1) {
      if j + |d| <= |s| {
        assert s[1..][j - 1..j - 1 + |d|] == s[j..j + |d|];
      }
    }
  }

  /** The index of the first occurrence of `d` in `s`, if there is one. */
  function Find(s: string, d: string): (r: Option<nat>)
    ensures r.Some? ==> OccursAt(s, d, r.value)
    ensures r.Some? ==> forall j: nat :: j < r.value ==> !OccursAt(s, d, j)
    ensures r.None? ==> forall j: nat :: !OccursAt(s, d, j)
    decreases |s|
  {
    if |s| < |d| then None
    else if s[..|d|] == d then Some(0)
    else
      assert !OccursAt(s, d, 0) by { assert s[0..|d|] == s[..|d|]; }
      OccursAtTail(s, d);
      match Find(s[1..], d)
      case None => None
      case Some(k) => Some(k + 1)
  }

  /** Whether `d` occurs anywhere in `s`: the `contains` test of a text search. */
  function Contains(s: string, d: string): (b: bool)
    ensures b <==> exists j: nat :: OccursAt(s, d, j)
  {
    Find(s, d).Some?
  }

  /** An occurrence with none before it is the one `Find` returns. */
  lemma FindIsFirstOccurrence(s: string, d: string, k: nat)
    requires OccursAt(s, d, k)
    requires forall j: nat :: j < k ==> !OccursAt(s, d, j)
    ensures Find(s, d) == Some(k)
  {
  }

  /** Text without an underscore has no `"__"` in it. */
  lemma NoUnderscoreNoDouble(s: string)
    requires '_' !in s
    ensures !Contains(s, "__")
  {
    forall j: nat ensures !OccursAt(s, "__", j) {
      if j + 2 <= |s| {
        assert s[j..j + 2][0] == s[j];
      }
    }
  }

  /** Two underscore-free pieces joined by one underscore have no `"__"` in them. */
  lemma UnderscoreJoinNoDouble(a: string, b: string)
    requires '_' !in a && '_' !in b
    ensures !Contains(a + "_" + b, "__")
  {
    var s := a + "_" + b;
    forall j: nat ensures !OccursAt(s, "__", j) {
      if j + 2 <= |s| {
        assert s[j..j + 2][0] == s[j] && s[j..j + 2][1] == s[j + 1];
        if j < |a| {
          assert s[j] == a[j];
        } else if j == |a| {
          assert s[j + 1] == b[0];
        } else {
          assert s[j] == b[j - |a| - 1];
        }
      }
    }
  }

  /** Splits `s` at every non-overlapping occurrence of `d`, left to right. */
  function SplitOn(s: string, d: string): (parts: seq<string>)
    requires |d| > 0
    decreases |s|
  {
    match Find(s, d)
    case None => [s]
    case Some(i) => [s[..i]] + SplitOn(s[i + |d|..], d)
  }

  /**
   * A segment without `"__"` that does not end in `_`, followed by the delimiter `"__"`,
   * is exactly the first segment the split produces, whatever follows.
   */
  lemma {:induction false} SplitAfterSegment(f: string, rest: string)
    requires !Contains(f, "__")
    requires |f| > 0 ==> f[|f| - 1] != '_'
    ensures SplitOn(f + "__" + rest, "__") == [f] + SplitOn(rest, "__")
  {
    var s := f + "__" + rest;
    assert s[|f|..|f| + 2] == "__";
    assert OccursAt(s, "__", |f|);
    forall j: nat | j < |f| ensures !OccursAt(s, "__", j) {
      if j + 2 <= |f| {
        assert s[j..j + 2] == f[j..j + 2];
        assert !OccursAt(f, "__", j);
      } else {
        assert s[j..j + 2][0] == s[j] == f[|f| - 1];
      }
    }
    FindIsFirstOccurrence(s, "__", |f|);
    assert s[..|f|] == f;
    assert s[|f| + 2..] == rest;
  }
}
