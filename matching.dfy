/**
 * Deciding whether a submitted answer is correct: an exact match of ids, or,
 * for accepted answers longer than five characters, an edit distance below 3.
 */
module Matching {
  import opened TriviaTypes

  function Min3(x: nat, y: nat, z: nat): (m: nat)
    ensures m <= x && m <= y && m <= z
    ensures m == x || m == y || m == z
  {
    if x <= y && x <= z then x else if y <= z then y else z
  }

  /** The standard (Levenshtein) edit distance: insertions, deletions and substitutions. */
  function EditDistance(a: string, b: string): nat
    decreases |a| + |b|
  {
    if |a| == 0 then |b|
    else if |b| == 0 then |a|
    else Min3(EditDistance(a[1..], b) + 1,
              EditDistance(a, b[1..]) + 1,
              EditDistance(a[1..], b[1..]) + (if a[0] == b[0] then 0 else 1))
  }

  /** The distance is at least the difference of the lengths. */
  lemma {:induction false} EditDistanceLengthBound(a: string, b: string)
    ensures EditDistance(a, b) >= |a| - |b|
    ensures EditDistance(a, b) >= |b| - |a|
    decreases |a| + |b|
  {
    if |a| != 0 && |b| != 0 {
      EditDistanceLengthBound(a[1..], b);
      EditDistanceLengthBound(a, b[1..]);
      EditDistanceLengthBound(a[1..], b[1..]);
    }
  }

  /** Distance zero exactly for equal strings. */
  lemma {:induction false} EditDistanceZero(a: string, b: string)
    ensures EditDistance(a, b) == 0 <==> a == b
    decreases |a| + |b|
  {
    if |a| != 0 && |b| != 0 {
      EditDistanceLengthBound(a[1..], b);
      EditDistanceLengthBound(a, b[1..]);
      EditDistanceZero(a[1..], b[1..]);
      if a == b {
        assert a[1..] == b[1..];
      }
      if EditDistance(a, b) == 0 {
        assert a[0] == b[0] && a[1..] == b[1..];
        assert a == [a[0]] + a[1..] && b == [b[0]] + b[1..];
      }
    }
  }

  /** A common prefix never increases the distance. */
  lemma {:induction false} EditDistanceCommonPrefix(p: string, a: string, b: string)
    ensures EditDistance(p + a, p + b) <= EditDistance(a, b)
  {
    if p != [] {
      EditDistanceCommonPrefix(p[1..], a, b);
      var pa, pb := p + a, p + b;
      assert pa[1..] == p[1..] + a && pb[1..] == p[1..] + b;
      assert pa[0] == pb[0];
      assert EditDistance(pa, pb) <= EditDistance(pa[1..], pb[1..]);
    } else {
      assert p + a == a && p + b == b;
    }
  }

  /** One substituted character costs at most one edit. */
  lemma OneSubstitution(p: string, x: char, y: char, t: string)
    ensures EditDistance(p + [y] + t, p + [x] + t) <= 1
  {
    EditDistanceZero(t, t);
    var yt, xt := [y] + t, [x] + t;
    assert yt[1..] == t && xt[1..] == t;
    EditDistanceCommonPrefix(p, yt, xt);
    assert p + [y] + t == p + yt && p + [x] + t == p + xt;
  }

  /** The test applied to one accepted answer id. */
  predicate Matches(answer: string, accepted: string) {
    answer == accepted || (|accepted| > 5 && EditDistance(answer, accepted) < 3)
  }

  /** Accepted answers of at most five characters must be matched exactly. */
  lemma ShortAnswersNeedExactMatch(answer: string, accepted: string)
    requires |accepted| <= 5
    ensures Matches(answer, accepted) <==> answer == accepted
  {
  }

  /** A fuzzy match is within two characters of the accepted answer's length. */
  lemma FuzzyMatchLength(answer: string, accepted: string)
    requires Matches(answer, accepted)
    ensures answer == accepted || (|accepted| > 5 && |accepted| - 2 <= |answer| <= |accepted| + 2)
  {
    EditDistanceLengthBound(answer, accepted);
  }

  /** A single mistyped character in a long answer is still accepted. */
  lemma TypoAccepted(p: string, x: char, y: char, t: string)
    requires |p| + 1 + |t| > 5
    ensures Matches(p + [y] + t, p + [x] + t)
  {
    OneSubstitution(p, x, y, t);
  }

  /** Whether the answer matches one of the accepted ids. */
  ghost predicate AnyMatch(answer: string, accepted: seq<string>) {
    exists k :: 0 <= k < |accepted| && Matches(answer, accepted[k])
  }

  /**
   * The answer-checking loop: scans the accepted ids from the last to the
   * first and stops at the first match.
   */
  method IsCorrect(answer: string, accepted: seq<string>) returns (correct: bool)
    ensures correct <==> AnyMatch(answer, accepted)
  {
    correct := false;
    var i := |accepted|;
    while i > 0
      invariant 0 <= i <= |accepted|
      invariant forall k :: i <= k < |accepted| ==> !Matches(answer, accepted[k])
    {
      i := i - 1;
      if Matches(answer, accepted[i]) {
        correct := true;
        break;
      }
    }
  }
}
