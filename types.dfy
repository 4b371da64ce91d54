/** Values shared by the trivia game engine and the question workshop. */
module TriviaTypes {

  datatype Option<+T> = None | Some(value: T)

  /** A user id: the normalised form of a user name (see ToId). */
  type UserId = string

  /** A question of the database: its category id, its text and its accepted answer ids. */
  datatype Question = Question(category: string, text: string, answers: seq<string>)

  /**
   * An entry of the question database. The workshop's removal loop can
   * append the `undefined` that a splice past the end returns; None
   * stands for such an entry.
   */
  type Entry = Option<Question>

  /** The defined entries of a list, in order. */
  function Present<T>(taken: seq<Option<T>>): (r: seq<T>)
    ensures |r| <= |taken|
  {
    if taken == [] then []
    else (if taken[0].Some? then [taken[0].value] else []) + Present(taken[1..])
  }

  /** Every element as a defined entry. */
  function Wrap<T>(s: seq<T>): (r: seq<Option<T>>)
    ensures |r| == |s| && forall k :: 0 <= k < |s| ==> r[k] == Some(s[k])
  {
    seq(|s|, k requires 0 <= k < |s| => Some(s[k]))
  }

  /** Wrapping loses nothing: its defined entries are the list itself. */
  lemma {:induction false} PresentWrap<T>(s: seq<T>)
    ensures Present(Wrap(s)) == s
  {
    if s != [] {
      assert Wrap(s)[1..] == Wrap(s[1..]);
      PresentWrap(s[1..]);
      assert s == [s[0]] + s[1..];
    }
  }

  /**
   * The per-participant record of a game. In First mode the source has no
   * responderIndex/points fields; the model keeps them at -1 and 0 there.
   * responderIndex is -1 when the participant is not credited this round.
   */
  datatype ScoreData = ScoreData(score: int, correctAnswers: int, answered: bool,
                                 responderIndex: int, points: int)

  /** The record a participant starts with when they sign up. */
  const NewScore: ScoreData := ScoreData(0, 0, false, -1, 0)

  predicate IsIdChar(c: char) {
    'a' <= c <= 'z' || '0' <= c <= '9'
  }

  predicate IsId(s: string) {
    forall k :: 0 <= k < |s| ==> IsIdChar(s[k])
  }

  /** ASCII lower-casing of one character. */
  function Lower(c: char): (l: char)
    ensures 'A' <= c <= 'Z' ==> 'a' <= l <= 'z' && l as int == c as int + 32
    ensures !('A' <= c <= 'Z') ==> l == c
  {
    if 'A' <= c <= 'Z' then (c as int + 32) as char else c
  }

  /**
   * The id normaliser: lower-case, then drop every character that is not
   * a-z or 0-9.
   */
  function ToId(s: string): (id: string)
    ensures |id| <= |s|
    ensures IsId(id)
  {
    if s == [] then []
    else
      var c := Lower(s[0]);
      (if IsIdChar(c) then [c] else []) + ToId(s[1..])
  }

  /** An id is left as it is by the normaliser. */
  lemma {:induction false} ToIdFixesIds(s: string)
    requires IsId(s)
    ensures ToId(s) == s
  {
    if s != [] {
      assert IsIdChar(s[0]);
      assert IsId(s[1..]) by {
        forall k | 0 <= k < |s[1..]| ensures IsIdChar(s[1..][k]) {
          assert s[1..][k] == s[k + 1];
        }
      }
      ToIdFixesIds(s[1..]);
    }
  }

  /** Normalising twice is the same as normalising once. */
  lemma ToIdIdempotent(s: string)
    ensures ToId(ToId(s)) == ToId(s)
  {
    ToIdFixesIds(ToId(s));
  }

  /** Every element of a sequence occurs once. */
  predicate Distinct<T(==)>(s: seq<T>) {
    forall j, k :: 0 <= j < k < |s| ==> s[j] != s[k]
  }

  /** The participant map has exactly the users listed in its iteration order. */
  ghost predicate Lists(parts: map<UserId, ScoreData>, order: seq<UserId>) {
    forall u :: u in parts <==> u in order
  }

  /** The participant map has exactly the users listed in its iteration order, once each. */
  ghost predicate Ordered(parts: map<UserId, ScoreData>, order: seq<UserId>) {
    Distinct(order) && Lists(parts, order)
  }
}
