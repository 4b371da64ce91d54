/**
 * The trivia leaderboard: for every user a six-slot entry
 * [prize points, total score, correct answers,
 *  prize-points rank, total-score rank, correct-answers rank],
 * the accrual of a finished game's scores, and the re-ranking pass that
 * assigns dense ranks per statistic and rebuilds the ladder.
 */
module Leaderboard {
  import opened TriviaTypes

  type Board = map<UserId, seq<int>>

  /** Every entry has its six slots. */
  predicate WellFormed(lb: Board) {
    forall u :: u in lb ==> |lb[u]| == 6
  }

  /**
   * The entry of `u` after adding a game record `sd`: a participant with a
   * zero score leaves the entry alone, a known user adds score and correct
   * answers, a new user gets a fresh entry.
   */
  function TallyEntry(lb: Board, u: UserId, sd: ScoreData): (e: seq<int>)
    requires WellFormed(lb)
    requires u in lb || sd.score != 0
    ensures |e| == 6
  {
    if sd.score == 0 then lb[u]
    else if u in lb then lb[u][1 := lb[u][1] + sd.score][2 := lb[u][2] + sd.correctAnswers]
    else [0, sd.score, sd.correctAnswers, 0, 0, 0]
  }

  /**
   * The leaderboard after adding the records of the participants listed in
   * `order`, one after the other.
   */
  function TalliedOver(lb: Board, parts: map<UserId, ScoreData>, order: seq<UserId>): (r: Board)
    requires WellFormed(lb)
    requires forall k :: 0 <= k < |order| ==> order[k] in parts
    ensures WellFormed(r)
  {
    if order == [] then lb
    else
      var r := TalliedOver(lb, parts, order[..|order| - 1]);
      var u := order[|order| - 1];
      if parts[u].score != 0 then r[u := TallyEntry(r, u, parts[u])] else r
  }

  /**
   * What the accrual means when every participant is listed once: the users
   * with a non-zero score are added to the leaderboard, each entry receiving
   * exactly that participant's record, and every other entry is unchanged.
   */
  lemma {:induction false} TalliedOverEntry(lb: Board, parts: map<UserId, ScoreData>, order: seq<UserId>, w: UserId)
    requires WellFormed(lb) && Distinct(order)
    requires forall k :: 0 <= k < |order| ==> order[k] in parts
    ensures var r := TalliedOver(lb, parts, order);
      (w in r <==> w in lb || (w in order && parts[w].score != 0)) &&
      (w in r ==> r[w] == if w in order && parts[w].score != 0 then TallyEntry(lb, w, parts[w]) else lb[w])
  {
    if order != [] {
      var init, u := order[..|order| - 1], order[|order| - 1];
      assert Distinct(init);
      TalliedOverEntry(lb, parts, init, w);
      assert w in order <==> w in init || w == u;
      if w == u {
        assert u !in init;
        var r, sd := TalliedOver(lb, parts, init), parts[u];
        if sd.score != 0 {
          assert TallyEntry(r, u, sd) == TallyEntry(lb, u, sd);
        }
      }
    }
  }

  /**
   * The accrual of a whole game: the leaderboard gains exactly the users of
   * the game with a non-zero score; their total score and correct answers
   * grow by the game's record, a new user starts from a fresh entry, and no
   * prize point or other entry changes.
   */
  lemma TalliedGame(lb: Board, parts: map<UserId, ScoreData>, order: seq<UserId>, u: UserId)
    requires WellFormed(lb) && Ordered(parts, order)
    ensures var r := TalliedOver(lb, parts, order);
      (u in r <==> u in lb || (u in parts && parts[u].score != 0)) &&
      (u in parts && parts[u].score != 0 ==>
         r[u][0] == (if u in lb then lb[u][0] else 0) &&
         r[u][1] == (if u in lb then lb[u][1] else 0) + parts[u].score &&
         r[u][2] == (if u in lb then lb[u][2] else 0) + parts[u].correctAnswers) &&
      (u in lb && !(u in parts && parts[u].score != 0) ==> r[u] == lb[u])
  {
    TalliedOverEntry(lb, parts, order, u);
  }

  /**
   * The accrual loop: walks the participants in iteration order and adds
   * every non-zero game record to the leaderboard.
   */
  method Accrue(lb: Board, parts: map<UserId, ScoreData>, order: seq<UserId>) returns (r: Board)
    requires WellFormed(lb)
    requires Ordered(parts, order)
    ensures r == TalliedOver(lb, parts, order)
  {
    r := lb;
    var k := 0;
    while k < |order|
      invariant 0 <= k <= |order|
      invariant r == TalliedOver(lb, parts, order[..k])
    {
      assert order[..k + 1][..k] == order[..k];
      var u := order[k];
      var sd := parts[u];
      if sd.score != 0 {
        if u in r {
          r := r[u := r[u][1 := r[u][1] + sd.score][2 := r[u][2] + sd.correctAnswers]];
        } else {
          r := r[u := [0, sd.score, sd.correctAnswers, 0, 0, 0]];
        }
      }
      k := k + 1;
    }
    assert order[..k] == order;
  }

  /** The values of statistic `i` over the whole leaderboard. */
  function Values(lb: Board, i: int): set<int>
    requires WellFormed(lb) && 0 <= i < 3
  {
    set u | u in lb :: lb[u][i]
  }

  /** A subset is no larger, a proper subset smaller. */
  lemma SubsetCard(a: set<int>, b: set<int>)
    requires a <= b
    ensures |a| <= |b|
    ensures a < b ==> |a| < |b|
  {
    var d := b - a;
    assert b == a + d;
    assert a * d == {};
    if a < b {
      assert d != {};
    }
  }

  /**
   * The dense rank of value `v` for statistic `i`: the number of distinct
   * values at least `v`, so the best value has rank 1 and ties share a rank.
   */
  function DenseRank(lb: Board, i: int, v: int): nat
    requires WellFormed(lb) && 0 <= i < 3
  {
    |UpperSet(Values(lb, i), v)|
  }

  /** The values at least `v`. */
  function UpperSet(vals: set<int>, v: int): set<int> {
    set x | x in vals && x >= v
  }

  /** The largest value is alone in its upper set. */
  lemma UpperTop(vals: set<int>, v: int)
    requires v in vals && forall x :: x in vals ==> x <= v
    ensures |UpperSet(vals, v)| == 1
  {
    assert UpperSet(vals, v) == {v};
  }

  /** Stepping down to the next lower value adds exactly one value to the upper set. */
  lemma UpperStep(vals: set<int>, v: int, w: int)
    requires v in vals && v < w
    requires forall x :: x in vals ==> x <= v || x >= w
    ensures |UpperSet(vals, v)| == |UpperSet(vals, w)| + 1
  {
    assert UpperSet(vals, v) == UpperSet(vals, w) + {v};
  }

  /** The best value ranks first. */
  lemma DenseRankTop(lb: Board, i: int, u: UserId)
    requires WellFormed(lb) && 0 <= i < 3 && u in lb
    requires forall w :: w in lb ==> lb[w][i] <= lb[u][i]
    ensures DenseRank(lb, i, lb[u][i]) == 1
  {
    forall x | x in Values(lb, i) ensures x <= lb[u][i] {
      var w :| w in lb && lb[w][i] == x;
    }
    UpperTop(Values(lb, i), lb[u][i]);
  }

  /** A strictly better value has a strictly smaller rank; ranks lie between 1 and the number of values. */
  lemma DenseRankOrder(lb: Board, i: int, v: int, w: int)
    requires WellFormed(lb) && 0 <= i < 3
    requires v in Values(lb, i) && w in Values(lb, i) && v < w
    ensures 1 <= DenseRank(lb, i, w) < DenseRank(lb, i, v) <= |Values(lb, i)|
  {
    var sv, sw := UpperSet(Values(lb, i), v), UpperSet(Values(lb, i), w);
    SubsetCard({w}, sw);
    assert sw < sv by {
      assert v in sv && v !in sw;
    }
    SubsetCard(sw, sv);
    SubsetCard(sv, Values(lb, i));
  }

  /** Statistic `i` is non-decreasing along `s`. */
  predicate SortedBy(lb: Board, s: seq<UserId>, i: int)
    requires WellFormed(lb) && 0 <= i < 3
    requires forall k :: 0 <= k < |s| ==> s[k] in lb
  {
    forall a, b :: 0 <= a < b < |s| ==> lb[s[a]][i] <= lb[s[b]][i]
  }

  /** Every user listed in `s` is one of `keys`. */
  predicate Within(keys: set<UserId>, s: seq<UserId>) {
    forall k :: 0 <= k < |s| ==> s[k] in keys
  }

  /** Every one of `keys` is listed in `s`. */
  predicate Covers(keys: set<UserId>, s: seq<UserId>) {
    forall u :: u in keys ==> u in s
  }

  /** Insertion of one user into a sequence sorted by statistic `i`, before the first entry not below it. */
  function InsertBy(lb: Board, x: UserId, s: seq<UserId>, i: int): (r: seq<UserId>)
    requires WellFormed(lb) && 0 <= i < 3
    requires x in lb && Within(lb.Keys, s)
    ensures multiset(r) == multiset(s) + multiset{x}
    ensures |r| == |s| + 1 && (r[0] == x || (s != [] && r[0] == s[0]))
  {
    if s == [] then [x]
    else if lb[x][i] <= lb[s[0]][i] then [x] + s
    else
      assert s == [s[0]] + s[1..];
      [s[0]] + InsertBy(lb, x, s[1..], i)
  }

  /** Every element of a permutation of a listing of leaderboard users is a leaderboard user. */
  lemma PermutationWithin(keys: set<UserId>, s: seq<UserId>, r: seq<UserId>)
    requires Within(keys, s) && multiset(r) == multiset(s)
    ensures Within(keys, r)
    ensures Covers(keys, s) ==> Covers(keys, r)
  {
    forall k | 0 <= k < |r| ensures r[k] in keys {
      assert r[k] in multiset(s);
    }
    if Covers(keys, s) {
      forall u | u in keys ensures u in r {
        assert u in multiset(s);
      }
    }
  }

  /** Inserting into a sorted sequence keeps it sorted. */
  lemma {:induction false} InsertBySorted(lb: Board, x: UserId, s: seq<UserId>, i: int)
    requires WellFormed(lb) && 0 <= i < 3
    requires x in lb && Within(lb.Keys, s) && SortedBy(lb, s, i)
    ensures Within(lb.Keys, InsertBy(lb, x, s, i)) && SortedBy(lb, InsertBy(lb, x, s, i), i)
  {
    var r := InsertBy(lb, x, s, i);
    PermutationWithin(lb.Keys, s + [x], r);
    if s != [] && lb[x][i] > lb[s[0]][i] {
      var rest := InsertBy(lb, x, s[1..], i);
      InsertBySorted(lb, x, s[1..], i);
      assert r == [s[0]] + rest;
      forall a, b | 0 <= a < b < |r| ensures lb[r[a]][i] <= lb[r[b]][i] {
        if a == 0 {
          assert lb[r[0]][i] <= lb[rest[0]][i];
          assert lb[rest[0]][i] <= lb[rest[b - 1]][i] || b == 1;
        } else {
          assert r[a] == rest[a - 1] && r[b] == rest[b - 1];
        }
      }
    }
  }

  /**
   * The ordering of `leaders.sort((a, b) => lb[a][i] - lb[b][i])`: a
   * permutation of the users sorted by statistic `i`, ascending.
   */
  function SortByField(lb: Board, s: seq<UserId>, i: int): (r: seq<UserId>)
    requires WellFormed(lb) && 0 <= i < 3 && Within(lb.Keys, s)
    ensures multiset(r) == multiset(s)
  {
    if s == [] then []
    else
      assert s == [s[0]] + s[1..];
      var rest := SortByField(lb, s[1..], i);
      PermutationWithin(lb.Keys, s[1..], rest);
      InsertBy(lb, s[0], rest, i)
  }

  /** The sort orders the users by statistic `i`. */
  lemma {:induction false} SortByFieldSorted(lb: Board, s: seq<UserId>, i: int)
    requires WellFormed(lb) && 0 <= i < 3 && Within(lb.Keys, s)
    ensures Within(lb.Keys, SortByField(lb, s, i)) && SortedBy(lb, SortByField(lb, s, i), i)
  {
    if s != [] {
      var rest := SortByField(lb, s[1..], i);
      SortByFieldSorted(lb, s[1..], i);
      InsertBySorted(lb, s[0], rest, i);
    }
  }

  /** The user ids of the leaderboard, once each, in an unspecified order. */
  method KeysOf(lb: Board) returns (keys: seq<UserId>)
    ensures Within(lb.Keys, keys) && Covers(lb.Keys, keys)
    ensures Distinct(keys)
  {
    keys := [];
    var rest := lb.Keys;
    while rest != {}
      invariant forall u :: u in lb <==> u in keys || u in rest
      invariant forall u :: u in keys ==> u !in rest
      invariant Distinct(keys)
      decreases |rest|
    {
      var u :| u in rest;
      keys := keys + [u];
      rest := rest - {u};
    }
  }

  /** Around any point of a sorted listing, every value is at most the one before it or at least the one after it. */
  lemma SortedGap(lb: Board, s: seq<UserId>, i: int, j: int)
    requires WellFormed(lb) && 0 <= i < 3 && Within(lb.Keys, s) && SortedBy(lb, s, i)
    requires Covers(lb.Keys, s)
    requires 0 <= j < |s|
    ensures forall x :: x in Values(lb, i) ==> x <= lb[s[j]][i] || (j + 1 < |s| && x >= lb[s[j + 1]][i])
    ensures forall x :: x in Values(lb, i) ==> x >= lb[s[0]][i]
  {
    forall x | x in Values(lb, i)
      ensures x <= lb[s[j]][i] || (j + 1 < |s| && x >= lb[s[j + 1]][i])
      ensures x >= lb[s[0]][i]
    {
      var u :| u in lb && lb[u][i] == x;
      var k :| 0 <= k < |s| && s[k] == u;
      if k > j {
        assert j + 1 <= k;
      }
    }
  }

  /**
   * One step of the ranking pass: the rank counter, bumped when the value
   * differs from the previous one, is the dense rank of the new value.
   */
  lemma RankStep(lb: Board, s: seq<UserId>, i: int, j: int, rank: int, max: Option<int>)
    requires WellFormed(lb) && 0 <= i < 3 && Within(lb.Keys, s) && SortedBy(lb, s, i)
    requires Covers(lb.Keys, s)
    requires 0 <= j < |s|
    requires j + 1 == |s| ==> max == None && rank == 0
    requires j + 1 < |s| ==> max == Some(lb[s[j + 1]][i]) && rank == DenseRank(lb, i, lb[s[j + 1]][i])
    ensures var v := lb[s[j]][i];
      (if max != Some(v) then rank + 1 else rank) == DenseRank(lb, i, v)
  {
    SortedGap(lb, s, i, j);
    var vals, v := Values(lb, i), lb[s[j]][i];
    assert v in vals;
    if j + 1 == |s| {
      UpperTop(vals, v);
    } else if max != Some(v) {
      UpperStep(vals, v, lb[s[j + 1]][i]);
    }
  }

  /** The lowest value's rank is the number of values. */
  lemma DenseRankBottom(lb: Board, s: seq<UserId>, i: int)
    requires WellFormed(lb) && 0 <= i < 3 && Within(lb.Keys, s) && SortedBy(lb, s, i)
    requires Covers(lb.Keys, s)
    ensures s != [] ==> DenseRank(lb, i, lb[s[0]][i]) == |Values(lb, i)|
    ensures s == [] ==> |Values(lb, i)| == 0
  {
    if s != [] {
      SortedGap(lb, s, i, 0);
      assert UpperSet(Values(lb, i), lb[s[0]][i]) == Values(lb, i);
    } else {
      assert Values(lb, i) == {};
    }
  }

  /**
   * The ladder: one group per distinct prize-points value, best first, at
   * most 15 groups, each holding the single user the ranking pass met first
   * with that value.
   */
  predicate IsLadder(lb: Board, ladder: seq<seq<UserId>>)
    requires WellFormed(lb)
  {
    |ladder| == Min(15, |Values(lb, 0)|) && Groups(lb, ladder)
  }

  /** Group q of the ladder holds one user whose prize points rank q + 1. */
  predicate Groups(lb: Board, ladder: seq<seq<UserId>>)
    requires WellFormed(lb)
  {
    forall q :: 0 <= q < |ladder| ==>
      |ladder[q]| == 1 && ladder[q][0] in lb && DenseRank(lb, 0, lb[ladder[q][0]][0]) == q + 1
  }

  lemma GroupsPush(lb: Board, ladder: seq<seq<UserId>>, u: UserId)
    requires WellFormed(lb) && Groups(lb, ladder)
    requires u in lb && DenseRank(lb, 0, lb[u][0]) == |ladder| + 1
    ensures Groups(lb, ladder + [[u]])
  {
  }

  function Min(a: int, b: int): int {
    if a <= b then a else b
  }

  /** The entry of `u` with the rank of statistic `i` filled in. */
  function WithRank(lb: Board, i: int, u: UserId): (e: seq<int>)
    requires WellFormed(lb) && 0 <= i < 3 && u in lb
    ensures |e| == 6
  {
    lb[u][i + 3 := DenseRank(lb, i, lb[u][i])]
  }

  /** Ranks stored for the users in `done`; every other entry as in `lb`. */
  predicate RankedUsers(lb: Board, ranked: Board, i: int, done: set<UserId>)
    requires WellFormed(lb) && 0 <= i < 3
  {
    ranked.Keys == lb.Keys &&
    forall u :: u in lb ==> ranked[u] == if u in done then WithRank(lb, i, u) else lb[u]
  }

  /** Writing one more user's rank slot keeps the stored ranks in step. */
  lemma WriteRank(lb: Board, ranked: Board, i: int, done: set<UserId>, u: UserId, rank: int)
    requires WellFormed(lb) && 0 <= i < 3 && u in lb
    requires RankedUsers(lb, ranked, i, done) && rank == DenseRank(lb, i, lb[u][i])
    ensures RankedUsers(lb, ranked[u := ranked[u][i + 3 := rank]], i, done + {u})
    ensures WellFormed(ranked[u := ranked[u][i + 3 := rank]])
  {
    assert ranked[u][i + 3 := rank] == WithRank(lb, i, u);
  }

  /**
   * One ranking pass over `leaders` sorted by statistic `i`: walks from the
   * best value down, counts distinct values, stores the count as the rank of
   * statistic `i`, and for the prize points (i == 0) opens a ladder group
   * with the first user of each of the first 15 distinct values.
   */
  method RankBy(lb: Board, leaders: seq<UserId>, i: int) returns (ranked: Board, ladder: seq<seq<UserId>>)
    requires WellFormed(lb) && 0 <= i < 3
    requires Within(lb.Keys, leaders) && SortedBy(lb, leaders, i)
    requires Covers(lb.Keys, leaders)
    ensures WellFormed(ranked) && ranked.Keys == lb.Keys
    ensures forall u :: u in lb ==> ranked[u] == lb[u][i + 3 := DenseRank(lb, i, lb[u][i])]
    ensures i == 0 ==> IsLadder(lb, ladder)
    ensures i != 0 ==> ladder == []
  {
    ranked, ladder := lb, [];
    var max: Option<int> := None;
    var rank := 0;
    var j := |leaders|;
    ghost var done: set<UserId> := {};
    while j > 0
      invariant 0 <= j <= |leaders|
      invariant WellFormed(ranked) && RankedUsers(lb, ranked, i, done)
      invariant forall k :: j <= k < |leaders| ==> leaders[k] in done
      invariant j == |leaders| ==> max == None && rank == 0
      invariant j < |leaders| ==> max == Some(lb[leaders[j]][i]) && rank == DenseRank(lb, i, lb[leaders[j]][i])
      invariant i != 0 ==> ladder == []
      invariant i == 0 && rank <= 15 ==> |ladder| == rank
      invariant i == 0 && rank > 15 ==> |ladder| == 15
      invariant Groups(lb, ladder)
    {
      j := j - 1;
      var leader := leaders[j];
      var score := lb[leader][i];
      RankStep(lb, leaders, i, j, rank, max);
      if max != Some(score) {
        if i == 0 && rank < 15 {
          GroupsPush(lb, ladder, leader);
          ladder := ladder + [[leader]];
        }
        rank := rank + 1;
        max := Some(score);
      }
      WriteRank(lb, ranked, i, done, leader, rank);
      ranked := ranked[leader := ranked[leader][i + 3 := rank]];
      done := done + {leader};
    }
    forall u | u in lb ensures u in done {
      var k :| 0 <= k < |leaders| && leaders[k] == u;
    }
    DenseRankBottom(lb, leaders, i);
  }

  /** Statistic `f` of every entry has been re-ranked against `lb`. */
  predicate RankedSlot(lb: Board, ranked: Board, f: int)
    requires WellFormed(lb) && WellFormed(ranked) && 0 <= f < 3
  {
    forall u :: u in lb && u in ranked ==> ranked[u][f + 3] == DenseRank(lb, f, lb[u][f])
  }

  /** Two boards with the same users and statistics. */
  predicate SameStatistics(lb: Board, other: Board)
    requires WellFormed(lb) && WellFormed(other)
  {
    lb.Keys == other.Keys && forall u :: u in lb ==> other[u][..3] == lb[u][..3]
  }

  /** Boards with the same statistics have the same values, hence the same ranks and ladders. */
  lemma SameValues(lb: Board, other: Board)
    requires WellFormed(lb) && WellFormed(other) && SameStatistics(lb, other)
    ensures forall f :: 0 <= f < 3 ==> Values(other, f) == Values(lb, f)
    ensures forall u, f :: u in lb && 0 <= f < 3 ==> other[u][f] == lb[u][f]
  {
    forall u, f | u in lb && 0 <= f < 3 ensures other[u][f] == lb[u][f] {
      assert other[u][..3][f] == lb[u][..3][f];
    }
  }

  lemma LadderCarries(lb: Board, other: Board, ladder: seq<seq<UserId>>)
    requires WellFormed(lb) && WellFormed(other) && SameStatistics(lb, other)
    requires IsLadder(other, ladder)
    ensures IsLadder(lb, ladder)
  {
    SameValues(lb, other);
  }

  /** One ranking pass adds the rank slot of statistic `i` and keeps those already filled. */
  lemma RankedSlotStep(lb: Board, previous: Board, ranked: Board, i: int)
    requires WellFormed(lb) && WellFormed(previous) && WellFormed(ranked) && 0 <= i < 3
    requires SameStatistics(lb, previous) && ranked.Keys == lb.Keys
    requires forall u :: u in previous ==> ranked[u] == previous[u][i + 3 := DenseRank(previous, i, previous[u][i])]
    requires forall f :: i < f < 3 ==> RankedSlot(lb, previous, f)
    ensures SameStatistics(lb, ranked)
    ensures forall f :: i <= f < 3 ==> RankedSlot(lb, ranked, f)
  {
    SameValues(lb, previous);
    forall u | u in lb ensures ranked[u][..3] == lb[u][..3] {
      assert ranked[u][..3] == previous[u][..3];
    }
    forall f | i <= f < 3 ensures RankedSlot(lb, ranked, f) {
      if f != i {
        assert RankedSlot(lb, previous, f);
      }
    }
  }

  /**
   * The re-ranking of the whole leaderboard: statistics 2, 1 and 0 in turn
   * are sorted and ranked; the statistics themselves are untouched, every
   * rank slot holds the dense rank of its statistic, and the ladder is
   * rebuilt from the prize points.
   */
  method Rerank(lb: Board) returns (ranked: Board, ladder: seq<seq<UserId>>)
    requires WellFormed(lb)
    ensures WellFormed(ranked) && SameStatistics(lb, ranked)
    ensures forall f :: 0 <= f < 3 ==> RankedSlot(lb, ranked, f)
    ensures IsLadder(lb, ladder)
  {
    var leaders := KeysOf(lb);
    ranked, ladder := lb, [];
    var i := 3;
    while i > 0
      invariant 0 <= i <= 3
      invariant WellFormed(ranked) && SameStatistics(lb, ranked)
      invariant forall f :: i <= f < 3 ==> RankedSlot(lb, ranked, f)
      invariant Within(lb.Keys, leaders) && Covers(lb.Keys, leaders)
      invariant i > 0 ==> ladder == []
      invariant i == 0 ==> IsLadder(lb, ladder)
    {
      i := i - 1;
      var sorted := SortByField(ranked, leaders, i);
      SortByFieldSorted(ranked, leaders, i);
      PermutationWithin(lb.Keys, leaders, sorted);
      leaders := sorted;
      var previous := ranked;
      var group;
      ranked, group := RankBy(previous, leaders, i);
      if i == 0 {
        LadderCarries(lb, previous, group);
      }
      ladder := ladder + group;
      RankedSlotStep(lb, previous, ranked, i);
    }
    SameValues(lb, ranked);
  }

  /** The winner's prize added to their prize points (slot 0). */
  function AwardPrize(lb: Board, winner: Option<UserId>, prize: int): (r: Board)
    requires WellFormed(lb)
    ensures WellFormed(r) && r.Keys == lb.Keys
  {
    if winner.Some? && winner.value in lb then lb[winner.value := lb[winner.value][0 := lb[winner.value][0] + prize]]
    else lb
  }

  /**
   * The leaderboard `after` and the ladder recorded at the end of a game:
   * the game's records accrued, the prize awarded, and every statistic
   * re-ranked.
   */
  ghost predicate Concluded(lb: Board, parts: map<UserId, ScoreData>, order: seq<UserId>, winner: Option<UserId>,
                            prize: int, after: Board, ladder: seq<seq<UserId>>)
    requires WellFormed(lb) && Ordered(parts, order)
  {
    var t := AwardPrize(TalliedOver(lb, parts, order), winner, prize);
    WellFormed(after) && SameStatistics(t, after) &&
    (forall f :: 0 <= f < 3 ==> RankedSlot(t, after, f)) && IsLadder(t, ladder)
  }

  /**
   * The leaderboard update at the end of a game: accrual, prize, re-ranking.
   * The winner, when there is one, scored in the game.
   */
  method Conclude(lb: Board, parts: map<UserId, ScoreData>, order: seq<UserId>, winner: Option<UserId>, prize: int)
    returns (after: Board, ladder: seq<seq<UserId>>)
    requires WellFormed(lb) && Ordered(parts, order)
    requires winner.Some? ==> winner.value in parts && parts[winner.value].score != 0
    ensures Concluded(lb, parts, order, winner, prize, after, ladder)
  {
    var tallied := Accrue(lb, parts, order);
    if winner.Some? {
      var w := winner.value;
      TalliedGame(lb, parts, order, w);
      tallied := tallied[w := tallied[w][0 := tallied[w][0] + prize]];
    }
    after, ladder := Rerank(tallied);
  }

  /**
   * What a concluded game leaves for each user: exactly the previous users
   * and the game's scorers are on the board; a scorer's total score and
   * correct answers grow by the game's record; the prize points grow by the
   * prize for the winner only; every other user's statistics are unchanged;
   * and every rank slot is the dense rank of its statistic.
   */
  lemma ConcludedEntry(lb: Board, parts: map<UserId, ScoreData>, order: seq<UserId>, winner: Option<UserId>,
                       prize: int, after: Board, ladder: seq<seq<UserId>>, u: UserId)
    requires WellFormed(lb) && Ordered(parts, order)
    requires winner.Some? ==> winner.value in parts && parts[winner.value].score != 0
    requires Concluded(lb, parts, order, winner, prize, after, ladder)
    ensures u in after <==> u in lb || (u in parts && parts[u].score != 0)
    ensures u in after ==>
      var scored := u in parts && parts[u].score != 0;
      after[u][0] == (if u in lb then lb[u][0] else 0) + (if winner == Some(u) then prize else 0) &&
      after[u][1] == (if u in lb then lb[u][1] else 0) + (if scored then parts[u].score else 0) &&
      after[u][2] == (if u in lb then lb[u][2] else 0) + (if scored then parts[u].correctAnswers else 0) &&
      after[u][3] == DenseRank(after, 0, after[u][0]) &&
      after[u][4] == DenseRank(after, 1, after[u][1]) &&
      after[u][5] == DenseRank(after, 2, after[u][2])
  {
    var tallied := TalliedOver(lb, parts, order);
    var t := AwardPrize(tallied, winner, prize);
    TalliedGame(lb, parts, order, u);
    if winner.Some? {
      TalliedGame(lb, parts, order, winner.value);
    }
    SameValues(t, after);
    if u in after {
      assert RankedSlot(t, after, 0) && RankedSlot(t, after, 1) && RankedSlot(t, after, 2);
    }
  }
}
