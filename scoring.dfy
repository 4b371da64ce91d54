/**
 * The scoring engine: point formulas of the Timer and Number modes, the
 * winner's prize, the re-judging of an answer in Timer and Number modes, and
 * the settling of a round (clearing the per-round flags, crediting Number
 * points and choosing a winner).
 */
module Scoring {
  import opened TriviaTypes

  /** Milliseconds a question stays open. */
  const QuestionPeriod: int := 15000
  /** Milliseconds between two questions. */
  const IntermissionPeriod: int := 30000

  const TwoTo31: int := 0x8000_0000
  const TwoTo32: int := 0x1_0000_0000

  function Abs(x: int): nat {
    if x < 0 then -x else x
  }

  lemma MulMonotone(a: int, b: int, d: int)
    requires d >= 0 && a <= b
    ensures a * d <= b * d
  {
  }

  lemma DivNat(x: nat, e: nat)
    requires e > 0
    ensures x / e >= 0
  {
  }

  lemma DivBounds(x: nat, e: nat)
    requires e > 0
    ensures (x / e) * e <= x < (x / e + 1) * e
  {
    var m := x / e;
    assert x == m * e + x % e;
    assert (m + 1) * e == m * e + e;
  }

  lemma DivMonotone(x: nat, y: nat, e: nat)
    requires e > 0 && x <= y
    ensures x / e <= y / e
  {
    DivBounds(x, e);
    DivBounds(y, e);
    if x / e > y / e {
      MulMonotone(y / e + 1, x / e, e);
      assert false;
    }
  }

  /** Division rounded toward zero (what `~~(a / b)` does before its 32-bit wrap). */
  function TruncDiv(a: int, b: int): (q: int)
    requires b != 0
    ensures Abs(q) == Abs(a) / Abs(b)
    ensures q != 0 ==> (q > 0 <==> (a > 0 <==> b > 0))
  {
    var x, e := Abs(a), Abs(b);
    DivNat(x, e);
    var m := x / e;
    if (a < 0) == (b < 0) then m else -m
  }

  /** The truncated quotient's magnitude is the largest that fits. */
  lemma TruncDivBounds(a: int, b: int)
    requires b != 0
    ensures var q := TruncDiv(a, b); Abs(q) * Abs(b) <= Abs(a) < (Abs(q) + 1) * Abs(b)
  {
    DivBounds(Abs(a), Abs(b));
  }

  /** The wrap of `~~` to a signed 32-bit integer. */
  function ToInt32(x: int): (r: int)
    ensures -TwoTo31 <= r < TwoTo31
    ensures (x - r) % TwoTo32 == 0
    ensures -TwoTo31 <= x < TwoTo31 ==> r == x
  {
    (x + TwoTo31) % TwoTo32 - TwoTo31
  }

  /** The test `[1, 2, 3, 4, 5].indexOf(points) > -1`. */
  predicate Creditable(points: int) {
    points in [1, 2, 3, 4, 5]
  }

  lemma CreditableRange(points: int)
    ensures Creditable(points) <==> 1 <= points <= 5
  {
  }

  /** Timer-mode points for an answer given `elapsed` milliseconds after the question. */
  function TimerPoints(elapsed: int): int {
    5 - ToInt32(TruncDiv(elapsed, QuestionPeriod / 5))
  }

  /**
   * Timer points are credited exactly for answers given less than 15 seconds
   * after the question (and not more than 3 seconds before it), as long as
   * the quotient fits the 32-bit wrap.
   */
  lemma TimerPointsCredited(elapsed: int)
    requires -3000 * TwoTo31 < elapsed < 3000 * TwoTo31
    ensures Creditable(TimerPoints(elapsed)) <==> -3000 < elapsed < 15000
  {
    var q := TruncDiv(elapsed, 3000);
    TruncDivBounds(elapsed, 3000);
    assert Abs(q) * 3000 <= Abs(elapsed);
    assert Abs(q) < TwoTo31;
    assert TimerPoints(elapsed) == 5 - q;
    if elapsed >= 0 {
      assert q >= 0;
      if elapsed < 15000 {
        assert q * 3000 < 15000;
      } else {
        assert (q + 1) * 3000 > 15000;
      }
    } else {
      assert q <= 0;
      if elapsed > -3000 {
        assert Abs(q) * 3000 < 3000;
      } else {
        assert (Abs(q) + 1) * 3000 > 3000;
      }
    }
  }

  /** Within the question period the value drops by one every three seconds. */
  lemma TimerPointsSchedule(elapsed: int)
    requires 0 <= elapsed < QuestionPeriod
    ensures TimerPoints(elapsed) == 5 - elapsed / 3000
    ensures Creditable(TimerPoints(elapsed))
  {
    TimerPointsCredited(elapsed);
  }

  /** Worked values: 1 s gives 5 points, 13 s gives 1, 15 s gives nothing. */
  lemma TimerPointsExamples()
    ensures TimerPoints(1000) == 5 && TimerPoints(13000) == 1 && TimerPoints(14999) == 1
    ensures !Creditable(TimerPoints(15000))
  {
  }

  /** The divisor `participants.size - 1 || 1`. */
  function Spread(size: int): (d: int)
    ensures d != 0
    ensures size >= 2 ==> d == size - 1
  {
    if size - 1 != 0 then size - 1 else 1
  }

  /**
   * Number-mode points shared by the `c` correct responders of a game with
   * `size` participants: `~~(5 - 4 * (c - 1) / spread)`, computed on exact
   * rationals as (5 * spread - 4 * (c - 1)) / spread.
   */
  function NumberPoints(c: int, size: int): int {
    var d := Spread(size);
    ToInt32(TruncDiv(5 * d - 4 * (c - 1), d))
  }

  /** With between one and all participants correct, each gets 1 to 5 points. */
  lemma NumberPointsRange(c: int, size: int)
    requires 1 <= c <= size
    ensures 1 <= NumberPoints(c, size) <= 5
    ensures Creditable(NumberPoints(c, size))
    ensures var d := Spread(size); NumberPoints(c, size) == (5 * d - 4 * (c - 1)) / d
  {
    var d := Spread(size);
    var num := 5 * d - 4 * (c - 1);
    assert d >= 1 && 0 <= c - 1 <= d;
    assert d <= num <= 5 * d;
    var q := TruncDiv(num, d);
    TruncDivBounds(num, d);
    assert q >= 0;
    assert q * d <= num < (q + 1) * d;
    if q < 1 {
      MulMonotone(q + 1, 1, d);
      assert false;
    }
    if q > 5 {
      MulMonotone(6, q, d);
      assert false;
    }
  }

  /** A lone correct responder gets the full 5 points. */
  lemma NumberPointsSingle(size: int)
    ensures NumberPoints(1, size) == 5
  {
    var d := Spread(size);
    var q := TruncDiv(5 * d, d);
    TruncDivBounds(5 * d, d);
    var m, e := Abs(q), Abs(d);
    assert Abs(5 * d) == 5 * e;
    assert m * e <= 5 * e < (m + 1) * e;
    if m < 5 {
      MulMonotone(m + 1, 5, e);
      assert false;
    }
    if m > 5 {
      MulMonotone(6, m, e);
      assert false;
    }
    assert q > 0;
  }

  /** When every participant of a game of two or more is correct, each gets 1 point. */
  lemma NumberPointsEveryone(size: int)
    requires size >= 2
    ensures NumberPoints(size, size) == 1
  {
    NumberPointsRange(size, size);
    var d := size - 1;
    assert 5 * d - 4 * (size - 1) == d;
    var q := TruncDiv(d, d);
    TruncDivBounds(d, d);
    assert q * d <= d;
    if q > 1 {
      MulMonotone(2, q, d);
      assert false;
    }
  }

  /** More correct responders never means more points each. */
  lemma NumberPointsMonotone(c1: int, c2: int, size: int)
    requires 1 <= c1 <= c2 <= size
    ensures NumberPoints(c2, size) <= NumberPoints(c1, size)
  {
    NumberPointsRange(c1, size);
    NumberPointsRange(c2, size);
    var d := Spread(size);
    DivMonotone(5 * d - 4 * (c2 - 1), 5 * d - 4 * (c1 - 1), d);
  }

  /** Five participants, three correct: each gets 3 points. */
  lemma NumberPointsExample()
    ensures NumberPoints(3, 5) == 3
  {
  }

  /**
   * Kicking credited participants mid-round leaves the responder count above
   * the participant count, and the shared value can then be negative.
   */
  lemma NumberPointsAfterKicks()
    ensures NumberPoints(5, 3) == -3
  {
  }

  /** The score caps the game accepts (short, medium, long). */
  predicate ValidCap(cap: int) {
    cap == 20 || cap == 35 || cap == 50
  }

  /** The leaderboard points of a game's winner: `(scoreCap - 5) / 15 + 2`. */
  function Prize(cap: int): (p: int)
    requires ValidCap(cap)
    ensures 15 * (p - 2) == cap - 5
    ensures p == (if cap == 20 then 3 else if cap == 35 then 4 else 5)
  {
    (cap - 5) / 15 + 2
  }

  /**
   * The record and the responder count after an answer judged `correct` in
   * Timer (`timed`) or Number mode; `points` is the Timer value of the answer.
   */
  function Rejudge(sd: ScoreData, responders: int, correct: bool, timed: bool, points: int): (ScoreData, int) {
    if correct then
      if sd.responderIndex > -1 then (sd, responders)
      else
        var credited := sd.(responderIndex := responders, correctAnswers := sd.correctAnswers + 1);
        (if timed && Creditable(points) then credited.(score := sd.score + points, points := points) else credited,
         responders + 1)
    else
      if sd.responderIndex < 0 then (sd, responders)
      else
        var withdrawn := sd.(responderIndex := -1, correctAnswers := sd.correctAnswers - 1);
        (if timed then withdrawn.(score := sd.score - sd.points, points := 0) else withdrawn,
         responders - 1)
  }

  /** The mode-dependent shape of a record between two answers (see Rejudge). */
  predicate RecordOk(sd: ScoreData, timed: bool) {
    sd.responderIndex >= -1 &&
    (timed ==> 0 <= sd.points <= 5 && (sd.responderIndex < 0 ==> sd.points == 0)) &&
    (!timed ==> sd.points == 0)
  }

  function Credit(sd: ScoreData): int {
    if sd.responderIndex >= 0 then 1 else 0
  }

  /**
   * Re-judging moves the responder count by exactly the change in the
   * participant's credited status, and keeps the record's shape.
   */
  lemma RejudgeCountsResponders(sd: ScoreData, responders: int, correct: bool, timed: bool, points: int)
    requires RecordOk(sd, timed) && responders >= Credit(sd)
    ensures var (sd', responders') := Rejudge(sd, responders, correct, timed, points);
      responders' - responders == Credit(sd') - Credit(sd) && RecordOk(sd', timed) &&
      (correct <==> sd'.responderIndex >= 0)
  {
  }

  /** A resubmission with the same verdict changes nothing. */
  lemma RejudgeSameVerdict(sd: ScoreData, responders: int, correct: bool, timed: bool, p1: int, p2: int)
    requires responders >= 0
    ensures var (sd', responders') := Rejudge(sd, responders, correct, timed, p1);
      Rejudge(sd', responders', correct, timed, p2) == (sd', responders')
  {
  }

  /**
   * Going from correct to incorrect restores the score and the correct
   * answer count, and leaves no points credited.
   */
  lemma RejudgeFlipFlop(sd: ScoreData, responders: int, timed: bool, p1: int, p2: int)
    requires RecordOk(sd, timed) && sd.responderIndex < 0 && responders >= 0
    ensures var (sd1, r1) := Rejudge(sd, responders, true, timed, p1);
      var (sd2, r2) := Rejudge(sd1, r1, false, timed, p2);
      sd2 == sd && r2 == responders
  {
  }

  /** A correct answer at the very end of the period is credited with no points. */
  lemma LateAnswerCreditedWithoutPoints()
    ensures var (sd, _) := Rejudge(NewScore, 0, true, true, TimerPoints(QuestionPeriod));
      sd.responderIndex == 0 && sd.points == 0 && sd.score == 0
  {
    TimerPointsCredited(QuestionPeriod);
  }

  /** The running state of the winner search: `winner`, `winnerIndex` and `score`. */
  datatype Scan = Scan(winner: Option<UserId>, index: int, score: int)

  /** The search starts from no winner, the responder count and the cap minus one. */
  function StartScan(responders: int, scoreCap: int): Scan {
    Scan(None, responders, scoreCap - 1)
  }

  /**
   * The winner search over the participants in iteration order: a credited
   * participant replaces the current candidate when both their score (plus
   * `bonus`, the Number points credited just before the test) is higher and
   * their responder index lower.
   */
  function WinnerScan(order: seq<UserId>, parts: map<UserId, ScoreData>, bonus: int, start: Scan): Scan
    requires forall u :: u in order ==> u in parts
  {
    if order == [] then start
    else
      var s := WinnerScan(order[..|order| - 1], parts, bonus, start);
      var sd := parts[order[|order| - 1]];
      if sd.responderIndex < 0 then s
      else if sd.score + bonus > s.score && sd.responderIndex < s.index
      then Scan(Some(order[|order| - 1]), sd.responderIndex, sd.score + bonus)
      else s
  }

  /** Every participant the search could pick: credited, over the running bounds. */
  predicate Eligible(sd: ScoreData, bonus: int, start: Scan) {
    sd.responderIndex >= 0 && sd.responderIndex < start.index && sd.score + bonus > start.score
  }

  /**
   * The search reports a winner exactly when some participant is eligible,
   * and the one it reports is eligible and carries the reported score.
   */
  lemma {:induction false} WinnerScanFound(order: seq<UserId>, parts: map<UserId, ScoreData>, bonus: int, start: Scan)
    requires forall u :: u in order ==> u in parts
    requires start.winner == None
    ensures var s := WinnerScan(order, parts, bonus, start);
      (s.winner.Some? <==> exists u :: u in order && Eligible(parts[u], bonus, start)) &&
      (s.winner == None ==> s == start) &&
      (s.winner.Some? ==>
         (s.winner.value in order && Eligible(parts[s.winner.value], bonus, start) &&
          s.score == parts[s.winner.value].score + bonus && s.index == parts[s.winner.value].responderIndex &&
          s.index < start.index && s.score > start.score))
  {
    if order != [] {
      var init := order[..|order| - 1];
      assert forall u :: u in init ==> u in order;
      WinnerScanFound(init, parts, bonus, start);
      var last := order[|order| - 1];
      assert forall u :: u in order ==> u in init || u == last;
    }
  }

  /**
   * With the search started as the rounds start it, a reported winner was
   * credited this round and has reached the score cap.
   */
  lemma WinnerReachedCap(order: seq<UserId>, parts: map<UserId, ScoreData>, bonus: int, responders: int, scoreCap: int)
    requires forall u :: u in order ==> u in parts
    ensures var s := WinnerScan(order, parts, bonus, StartScan(responders, scoreCap));
      s.winner.Some? ==>
        (s.winner.value in order && parts[s.winner.value].responderIndex >= 0 &&
         parts[s.winner.value].score + bonus >= scoreCap)
  {
    WinnerScanFound(order, parts, bonus, StartScan(responders, scoreCap));
  }

  /**
   * The winner depends on the iteration order: with the same records, the
   * order [a, b] picks a and the order [b, a] picks b.
   */
  lemma WinnerDependsOnOrder()
    ensures var parts := map["a" := ScoreData(25, 5, false, 0, 0), "b" := ScoreData(30, 6, false, 1, 0)];
      WinnerScan(["a", "b"], parts, 0, StartScan(2, 20)).winner == Some("a") &&
      WinnerScan(["b", "a"], parts, 0, StartScan(2, 20)).winner == Some("b")
  {
  }

  /**
   * After a flip-flop two participants can share a responder index equal to
   * the count; one of them past the cap is then not reported.
   */
  lemma WinnerMissedAfterFlipFlop()
    ensures var parts := map["b" := ScoreData(30, 6, false, 1, 0)];
      WinnerScan(["b"], parts, 0, StartScan(1, 20)).winner == None
  {
  }

  /** A record after the round: the answer flag is cleared. */
  function Cleared(sd: ScoreData): ScoreData {
    sd.(answered := false)
  }

  /** A record after a Timer round: cleared and, when credited, withdrawn with its points reset. */
  function TimerSettled(sd: ScoreData): ScoreData {
    if sd.responderIndex < 0 then sd.(answered := false)
    else sd.(answered := false, points := 0, responderIndex := -1)
  }

  /** A record after a Number round: cleared and, when credited, given the shared points and withdrawn. */
  function NumberSettled(sd: ScoreData, points: int): ScoreData {
    if sd.responderIndex < 0 then sd.(answered := false)
    else sd.(answered := false, score := sd.score + points, responderIndex := -1)
  }

  /** Every record of a round cleared. */
  function ClearAll(parts: map<UserId, ScoreData>): (r: map<UserId, ScoreData>)
    ensures r.Keys == parts.Keys
  {
    map u | u in parts :: Cleared(parts[u])
  }

  /** Every record after a Timer round. */
  function TimerSettleAll(parts: map<UserId, ScoreData>): (r: map<UserId, ScoreData>)
    ensures r.Keys == parts.Keys
  {
    map u | u in parts :: TimerSettled(parts[u])
  }

  /** Every record after a Number round worth `points`. */
  function NumberSettleAll(parts: map<UserId, ScoreData>, points: int): (r: map<UserId, ScoreData>)
    ensures r.Keys == parts.Keys
  {
    map u | u in parts :: NumberSettled(parts[u], points)
  }

  /** Whether any participant answered this round. */
  ghost predicate AnyAnswered(parts: map<UserId, ScoreData>) {
    exists u :: u in parts && parts[u].answered
  }

  /**
   * After a Timer or Number round nobody is credited or marked as having
   * answered, and no Timer points are pending; the Timer round keeps every
   * score, the Number round adds the shared points to exactly the credited.
   */
  lemma SettledRecords(sd: ScoreData, points: int)
    requires RecordOk(sd, true)
    ensures var t := TimerSettled(sd);
      !t.answered && t.responderIndex == -1 && t.points == 0 && t.score == sd.score &&
      t.correctAnswers == sd.correctAnswers && RecordOk(t, true)
    ensures var n := NumberSettled(sd, points);
      !n.answered && n.responderIndex == -1 &&
      n.score == sd.score + (if sd.responderIndex >= 0 then points else 0) &&
      n.correctAnswers == sd.correctAnswers
  {
  }

  /**
   * The loop of the no-answer resolution: clears every `answered` flag and
   * reports whether any was set.
   */
  method ClearAnswered(parts: map<UserId, ScoreData>, order: seq<UserId>)
    returns (cleared: map<UserId, ScoreData>, active: bool)
    requires Lists(parts, order)
    ensures cleared == ClearAll(parts)
    ensures active <==> AnyAnswered(parts)
  {
    cleared, active := parts, false;
    ghost var done: set<UserId> := {};
    var k := 0;
    while k < |order|
      invariant 0 <= k <= |order|
      invariant cleared.Keys == parts.Keys
      invariant forall u :: u in parts ==> cleared[u] == if u in done then Cleared(parts[u]) else parts[u]
      invariant forall m :: 0 <= m < k ==> order[m] in done
      invariant done <= parts.Keys
      invariant active <==> exists u :: u in done && parts[u].answered
    {
      var u := order[k];
      var sd := parts[u];
      if sd.answered {
        cleared := cleared[u := Cleared(sd)];
        active := true;
      }
      done := done + {u};
      k := k + 1;
    }
    forall u | u in parts ensures u in done {
      var m :| 0 <= m < |order| && order[m] == u;
    }
  }

  /**
   * The loop of the Timer resolution: clears every `answered` flag,
   * withdraws every credited participant (points back to 0) and searches for
   * a winner.
   */
  method SettleTimerRound(parts: map<UserId, ScoreData>, order: seq<UserId>, responders: int, scoreCap: int)
    returns (settled: map<UserId, ScoreData>, winner: Option<UserId>)
    requires Lists(parts, order)
    ensures settled == TimerSettleAll(parts)
    ensures winner == WinnerScan(order, parts, 0, StartScan(responders, scoreCap)).winner
  {
    settled := parts;
    ghost var done: set<UserId> := {};
    var s := StartScan(responders, scoreCap);
    var k := 0;
    while k < |order|
      invariant 0 <= k <= |order|
      invariant settled.Keys == parts.Keys
      invariant forall u :: u in parts ==> settled[u] == if u in done then TimerSettled(parts[u]) else parts[u]
      invariant forall m :: 0 <= m < k ==> order[m] in done
      invariant s == WinnerScan(order[..k], parts, 0, StartScan(responders, scoreCap))
    {
      assert order[..k + 1][..k] == order[..k];
      var u := order[k];
      var sd := parts[u];
      if sd.responderIndex >= 0 {
        if sd.score > s.score && sd.responderIndex < s.index {
          s := Scan(Some(u), sd.responderIndex, sd.score);
        }
      }
      settled := settled[u := TimerSettled(sd)];
      done := done + {u};
      k := k + 1;
    }
    assert order[..k] == order;
    winner := s.winner;
    forall u | u in parts ensures u in done {
      var m :| 0 <= m < |order| && order[m] == u;
    }
  }

  /**
   * The Timer resolution loop as written: a credited participant whose
   * points are not 1 to 5 has no group to be listed in, and the loop stops
   * there with a fault.
   */
  method SettleTimerRoundAsWritten(parts: map<UserId, ScoreData>, order: seq<UserId>, responders: int, scoreCap: int)
    returns (settled: map<UserId, ScoreData>, winner: Option<UserId>, fault: bool)
    requires Lists(parts, order)
    ensures fault <==> exists u :: u in parts && parts[u].responderIndex >= 0 && !Creditable(parts[u].points)
    ensures !fault ==> winner == WinnerScan(order, parts, 0, StartScan(responders, scoreCap)).winner
  {
    settled := parts;
    fault := false;
    var s := StartScan(responders, scoreCap);
    var k := 0;
    while k < |order|
      invariant 0 <= k <= |order|
      invariant !fault
      invariant forall m :: 0 <= m < k ==> !(parts[order[m]].responderIndex >= 0 && !Creditable(parts[order[m]].points))
      invariant s == WinnerScan(order[..k], parts, 0, StartScan(responders, scoreCap))
    {
      assert order[..k + 1][..k] == order[..k];
      var u := order[k];
      var sd := parts[u];
      if sd.responderIndex >= 0 {
        if !Creditable(sd.points) {
          settled := settled[u := sd.(answered := false)];
          fault := true;
          break;
        }
        if sd.score > s.score && sd.responderIndex < s.index {
          s := Scan(Some(u), sd.responderIndex, sd.score);
        }
      }
      settled := settled[u := TimerSettled(sd)];
      k := k + 1;
    }
    if !fault {
      assert order[..k] == order;
      forall u | u in parts ensures !(parts[u].responderIndex >= 0 && !Creditable(parts[u].points)) {
        var m :| 0 <= m < |order| && order[m] == u;
      }
    }
    winner := s.winner;
  }

  /**
   * The loop of the Number resolution: clears every `answered` flag, adds the
   * shared `points` to every credited participant, withdraws them and
   * searches for a winner on the credited scores.
   */
  method SettleNumberRound(parts: map<UserId, ScoreData>, order: seq<UserId>, responders: int, scoreCap: int, points: int)
    returns (settled: map<UserId, ScoreData>, winner: Option<UserId>)
    requires Lists(parts, order)
    ensures settled == NumberSettleAll(parts, points)
    ensures winner == WinnerScan(order, parts, points, StartScan(responders, scoreCap)).winner
  {
    settled := parts;
    ghost var done: set<UserId> := {};
    var s := StartScan(responders, scoreCap);
    var k := 0;
    while k < |order|
      invariant 0 <= k <= |order|
      invariant settled.Keys == parts.Keys
      invariant forall u :: u in parts ==> settled[u] == if u in done then NumberSettled(parts[u], points) else parts[u]
      invariant forall m :: 0 <= m < k ==> order[m] in done
      invariant s == WinnerScan(order[..k], parts, points, StartScan(responders, scoreCap))
    {
      assert order[..k + 1][..k] == order[..k];
      var u := order[k];
      var sd := parts[u];
      if sd.responderIndex >= 0 {
        if sd.score + points > s.score && sd.responderIndex < s.index {
          s := Scan(Some(u), sd.responderIndex, sd.score + points);
        }
      }
      settled := settled[u := NumberSettled(sd, points)];
      done := done + {u};
      k := k + 1;
    }
    assert order[..k] == order;
    winner := s.winner;
    forall u | u in parts ensures u in done {
      var m :| 0 <= m < |order| && order[m] == u;
    }
  }
}
