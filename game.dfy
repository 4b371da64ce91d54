/**
 * A trivia game in one room: sign-up, kicking, the question cycle driven by
 * a single pending timer, answer judging in the three modes (First, Timer,
 * Number), the resolution of each round and the leaderboard update at the
 * end of the game.
 *
 * Timers are modelled by the `pending` field (the handler the phase timeout
 * would call) and by `Fire`, which runs it; the clock is the `now`
 * parameter of the operations that read it.
 */
module Game {
  import opened TriviaTypes
  import opened Matching
  import opened Scoring
  import opened Leaderboard
  import opened TriviaStore

  datatype Mode = First | Timer | Number

  /** The phases 'signup', 'question' and 'intermission'. */
  datatype Phase = Signup | Asking | Intermission

  /** The callback of the pending phase timeout, if any. */
  datatype Handler = Idle | NoAnswerDue | TimerAnswersDue | NumberAnswersDue | AskQuestionDue

  /**
   * The replies sent to the user who issued a command; Crashed stands for
   * a command that threw on an `undefined` question entry, keeping what it
   * had done up to that point.
   */
  datatype Reply =
    | NoSignup | AlreadySignedUp | SignedUp
    | TooFewToKick | NoSuchUser | NotParticipant | Disqualified
    | TooFewToStart | Started | Crashed
    | NoQuestion | NotAParticipant | AlreadyAnswered | InvalidAnswer | AnswerSelected | AnsweredFirst

  /** The handler that closes a question in each mode. */
  function Due(mode: Mode): (h: Handler)
    ensures h != Idle && h != AskQuestionDue
  {
    match mode
    case First => NoAnswerDue
    case Timer => TimerAnswersDue
    case Number => NumberAnswersDue
  }

  /** The participants currently credited with a correct answer. */
  ghost function Credited(parts: map<UserId, ScoreData>): set<UserId> {
    set u | u in parts && parts[u].responderIndex >= 0
  }

  /** A set's size is the size of the rest plus one for `u` when it is a member. */
  lemma CardSplit(s: set<UserId>, u: UserId)
    ensures |s| == |s - {u}| + (if u in s then 1 else 0)
  {
    if u in s {
      assert s == (s - {u}) + {u};
    } else {
      assert s - {u} == s;
    }
  }

  /** Replacing one record moves the credited count by the change in that record's credit. */
  lemma CreditedUpdate(parts: map<UserId, ScoreData>, u: UserId, sd: ScoreData)
    ensures |Credited(parts[u := sd])| ==
      |Credited(parts)| - (if u in parts then Credit(parts[u]) else 0) + Credit(sd)
  {
    var before, after := Credited(parts), Credited(parts[u := sd]);
    assert after - {u} == before - {u};
    CardSplit(before, u);
    CardSplit(after, u);
    assert u in after <==> sd.responderIndex >= 0;
    assert u in before <==> u in parts && parts[u].responderIndex >= 0;
  }

  /** Removing a participant takes their credit, if any, off the credited count. */
  lemma CreditedRemove(parts: map<UserId, ScoreData>, u: UserId)
    ensures |Credited(parts - {u})| == |Credited(parts)| - (if u in parts then Credit(parts[u]) else 0)
  {
    assert Credited(parts - {u}) == Credited(parts) - {u};
    CardSplit(Credited(parts), u);
    assert u in Credited(parts) <==> u in parts && parts[u].responderIndex >= 0;
  }

  /** Maps whose records agree on the responder index have the same credited set. */
  lemma CreditedSame(p: map<UserId, ScoreData>, q: map<UserId, ScoreData>)
    requires p.Keys == q.Keys
    requires forall u :: u in p ==> q[u].responderIndex == p[u].responderIndex
    ensures Credited(q) == Credited(p)
  {
  }

  /** A fresh round: nobody has answered or is credited, no Timer points pending, the count is zero. */
  ghost predicate RoundClear(parts: map<UserId, ScoreData>, responders: int) {
    responders == 0 &&
    forall u :: u in parts ==> !parts[u].answered && parts[u].responderIndex == -1 && parts[u].points == 0
  }

  lemma RoundClearNoneCredited(parts: map<UserId, ScoreData>, responders: int)
    requires RoundClear(parts, responders)
    ensures Credited(parts) == {}
  {
  }

  /** A credited participant counts towards the credited set. */
  lemma CreditBound(parts: map<UserId, ScoreData>, u: UserId)
    requires u in parts
    ensures Credit(parts[u]) <= |Credited(parts)|
  {
    if parts[u].responderIndex >= 0 {
      assert u in Credited(parts);
    }
  }

  /**
   * The participants of a game: listed once each in iteration order, every
   * record of the mode's shape, and the responder count at least the number
   * of credited participants (it can exceed it after a credited participant
   * is kicked); First mode never counts responders.
   */
  ghost predicate Roster(parts: map<UserId, ScoreData>, order: seq<UserId>, mode: Mode, responders: int) {
    Ordered(parts, order) &&
    (forall u :: u in parts ==> RecordOk(parts[u], mode == Timer)) &&
    (mode == First ==> responders == 0) &&
    |Credited(parts)| <= responders
  }

  /**
   * The responder count is the number of credited participants plus
   * `dropped`, the responders whose credit went without the count going
   * down: a credited participant who was kicked, or every responder once a
   * winning round has been settled (the count is not reset then).
   */
  ghost predicate Counted(parts: map<UserId, ScoreData>, responders: int, dropped: int) {
    dropped >= 0 && |Credited(parts)| + dropped == responders
  }

  /** With the count at zero nobody is credited, so every record is withdrawn. */
  lemma Uncredited(parts: map<UserId, ScoreData>, order: seq<UserId>, mode: Mode)
    requires Roster(parts, order, mode, 0)
    ensures forall u :: u in parts ==> parts[u].responderIndex == -1 && parts[u].points == 0
  {
    assert Credited(parts) == {};
    forall u | u in parts ensures parts[u].responderIndex == -1 && parts[u].points == 0 {
      assert u !in Credited(parts);
    }
  }

  /** Signing up a new user keeps the roster, and a fresh round stays fresh. */
  lemma RosterAdd(parts: map<UserId, ScoreData>, order: seq<UserId>, mode: Mode, responders: int, u: UserId)
    requires Roster(parts, order, mode, responders) && u !in parts
    ensures Roster(parts[u := NewScore], order + [u], mode, responders)
    ensures |Credited(parts[u := NewScore])| == |Credited(parts)|
    ensures RoundClear(parts, responders) ==> RoundClear(parts[u := NewScore], responders)
  {
    CreditedUpdate(parts, u, NewScore);
    assert u !in order;
  }

  /** Deleting a participant keeps the roster, and a fresh round stays fresh. */
  lemma RosterKick(parts: map<UserId, ScoreData>, order: seq<UserId>, mode: Mode, responders: int, u: UserId)
    requires Roster(parts, order, mode, responders)
    ensures Roster(parts - {u}, Without(order, u), mode, responders)
    ensures |Credited(parts - {u})| == |Credited(parts)| - (if u in parts then Credit(parts[u]) else 0)
    ensures RoundClear(parts, responders) ==> RoundClear(parts - {u}, responders)
  {
    CreditedRemove(parts, u);
  }

  /**
   * Replacing one record by one of the mode's shape keeps the roster when the
   * count moves at least as much as the record's credit.
   */
  lemma RosterUpdate(parts: map<UserId, ScoreData>, order: seq<UserId>, mode: Mode, responders: int,
                     u: UserId, sd: ScoreData, responders': int)
    requires Roster(parts, order, mode, responders) && u in parts && RecordOk(sd, mode == Timer)
    requires mode == First ==> responders' == 0
    requires responders' - responders >= Credit(sd) - Credit(parts[u])
    ensures Roster(parts[u := sd], order, mode, responders')
  {
    CreditedUpdate(parts, u, sd);
  }

  /** Marking an answer and re-judging it in Timer or Number mode keeps the roster. */
  lemma RosterRejudge(parts: map<UserId, ScoreData>, order: seq<UserId>, mode: Mode, responders: int,
                      u: UserId, correct: bool, points: int)
    requires Roster(parts, order, mode, responders) && u in parts && mode != First
    ensures var j := Rejudge(parts[u].(answered := true), responders, correct, mode == Timer, points);
      Roster(parts[u := j.0], order, mode, j.1) && |Credited(parts[u := j.0])| - |Credited(parts)| == j.1 - responders
  {
    var sd := parts[u].(answered := true);
    CreditBound(parts, u);
    RejudgeCountsResponders(sd, responders, correct, mode == Timer, points);
    var j := Rejudge(sd, responders, correct, mode == Timer, points);
    RosterUpdate(parts, order, mode, responders, u, j.0, j.1);
    CreditedUpdate(parts, u, j.0);
  }

  /** Clearing the answer flags keeps the roster; with the count at zero the round is fresh. */
  lemma RosterClear(parts: map<UserId, ScoreData>, order: seq<UserId>, mode: Mode, responders: int)
    requires Roster(parts, order, mode, responders)
    ensures Roster(ClearAll(parts), order, mode, responders) && Credited(ClearAll(parts)) == Credited(parts)
    ensures responders == 0 ==> RoundClear(ClearAll(parts), 0)
  {
    var cleared := ClearAll(parts);
    CreditedSame(parts, cleared);
    if responders == 0 {
      Uncredited(parts, order, mode);
    }
  }

  /** With every record withdrawn the roster holds with any count outside First mode. */
  lemma RosterAnyCount(parts: map<UserId, ScoreData>, order: seq<UserId>, mode: Mode, responders: int)
    requires Roster(parts, order, mode, 0) && mode != First && responders >= 0
    ensures Roster(parts, order, mode, responders)
  {
  }

  /** After a Timer round nobody is credited and the next round is fresh. */
  lemma RosterTimerSettle(parts: map<UserId, ScoreData>, order: seq<UserId>, responders: int)
    requires Roster(parts, order, Timer, responders)
    ensures Roster(TimerSettleAll(parts), order, Timer, 0) && RoundClear(TimerSettleAll(parts), 0)
  {
    var settled := TimerSettleAll(parts);
    forall u | u in parts ensures RecordOk(settled[u], true) && settled[u].responderIndex == -1 {
      SettledRecords(parts[u], 0);
    }
    RoundClearNoneCredited(settled, 0);
  }

  /** After a Number round nobody is credited and the next round is fresh. */
  lemma RosterNumberSettle(parts: map<UserId, ScoreData>, order: seq<UserId>, responders: int, points: int)
    requires Roster(parts, order, Number, responders)
    ensures Roster(NumberSettleAll(parts, points), order, Number, 0) && RoundClear(NumberSettleAll(parts, points), 0)
  {
    var settled := NumberSettleAll(parts, points);
    assert forall u :: u in parts ==> settled[u].responderIndex == -1;
    RoundClearNoneCredited(settled, 0);
  }

  /**
   * The timer discipline between phases: only the mode's closing handler or
   * the next question can be pending, never during sign-up or after the
   * end, and the next question only during an intermission.
   */
  ghost predicate Schedule(mode: Mode, phase: Phase, pending: Handler, live: bool) {
    (pending == Idle || pending == AskQuestionDue || pending == Due(mode)) &&
    (phase == Signup ==> pending == Idle) &&
    (!live ==> pending == Idle) &&
    (pending == AskQuestionDue ==> phase == Intermission)
  }

  /** The refusal of an answer, if any: the guards checked before it is judged. */
  function Refusal(phase: Phase, parts: map<UserId, ScoreData>, user: UserId, mode: Mode, target: string): (r: Option<Reply>)
    ensures r.Some? <==>
      phase != Asking || user !in parts || (mode == First && parts[user].answered) || ToId(target) == ""
  {
    if phase != Asking then Some(NoQuestion)
    else if user !in parts then Some(NotAParticipant)
    else if parts[user].answered && mode == First then Some(AlreadyAnswered)
    else if ToId(target) == "" then Some(InvalidAnswer)
    else None
  }

  /** The questions of one category, in database order. */
  function WithCategory(questions: seq<Question>, category: string): (r: seq<Question>)
    ensures forall q :: q in r <==> q in questions && q.category == category
    ensures forall q :: multiset(r)[q] == if q.category == category then multiset(questions)[q] else 0
  {
    if questions == [] then []
    else
      var rest := WithCategory(questions[1..], category);
      assert questions == [questions[0]] + questions[1..];
      if questions[0].category == category then [questions[0]] + rest else rest
  }

  /**
   * The entries a game draws from: all of them for 'random', else the
   * questions of its category (the filter is only reached when every
   * entry is defined).
   */
  function Pool(questions: seq<Entry>, category: string): seq<Entry> {
    if category == "random" then questions else Wrap(WithCategory(Present(questions), category))
  }

  /** The iteration order after deleting `u` from the map: the others keep their order. */
  function Without(order: seq<UserId>, u: UserId): (r: seq<UserId>)
    ensures forall w :: w in r <==> w in order && w != u
    ensures Distinct(order) ==> Distinct(r)
    ensures |r| <= |order|
  {
    if order == [] then []
    else
      var rest := Without(order[1..], u);
      if order[0] == u then rest
      else
        assert Distinct(order) ==> order[0] !in order[1..];
        [order[0]] + rest
  }

  /**
   * The address check of sign-up: whether any participant, as a user who is
   * online (`ipsOf` holds the addresses of the online users), has used the
   * address `ip`.
   */
  method SharesAddress(order: seq<UserId>, ipsOf: map<UserId, set<string>>, ip: string) returns (shared: bool)
    ensures shared <==> exists w :: w in order && w in ipsOf && ip in ipsOf[w]
  {
    var k := 0;
    while k < |order|
      invariant 0 <= k <= |order|
      invariant forall m :: 0 <= m < k ==> !(order[m] in ipsOf && ip in ipsOf[order[m]])
    {
      var w := order[k];
      if w in ipsOf && ip in ipsOf[w] {
        return true;
      }
      k := k + 1;
    }
    return false;
  }

  /** The leaderboard, the ladder and the running games. */
  datatype Shared = Shared(leaderboard: Board, ladder: seq<seq<UserId>>, games: map<string, Trivia>)

  /** The running games by room id. */
  class Registry {
    var games: map<string, Trivia>

    constructor ()
      ensures games == map[]
    {
      games := map[];
    }
  }

  class Trivia {
    const room: string
    const mode: Mode
    const category: string
    const scoreCap: int
    const prize: int
    const store: Store
    const registry: Registry

    var phase: Phase
    /** The records of the participants, keyed by user id ... */
    var participants: map<UserId, ScoreData>
    /** ... and the map's iteration order (insertion order). */
    var order: seq<UserId>
    var currentQuestions: seq<Entry>
    var currentAnswer: seq<string>
    var pending: Handler
    var inactivityCounter: int
    var askedAt: int
    var correctResponders: int
    /** Whether the game is still the room's game (not yet deleted from the registry by its end). */
    ghost var live: bool
    /** The responders counted this round whose credit has gone (see Counted). */
    ghost var dropped: int

    /**
     * The game's invariant: the timer discipline (a question is open exactly
     * while its closing handler is pending) on top of Consistent.
     */
    ghost predicate Valid()
      reads this
    {
      Consistent() && (live ==> (phase == Asking <==> pending == Due(mode)))
    }

    /**
     * The invariant without the link between the open question and its
     * handler, which also holds at the moment a question's timer has fired
     * and its handler has not yet run.
     */
    ghost predicate Consistent()
      reads this
    {
      ValidCap(scoreCap) && prize == Prize(scoreCap) &&
      Roster(participants, order, mode, correctResponders) && Counted(participants, correctResponders, dropped) &&
      Schedule(mode, phase, pending, live) &&
      ((phase == Signup || pending == AskQuestionDue) ==> RoundClear(participants, correctResponders))
    }

    /** The shared data a game changes when it ends: the leaderboard, the ladder and the registry. */
    ghost function SharedOf(): Shared
      reads store, registry
    {
      Shared(store.leaderboard, store.ladder, registry.games)
    }

    /**
     * The game has ended, the shared data having been `s0`: the game is gone
     * from the registry, no timer is pending, and the leaderboard recorded it.
     */
    ghost predicate Over(s0: Shared, winner: Option<UserId>)
      reads this, store, registry
    {
      !live && pending == Idle &&
      registry.games == s0.games - {room} &&
      WellFormed(s0.leaderboard) && Ordered(participants, order) &&
      Concluded(s0.leaderboard, participants, order, winner, prize, store.leaderboard, store.ladder)
    }

    /** The game goes on: the next question is due and the shared data is still `s0`. */
    ghost predicate Continues(s0: Shared)
      reads this, store, registry
    {
      live && pending == AskQuestionDue && SharedOf() == s0
    }

    /**
     * The end of a question nobody was credited for, from the records
     * `before`, the inactivity count `idle` and the shared data `s0`: the
     * answer flags are cleared, and the seventh such question in a row
     * without any answer ends the game without a winner.
     */
    ghost predicate Unanswered(before: map<UserId, ScoreData>, idle: int, s0: Shared)
      reads this, store, registry
    {
      phase == Intermission && participants == ClearAll(before) &&
      var active := AnyAnswered(before);
      var quiet := !active && idle + 1 == 7;
      inactivityCounter == (if active then 0 else idle + 1) &&
      (quiet ==> Over(s0, None)) && (!quiet ==> Continues(s0))
    }

    /**
     * A correct First-mode answer from `user`, whose records were `before`:
     * 5 more points and one more correct answer, then the game is won at the
     * cap, or the answer flags are cleared and the next question is due.
     */
    ghost predicate FirstAnswered(before: map<UserId, ScoreData>, user: UserId, s0: Shared)
      reads this, store, registry
    {
      user in before && phase == Intermission &&
      var sd := before[user];
      var scored := sd.(score := sd.score + 5, correctAnswers := sd.correctAnswers + 1);
      (scored.score >= scoreCap ==> participants == before[user := scored] && Over(s0, Some(user))) &&
      (scored.score < scoreCap ==> participants == ClearAll(before[user := scored]) && inactivityCounter == 0 && Continues(s0))
    }

    constructor (room: string, mode: Mode, category: string, scoreCap: int, store: Store, registry: Registry)
      requires ValidCap(scoreCap)
      ensures Valid() && live
      ensures this.room == room && this.mode == mode && this.category == category
      ensures this.scoreCap == scoreCap && this.prize == Prize(scoreCap)
      ensures this.store == store && this.registry == registry
      ensures phase == Signup && participants == map[] && order == [] && pending == Idle
      ensures currentQuestions == [] && currentAnswer == [] && inactivityCounter == 0
      ensures askedAt == 0 && correctResponders == 0
    {
      this.room, this.mode, this.category := room, mode, category;
      this.scoreCap, this.prize := scoreCap, Prize(scoreCap);
      this.store, this.registry := store, registry;
      phase, participants, order := Signup, map[], [];
      currentQuestions, currentAnswer, pending := [], [], Idle;
      inactivityCounter, askedAt, correctResponders := 0, 0, 0;
      live, dropped := true, 0;
    }

    /**
     * Sign-up: refused outside the sign-up phase, for a participant, and for
     * a user whose latest address an online participant has used.
     */
    method AddParticipant(user: UserId, latestIp: string, ipsOf: map<UserId, set<string>>) returns (r: Reply)
      requires Valid()
      modifies this`participants, this`order
      ensures Valid()
      ensures old(phase) != Signup ==> r == NoSignup
      ensures old(phase) == Signup && user in old(participants) ==> r == AlreadySignedUp
      ensures r == SignedUp <==>
        old(phase) == Signup && user !in old(participants) &&
        !(exists w :: w in old(order) && w in ipsOf && latestIp in ipsOf[w])
      ensures r != SignedUp ==> r in {NoSignup, AlreadySignedUp} && participants == old(participants) && order == old(order)
      ensures r == SignedUp ==> participants == old(participants)[user := NewScore] && order == old(order) + [user]
    {
      if phase != Signup {
        return NoSignup;
      }
      if user in participants {
        return AlreadySignedUp;
      }
      var shared := SharesAddress(order, ipsOf, latestIp);
      if shared {
        return AlreadySignedUp;
      }
      RosterAdd(participants, order, mode, correctResponders, user);
      participants, order := participants[user := NewScore], order + [user];
      r := SignedUp;
    }

    /**
     * Disqualification: refused while fewer than three take part, for a
     * name with an empty id and for a non-participant; otherwise the user's
     * record is deleted, in any phase.
     */
    method KickParticipant(target: string) returns (r: Reply)
      requires Valid()
      modifies this`participants, this`order, this`dropped
      ensures Valid()
      ensures var id := ToId(target);
        r == (if |old(participants)| < 3 then TooFewToKick
              else if id == "" then NoSuchUser
              else if id !in old(participants) then NotParticipant
              else Disqualified)
      ensures r == Disqualified ==>
        participants == old(participants) - {ToId(target)} && order == Without(old(order), ToId(target))
      ensures r != Disqualified ==> participants == old(participants) && order == old(order)
      ensures dropped == old(dropped) + if r == Disqualified then Credit(old(participants)[ToId(target)]) else 0
    {
      if |participants| < 3 {
        return TooFewToKick;
      }
      var id := ToId(target);
      if id == "" {
        return NoSuchUser;
      }
      if id !in participants {
        return NotParticipant;
      }
      RosterKick(participants, order, mode, correctResponders, id);
      dropped := dropped + Credit(participants[id]);
      participants, order := participants - {id}, Without(order, id);
      r := Disqualified;
    }

    /**
     * The end of a game: the records accrue to the leaderboard, the winner
     * gets the prize, the leaderboard is re-ranked, and the game leaves the
     * registry.
     */
    method UpdateLeaderboard(winner: Option<UserId>)
      requires ValidCap(scoreCap) && prize == Prize(scoreCap) && Roster(participants, order, mode, correctResponders)
      requires Counted(participants, correctResponders, dropped)
      requires phase == Signup ==> RoundClear(participants, correctResponders)
      requires store.Valid() && pending == Idle
      requires winner.Some? ==> winner.value in participants && participants[winner.value].score != 0
      modifies store`leaderboard, store`ladder, registry`games, this`live
      ensures Valid() && store.Valid() && Over(old(SharedOf()), winner)
    {
      var after, ladder := Conclude(store.leaderboard, participants, order, winner, prize);
      store.leaderboard, store.ladder := after, ladder;
      registry.games := registry.games - {room};
      live := false;
    }

    /**
     * The close of a question when the game goes on: the records become
     * `cleared`, the inactivity count `idle`, and the next question is due.
     */
    method Adjourn(cleared: map<UserId, ScoreData>, idle: int)
      requires ValidCap(scoreCap) && prize == Prize(scoreCap) && live
      requires Roster(cleared, order, mode, correctResponders) && RoundClear(cleared, correctResponders)
      modifies this`participants, this`phase, this`pending, this`inactivityCounter, this`dropped
      ensures Valid()
      ensures participants == cleared && inactivityCounter == idle
      ensures phase == Intermission && pending == AskQuestionDue && dropped == 0
    {
      RoundClearNoneCredited(cleared, correctResponders);
      participants, inactivityCounter, dropped := cleared, idle, 0;
      phase, pending := Intermission, AskQuestionDue;
    }

    /**
     * The close of a Timer or Number question once the records are
     * `settled` and the winner search found `winner`: the winner ends the
     * game; otherwise the inactivity count becomes `idle` and the next
     * question is due.
     */
    method Resolve(settled: map<UserId, ScoreData>, winner: Option<UserId>, idle: int)
      requires ValidCap(scoreCap) && prize == Prize(scoreCap) && live && store.Valid() && pending == Idle
      requires mode != First && correctResponders >= 0
      requires Roster(settled, order, mode, 0) && RoundClear(settled, 0)
      requires winner.Some? ==> winner.value in settled && settled[winner.value].score != 0
      modifies this`participants, this`correctResponders, this`phase, this`inactivityCounter, this`pending, this`live
      modifies this`dropped, store`leaderboard, store`ladder, registry`games
      ensures Valid() && store.Valid() && phase == Intermission && participants == settled
      ensures winner.Some? ==> Over(old(SharedOf()), winner)
      ensures winner == None ==> inactivityCounter == idle && correctResponders == 0 && Continues(old(SharedOf()))
    {
      phase, participants := Intermission, settled;
      if winner.Some? {
        RosterAnyCount(settled, order, mode, correctResponders);
        RoundClearNoneCredited(settled, 0);
        dropped := correctResponders;
        UpdateLeaderboard(winner);
        return;
      }
      correctResponders := 0;
      Adjourn(settled, idle);
    }

    /**
     * The next question from the draw `draw`, the phase having been
     * `phase0`, the answer `answer0`, the asking time `at0` and the shared
     * data `s0`: with none left the game ends in a stalemate with no winner;
     * otherwise the last entry is taken off the draw, and a question is
     * asked with the mode's closing handler due, while an `undefined` entry
     * throws before anything else changes, leaving no handler due.
     */
    ghost predicate Asked(draw: seq<Entry>, phase0: Phase, answer0: seq<string>, at0: int, now: int, s0: Shared)
      reads this, store, registry
    {
      (draw == [] ==> Over(s0, None) && phase == phase0) &&
      (draw != [] ==>
         var n := |draw|;
         live && currentQuestions == draw[..n - 1] && SharedOf() == s0 &&
         (draw[n - 1].None? ==> phase == phase0 && pending == Idle && currentAnswer == answer0 && askedAt == at0) &&
         (draw[n - 1].Some? ==>
            phase == Asking && pending == Due(mode) && currentAnswer == draw[n - 1].value.answers &&
            askedAt == (if mode == Timer then now else at0)))
    }

    /** The next question, asked at time `now`. */
    method AskQuestion(now: int)
      requires Valid() && store.Valid() && live && pending == Idle
      requires RoundClear(participants, correctResponders)
      modifies this`currentQuestions, this`currentAnswer, this`phase, this`pending, this`askedAt, this`live
      modifies store`leaderboard, store`ladder, registry`games
      ensures Valid() && store.Valid()
      ensures Asked(old(currentQuestions), old(phase), old(currentAnswer), old(askedAt), now, old(SharedOf()))
    {
      if currentQuestions == [] {
        UpdateLeaderboard(None);
        return;
      }
      var n := |currentQuestions|;
      var head := currentQuestions[n - 1];
      currentQuestions := currentQuestions[..n - 1];
      if head.None? {
        return;
      }
      currentAnswer := head.value.answers;
      phase := Asking;
      match mode {
        case First =>
          pending := NoAnswerDue;
        case Timer =>
          askedAt := now;
          pending := TimerAnswersDue;
        case Number =>
          pending := NumberAnswersDue;
      }
    }

    /**
     * The start of a game: refused outside sign-up and with fewer than three
     * participants; a category game whose database holds an `undefined`
     * entry throws in the filter; otherwise the draw is `shuffled`, an
     * arbitrary permutation of the pool, and the first question is asked.
     */
    method StartGame(shuffled: seq<Entry>, now: int) returns (r: Reply)
      requires Valid() && store.Valid() && live
      requires multiset(shuffled) == multiset(Pool(store.questions, category))
      modifies this`currentQuestions, this`currentAnswer, this`phase, this`pending, this`askedAt, this`live
      modifies store`leaderboard, store`ladder, registry`games
      ensures Valid() && store.Valid()
      ensures var throws := category != "random" && None in old(store.questions);
        r == (if old(phase) != Signup then NoSignup
              else if |old(participants)| < 3 then TooFewToStart
              else if throws || (shuffled != [] && shuffled[|shuffled| - 1].None?) then Crashed
              else Started)
      ensures var stopped := old(phase) != Signup || |old(participants)| < 3 ||
          (category != "random" && None in old(store.questions));
        (stopped ==> unchanged(this) && unchanged(store) && unchanged(registry)) &&
        (!stopped ==> Asked(shuffled, Signup, old(currentAnswer), old(askedAt), now, old(SharedOf())))
    {
      if phase != Signup {
        return NoSignup;
      }
      if |participants| < 3 {
        return TooFewToStart;
      }
      if category != "random" && None in store.questions {
        return Crashed;
      }
      currentQuestions := shuffled;
      AskQuestion(now);
      r := if shuffled != [] && shuffled[|shuffled| - 1].None? then Crashed else Started;
    }

    /**
     * The end of a question nobody is credited for (every question in First
     * mode, and Timer and Number questions with no correct responder).
     */
    method NoAnswer()
      requires Consistent() && store.Valid() && live && phase == Asking && pending == Idle
      requires correctResponders == 0
      modifies this`participants, this`phase, this`pending, this`inactivityCounter, this`live, this`dropped
      modifies store`leaderboard, store`ladder, registry`games
      ensures Valid() && store.Valid()
      ensures Unanswered(old(participants), old(inactivityCounter), old(SharedOf()))
    {
      var parts, idle := participants, inactivityCounter;
      var cleared, active := ClearAnswered(parts, order);
      RosterClear(parts, order, mode, correctResponders);
      if active {
        if idle != 0 {
          idle := 0;
        }
      } else {
        idle := idle + 1;
        if idle == 7 {
          phase, participants, inactivityCounter := Intermission, cleared, idle;
          UpdateLeaderboard(None);
          return;
        }
      }
      Adjourn(cleared, idle);
    }

    /** A correct answer in First mode. */
    method FirstAnswer(user: UserId)
      requires Valid() && store.Valid() && live && mode == First && phase == Asking
      requires user in participants
      modifies this`participants, this`phase, this`pending, this`inactivityCounter, this`live, this`dropped
      modifies store`leaderboard, store`ladder, registry`games
      ensures Valid() && store.Valid()
      ensures FirstAnswered(old(participants), user, old(SharedOf()))
    {
      var sd := participants[user];
      var scored := sd.(score := sd.score + 5, correctAnswers := sd.correctAnswers + 1);
      var marked := participants[user := scored];
      RosterUpdate(participants, order, mode, correctResponders, user, scored, correctResponders);
      if scored.score >= scoreCap {
        pending, phase, participants := Idle, Intermission, marked;
        UpdateLeaderboard(Some(user));
        return;
      }
      var cleared, _ := ClearAnswered(marked, order);
      RosterClear(marked, order, mode, correctResponders);
      Adjourn(cleared, 0);
    }

    /**
     * The judging of a First-mode answer `answer` from participant `user`:
     * the participant is marked as having answered, and a correct answer
     * closes the question.
     */
    method JudgeFirst(user: UserId, answer: string) returns (r: Reply)
      requires Valid() && store.Valid() && live && mode == First && phase == Asking && user in participants
      modifies this`participants, this`phase, this`pending, this`inactivityCounter, this`live, this`dropped
      modifies store`leaderboard, store`ladder, registry`games
      ensures Valid() && store.Valid()
      ensures FirstJudged(old(participants), old(inactivityCounter), user, answer, old(SharedOf()), r)
    {
      var sd := participants[user].(answered := true);
      RosterUpdate(participants, order, mode, correctResponders, user, sd, correctResponders);
      participants := participants[user := sd];
      var correct := IsCorrect(answer, currentAnswer);
      if correct {
        FirstAnswer(user);
        return AnsweredFirst;
      }
      return AnswerSelected;
    }

    /**
     * The outcome of judging a First-mode `answer` from `user`, the records
     * having been `before`, the inactivity count `idle` and the shared data
     * `s0`: a correct answer scores, otherwise the participant is only
     * marked as having answered.
     */
    ghost predicate FirstJudged(before: map<UserId, ScoreData>, idle: int, user: UserId, answer: string,
                                s0: Shared, r: Reply)
      reads this, store, registry
    {
      user in before &&
      var marked := before[user := before[user].(answered := true)];
      (AnyMatch(answer, currentAnswer) ==> r == AnsweredFirst && FirstAnswered(marked, user, s0)) &&
      (!AnyMatch(answer, currentAnswer) ==>
         r == AnswerSelected && participants == marked && phase == Asking && inactivityCounter == idle &&
         live && SharedOf() == s0)
    }

    /**
     * The judging of a Timer- or Number-mode answer `answer` from
     * participant `user`: the participant is marked as having answered and
     * their credit is re-judged, with the Timer points of the time elapsed
     * since the question was asked.
     */
    method JudgeCredit(user: UserId, answer: string, now: int) returns (r: Reply)
      requires Valid() && live && mode != First && phase == Asking && user in participants
      modifies this`participants, this`correctResponders
      ensures Valid() && r == AnswerSelected
      ensures correctResponders == |Credited(participants)| + old(dropped)
      ensures var points := if mode == Timer then TimerPoints(now - askedAt) else 0;
        var j := Rejudge(old(participants)[user].(answered := true), old(correctResponders),
                         AnyMatch(answer, currentAnswer), mode == Timer, points);
        participants == old(participants)[user := j.0] && correctResponders == j.1
    {
      var correct := IsCorrect(answer, currentAnswer);
      var points := if mode == Timer then TimerPoints(now - askedAt) else 0;
      var j := Rejudge(participants[user].(answered := true), correctResponders, correct, mode == Timer, points);
      RosterRejudge(participants, order, mode, correctResponders, user, correct, points);
      participants, correctResponders := participants[user := j.0], j.1;
      r := AnswerSelected;
    }

    /**
     * An answer: refused outside the question phase, from a non-participant,
     * as a second answer in First mode and when its id is empty; otherwise
     * judged.
     */
    method AnswerQuestion(target: string, user: UserId, now: int) returns (r: Reply)
      requires Valid() && store.Valid() && live
      modifies this`participants, this`correctResponders, this`phase, this`pending, this`inactivityCounter, this`live
      modifies this`dropped, store`leaderboard, store`ladder, registry`games
      ensures Valid() && store.Valid()
      ensures var refusal := Refusal(old(phase), old(participants), user, mode, target);
        (refusal.Some? ==> r == refusal.value && unchanged(this) && unchanged(store) && unchanged(registry)) &&
        (refusal == None && mode == First ==>
           FirstJudged(old(participants), old(inactivityCounter), user, ToId(target), old(SharedOf()), r)) &&
        (refusal == None && mode != First ==>
           var points := if mode == Timer then TimerPoints(now - askedAt) else 0;
           var j := Rejudge(old(participants)[user].(answered := true), old(correctResponders),
                            AnyMatch(ToId(target), currentAnswer), mode == Timer, points);
           r == AnswerSelected && participants == old(participants)[user := j.0] &&
           correctResponders == j.1 && unchanged(store) && unchanged(registry))
    {
      if phase != Asking {
        return NoQuestion;
      }
      if user !in participants {
        return NotAParticipant;
      }
      if participants[user].answered && mode == First {
        return AlreadyAnswered;
      }
      var answer := ToId(target);
      if answer == "" {
        return InvalidAnswer;
      }
      if mode == First {
        r := JudgeFirst(user, answer);
      } else {
        r := JudgeCredit(user, answer, now);
      }
    }

    /**
     * The end of a Timer question: with nobody credited it is an unanswered
     * question; otherwise the credited participants are settled.
     */
    method TimerAnswers()
      requires Consistent() && store.Valid() && live && mode == Timer && phase == Asking && pending == Idle
      modifies this`participants, this`correctResponders, this`phase, this`pending, this`inactivityCounter, this`live
      modifies this`dropped, store`leaderboard, store`ladder, registry`games
      ensures Valid() && store.Valid()
      ensures old(correctResponders) == 0 ==>
        Unanswered(old(participants), old(inactivityCounter), old(SharedOf())) && correctResponders == 0
      ensures old(correctResponders) != 0 ==>
        TimerClosed(old(participants), old(order), old(correctResponders), old(SharedOf()))
    {
      if correctResponders == 0 {
        NoAnswer();
      } else {
        CloseTimerRound();
      }
    }

    /**
     * The close of a Timer question with credited participants, from the
     * records `before` in iteration order `order0`, the responder count
     * `responders` and the shared data `s0`: every credited participant is
     * withdrawn, keeping their points in the score, and the first winner
     * found in iteration order ends the game; otherwise the inactivity
     * count is reset and the next question is due.
     */
    ghost predicate TimerClosed(before: map<UserId, ScoreData>, order0: seq<UserId>, responders: int, s0: Shared)
      reads this, store, registry
    {
      phase == Intermission && participants == TimerSettleAll(before) && Ordered(before, order0) &&
      var w := WinnerScan(order0, before, 0, StartScan(responders, scoreCap)).winner;
      (w.Some? ==> Over(s0, w)) &&
      (w == None ==> inactivityCounter == 0 && correctResponders == 0 && Continues(s0))
    }

    method CloseTimerRound()
      requires Consistent() && store.Valid() && live && mode == Timer && phase == Asking && pending == Idle
      modifies this`participants, this`correctResponders, this`phase, this`inactivityCounter, this`pending, this`live
      modifies this`dropped, store`leaderboard, store`ladder, registry`games
      ensures Valid() && store.Valid()
      ensures TimerClosed(old(participants), old(order), old(correctResponders), old(SharedOf()))
    {
      var parts, responders := participants, correctResponders;
      var settled, winner := SettleTimerRound(parts, order, responders, scoreCap);
      WinnerReachedCap(order, parts, 0, responders, scoreCap);
      RosterTimerSettle(parts, order, responders);
      Resolve(settled, winner, 0);
    }

    /**
     * The end of a Number question: with nobody credited it is an unanswered
     * question; otherwise the credited participants are settled.
     */
    method NumberAnswers()
      requires Consistent() && store.Valid() && live && mode == Number && phase == Asking && pending == Idle
      modifies this`participants, this`correctResponders, this`phase, this`pending, this`inactivityCounter, this`live
      modifies this`dropped, store`leaderboard, store`ladder, registry`games
      ensures Valid() && store.Valid()
      ensures old(correctResponders) == 0 ==>
        Unanswered(old(participants), old(inactivityCounter), old(SharedOf())) && correctResponders == 0
      ensures old(correctResponders) != 0 ==>
        NumberClosed(old(participants), old(order), old(correctResponders), old(inactivityCounter), old(SharedOf()))
    {
      if correctResponders == 0 {
        NoAnswer();
      } else {
        CloseNumberRound();
      }
    }

    /**
     * The close of a Number question with credited participants, from the
     * records `before` in iteration order `order0`, the responder count
     * `responders`, the inactivity count `idle` and the shared data `s0`:
     * the credited share the points of their number and are withdrawn, and
     * the first winner found in iteration order ends the game; otherwise a
     * running inactivity count jumps to 9 and the next question is due.
     */
    ghost predicate NumberClosed(before: map<UserId, ScoreData>, order0: seq<UserId>, responders: int, idle: int,
                                 s0: Shared)
      reads this, store, registry
    {
      var points := NumberPoints(responders, |before|);
      phase == Intermission && participants == NumberSettleAll(before, points) && Ordered(before, order0) &&
      var w := WinnerScan(order0, before, points, StartScan(responders, scoreCap)).winner;
      (w.Some? ==> Over(s0, w)) &&
      (w == None ==>
         inactivityCounter == (if idle != 0 then 9 else 0) && correctResponders == 0 && Continues(s0))
    }

    method CloseNumberRound()
      requires Consistent() && store.Valid() && live && mode == Number && phase == Asking && pending == Idle
      modifies this`participants, this`correctResponders, this`phase, this`inactivityCounter, this`pending, this`live
      modifies this`dropped, store`leaderboard, store`ladder, registry`games
      ensures Valid() && store.Valid()
      ensures NumberClosed(old(participants), old(order), old(correctResponders), old(inactivityCounter), old(SharedOf()))
    {
      var parts, responders, idle := participants, correctResponders, inactivityCounter;
      var points := NumberPoints(responders, |parts|);
      var settled, winner := SettleNumberRound(parts, order, responders, scoreCap, points);
      WinnerReachedCap(order, parts, points, responders, scoreCap);
      RosterNumberSettle(parts, order, responders, points);
      Resolve(settled, winner, if idle != 0 then 9 else 0);
    }

    /** A forced end: the pending timer is cancelled and the game leaves the registry; the leaderboard is not updated. */
    method EndGame()
      requires Valid()
      modifies this`pending, this`live, registry`games
      ensures Valid()
      ensures !live && pending == Idle
      ensures registry.games == old(registry.games) - {room}
      ensures unchanged(store)
    {
      if phase != Signup {
        pending := Idle;
      }
      registry.games := registry.games - {room};
      live := false;
    }

    /**
     * The pending timer fires: its handler runs, once, with the outcome
     * that handler promises.
     */
    method Fire(now: int)
      requires Valid() && store.Valid()
      modifies this`currentQuestions, this`currentAnswer, this`phase, this`pending, this`askedAt, this`live
      modifies this`participants, this`correctResponders, this`inactivityCounter, this`dropped
      modifies store`leaderboard, store`ladder, registry`games
      ensures Valid() && store.Valid()
      ensures old(pending) == Idle ==> unchanged(this) && unchanged(store) && unchanged(registry)
      ensures old(pending) == AskQuestionDue ==>
        Asked(old(currentQuestions), old(phase), old(currentAnswer), old(askedAt), now, old(SharedOf()))
      ensures old(pending) == Due(mode) && old(correctResponders) == 0 ==>
        Unanswered(old(participants), old(inactivityCounter), old(SharedOf()))
      ensures old(pending) == Due(mode) && mode == Timer && old(correctResponders) != 0 ==>
        TimerClosed(old(participants), old(order), old(correctResponders), old(SharedOf()))
      ensures old(pending) == Due(mode) && mode == Number && old(correctResponders) != 0 ==>
        NumberClosed(old(participants), old(order), old(correctResponders), old(inactivityCounter), old(SharedOf()))
    {
      var handler := pending;
      if handler == Idle {
        return;
      }
      pending := Idle;
      if handler == AskQuestionDue {
        AskQuestion(now);
      } else if mode == First {
        NoAnswer();
      } else if mode == Timer {
        TimerAnswers();
      } else {
        NumberAnswers();
      }
    }
  }
}
