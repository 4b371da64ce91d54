# Trivia games and the question workshop

This project models the core of the Pokemon Showdown trivia plugin
(`chat-plugins/trivia.js`).

- **The game.** One game runs per room. Users sign up, and a moderator can
  disqualify (kick) participants. Questions drawn from the database are asked
  one at a time. Each question is closed by a timer, and the answers are then
  judged in one of three modes:
  - First: the first correct answer scores 5 points.
  - Timer: a correct answer scores 5 to 1 points, falling the longer the
    participant took.
  - Number: the correct responders share a value that falls the more of them
    there are.
- **The end of a game.** A game ends when:
  - a participant reaches the score cap, or
  - the questions run out (a stalemate), or
  - seven questions in a row pass without any answer, or
  - a moderator ends it.

  Except after a forced end, the game's records are added to the leaderboard.
  The leaderboard keeps, per user, prize points, total score and correct
  answers. The winner earns prize points. Every statistic is then re-ranked
  densely, and the ladder of the top fifteen prize-point values is rebuilt.
- **The question workshop.**
  - Questions are added directly by moderators, or submitted by users into a
    review list ordered by category.
  - Submissions are accepted into the database, or rejected, either all at
    once or by a list of index numbers and ranges.

The modules follow the plugin's structure:

| module | file | contents |
|---|---|---|
| TriviaTypes | types.dfy | user ids and the id normaliser, questions, participant records |
| Matching | matching.dfy | the answer check (exact, or edit distance for long answers) |
| Scoring | scoring.dfy | Timer and Number points, the prize, re-judging an answer, settling a round and the winner search |
| Leaderboard | leaderboard.dfy | accrual of a game, the ranking passes, the ladder |
| TriviaStore | store.dfy | the persistent data: leaderboard, ladder, questions, submissions |
| Game | game.dfy | the `Trivia` class (one game) and the registry of running games |
| Workshop | workshop.dfy | the add/submit command and the accept/reject command |

The `Trivia` class keeps the game's fields as the plugin does:
- the participants' records (a map, plus its iteration order, which decides
  the winner search)
- the phase
- the draw of questions and the current answers
- the inactivity counter
- the responder count
- the time the question was asked

The phase timer is the `pending` field, which names the handler the timeout
would call. `Fire(now)` runs that handler. The clock is the `now` parameter.

The model keeps the plugin's quirks as written:
- Forcing a game to end does not update the leaderboard.
- A stalemate and an inactivity end update it with no winner.
- A Number round with a running inactivity count sets the count to 9.
- A participant who flip-flops can share a responder index with another.
- The winner search depends on the iteration order.
- Every ladder group holds one user.
- A downward range `a-b` in an index list names only `b`, which can be 0.
- Accept and reject splice the named submissions smallest number first, on a
  list that shrinks as it goes. A splice past the end returns `undefined`, and
  an accept appends it to the question database as an `undefined` entry
  (`None` of type `Entry`). A category game then throws in its filter, and a
  drawn `undefined` entry throws when the question is asked.
- Answer ids are kept as written: an empty id is kept, and the "No valid
  answers" refusal never fires.
- The category table is a plain object, so the inherited key "constructor"
  passes the category check.
- Only a kick can take a credited participant away mid-round. The ghost field
  `dropped` counts such responders, and the responder count is always the
  number of credited participants plus `dropped`.

## Model

| member | source | states |
|---|---|---|
| TriviaTypes.Lower | chat-plugins/trivia.js:147 | An upper-case ASCII letter maps to the letter 32 code points above it, which is lower case; every other character is unchanged. |
| TriviaTypes.ToId | chat-plugins/trivia.js:208-209 | The normalised id is no longer than the input and consists of a-z and 0-9 only. |
| TriviaTypes.ToIdFixesIds | chat-plugins/trivia.js:147 | A string that is already an id is normalised to itself. |
| TriviaTypes.ToIdIdempotent | chat-plugins/trivia.js:208 | Normalising twice gives the same result as normalising once. |
| TriviaTypes.PresentWrap | chat-plugins/trivia.js:638 | Listing the defined entries of a list whose entries are all defined gives the original questions back. |
| Matching.Min3 | chat-plugins/trivia.js:215 | The minimum of three distances is one of them and is at most each of them. |
| Matching.EditDistanceLengthBound | chat-plugins/trivia.js:215 | The edit distance is at least the difference of the two lengths. |
| Matching.EditDistanceZero | chat-plugins/trivia.js:215 | The distance is 0 exactly when the strings are equal. |
| Matching.EditDistanceCommonPrefix | chat-plugins/trivia.js:215 | A shared prefix never increases the distance. |
| Matching.OneSubstitution | chat-plugins/trivia.js:215 | One substituted character costs at most one edit. |
| Matching.ShortAnswersNeedExactMatch | chat-plugins/trivia.js:215 | An accepted answer of at most 5 characters matches exactly the identical answer. |
| Matching.FuzzyMatchLength | chat-plugins/trivia.js:215 | A match is either exact, or against a long accepted answer and within 2 characters of its length. |
| Matching.TypoAccepted | chat-plugins/trivia.js:215 | An answer longer than 5 characters with one mistyped character is accepted. |
| Matching.IsCorrect | chat-plugins/trivia.js:211-219 | The loop from the last accepted answer down reports correct exactly when some accepted answer matches. |
| Scoring.TruncDiv | chat-plugins/trivia.js:232 | The truncated quotient has magnitude \|a\|/\|b\| and the sign of the exact quotient. |
| Scoring.TruncDivBounds | chat-plugins/trivia.js:232 | The truncated quotient's magnitude is the largest one whose product with \|b\| fits under \|a\|. |
| Scoring.ToInt32 | chat-plugins/trivia.js:232 | The 32-bit wrap of `~~` lands in the signed 32-bit range, is congruent modulo 2^32, and fixes values already in range. |
| Scoring.CreditableRange | chat-plugins/trivia.js:233 | The `[1, 2, 3, 4, 5].indexOf(points) > -1` test holds exactly for 1 <= points <= 5. |
| Scoring.TimerPointsCredited | chat-plugins/trivia.js:232-236 | Timer points are credited exactly for answers given within -3 s to 15 s of the question (within the 32-bit wrap). |
| Scoring.TimerPointsSchedule | chat-plugins/trivia.js:232 | Within the question period the value is 5 minus the elapsed whole 3-second steps, always creditable. |
| Scoring.TimerPointsExamples | chat-plugins/trivia.js:232-233 | 1 s gives 5, 13 s and 14.999 s give 1, and 15 s gives no creditable value. |
| Scoring.Spread | chat-plugins/trivia.js:370 | The divisor `participants.size - 1 \|\| 1` is never 0 and equals size-1 for two or more participants. |
| Scoring.NumberPointsRange | chat-plugins/trivia.js:370 | With 1 to `size` correct responders the shared value is 1 to 5, which is the rational formula truncated. |
| Scoring.NumberPointsSingle | chat-plugins/trivia.js:370 | A lone correct responder gets 5. |
| Scoring.NumberPointsEveryone | chat-plugins/trivia.js:370 | When every participant of two or more is correct, each gets 1. |
| Scoring.NumberPointsMonotone | chat-plugins/trivia.js:370 | More correct responders never means more points each. |
| Scoring.NumberPointsExample | chat-plugins/trivia.js:370 | Five participants with three correct gives each 3. |
| Scoring.NumberPointsAfterKicks | chat-plugins/trivia.js:370 | After kicks leave 5 responders among 3 participants, the shared value is -3. |
| Scoring.Prize | chat-plugins/trivia.js:107 | `(scoreCap - 5) / 15 + 2` is 3, 4 or 5 for the caps 20, 35 and 50. |
| Scoring.RejudgeCountsResponders | chat-plugins/trivia.js:226-248 | Re-judging moves the responder count by exactly the change in the participant's credit and keeps the record's shape. |
| Scoring.RejudgeSameVerdict | chat-plugins/trivia.js:227-239 | A resubmission with the same verdict changes neither the record nor the count. |
| Scoring.RejudgeFlipFlop | chat-plugins/trivia.js:229-247 | Correct then incorrect restores the score and correct-answer count and leaves no points credited. |
| Scoring.LateAnswerCreditedWithoutPoints | chat-plugins/trivia.js:229-236 | A correct Timer answer at the end of the period is credited as a responder with 0 points. |
| Scoring.WinnerScanFound | chat-plugins/trivia.js:324-336 | The search reports a winner exactly when some participant is eligible; the one reported is eligible and carries the reported score. |
| Scoring.WinnerReachedCap | chat-plugins/trivia.js:315-336 | A reported winner was credited this round and has reached the score cap. |
| Scoring.WinnerDependsOnOrder | chat-plugins/trivia.js:323-336 | With the same records, order [a, b] picks a and order [b, a] picks b. |
| Scoring.WinnerMissedAfterFlipFlop | chat-plugins/trivia.js:315-336 | A participant past the cap whose responder index equals the count is not reported. |
| Scoring.ClearAll | chat-plugins/trivia.js:257-262 | Clearing the answer flags keeps the participant set. |
| Scoring.TimerSettleAll | chat-plugins/trivia.js:323-339 | Settling a Timer round keeps the participant set. |
| Scoring.NumberSettleAll | chat-plugins/trivia.js:373-389 | Settling a Number round keeps the participant set. |
| Scoring.SettledRecords | chat-plugins/trivia.js:323-389 | After a round nobody is credited, answered or holding points; a Timer round keeps scores, and a Number round adds the share to exactly the credited. |
| Scoring.ClearAnswered | chat-plugins/trivia.js:256-262 | The loop clears every answer flag and reports whether any was set. |
| Scoring.SettleTimerRound | chat-plugins/trivia.js:314-339 | The corrected Timer loop yields the settled records and the winner of the search in iteration order. |
| Scoring.SettleTimerRoundAsWritten | chat-plugins/trivia.js:323-339 | The loop as written faults exactly when a credited participant's points are outside 1..5; otherwise it agrees with the search. |
| Scoring.SettleNumberRound | chat-plugins/trivia.js:370-389 | The Number loop credits the share, yields the settled records, and yields the winner of the search on the credited scores. |
| Leaderboard.TallyEntry | chat-plugins/trivia.js:415-426 | An entry after adding one record keeps its six slots. |
| Leaderboard.TalliedOver | chat-plugins/trivia.js:415-426 | Adding records keeps every entry six slots long. |
| Leaderboard.TalliedOverEntry | chat-plugins/trivia.js:415-426 | Each listed user with a non-zero score receives exactly their record; every other entry is unchanged. |
| Leaderboard.TalliedGame | chat-plugins/trivia.js:415-426 | After a game, the board gains exactly the scorers, their score and correct answers grow by the record, and no prize point changes. |
| Leaderboard.Accrue | chat-plugins/trivia.js:415-426 | The accrual loop over the participants in iteration order computes the tally. |
| Leaderboard.UpperTop | chat-plugins/trivia.js:437-455 | The largest value is the only value at least itself. |
| Leaderboard.UpperStep | chat-plugins/trivia.js:437-455 | Stepping down to the next lower value adds exactly one value at least it. |
| Leaderboard.DenseRankTop | chat-plugins/trivia.js:437-455 | The best value ranks 1. |
| Leaderboard.DenseRankOrder | chat-plugins/trivia.js:437-455 | A strictly better value has a strictly smaller rank; ranks lie between 1 and the number of values. |
| Leaderboard.InsertBy | chat-plugins/trivia.js:433-435 | Insertion adds exactly the one user. |
| Leaderboard.PermutationWithin | chat-plugins/trivia.js:432-435 | A permutation of a listing of the board's users lists the same users. |
| Leaderboard.InsertBySorted | chat-plugins/trivia.js:433-435 | Insertion keeps the listing sorted by the statistic. |
| Leaderboard.SortByField | chat-plugins/trivia.js:433-435 | The sort is a permutation of the users. |
| Leaderboard.SortByFieldSorted | chat-plugins/trivia.js:433-435 | The sort orders the users by the statistic, ascending. |
| Leaderboard.KeysOf | chat-plugins/trivia.js:430 | `Object.keys` lists every user of the board once. |
| Leaderboard.SortedGap | chat-plugins/trivia.js:437-455 | In a sorted listing every value is at most the current one or at least the next one. |
| Leaderboard.RankStep | chat-plugins/trivia.js:440-455 | The rank counter, bumped when the value changes, is the dense rank of the current value. |
| Leaderboard.DenseRankBottom | chat-plugins/trivia.js:437-455 | The lowest value's rank is the number of distinct values. |
| Leaderboard.GroupsPush | chat-plugins/trivia.js:444-449 | Opening a ladder group with a user of the next rank keeps the groups in rank order. |
| Leaderboard.WithRank | chat-plugins/trivia.js:455 | Writing a rank slot keeps the entry's six slots. |
| Leaderboard.WriteRank | chat-plugins/trivia.js:455 | Storing one more user's rank keeps every stored rank equal to the dense rank. |
| Leaderboard.RankBy | chat-plugins/trivia.js:432-456 | One pass stores every user's dense rank of the statistic and, for prize points, builds the ladder of singletons of the first 15 values. |
| Leaderboard.SameValues | chat-plugins/trivia.js:429-456 | Boards with the same statistics have the same value sets. |
| Leaderboard.LadderCarries | chat-plugins/trivia.js:429-456 | A ladder for a board is a ladder for any board with the same statistics. |
| Leaderboard.RankedSlotStep | chat-plugins/trivia.js:432-456 | A pass adds its rank slot and keeps the slots already ranked. |
| Leaderboard.Rerank | chat-plugins/trivia.js:429-456 | Re-ranking leaves every statistic alone, fills every rank slot with its dense rank, and rebuilds the ladder. |
| Leaderboard.AwardPrize | chat-plugins/trivia.js:427 | Awarding the prize keeps the board's users and entry shapes. |
| Leaderboard.Conclude | chat-plugins/trivia.js:411-456 | The end-of-game update is accrual, then the prize, then re-ranking. |
| Leaderboard.ConcludedEntry | chat-plugins/trivia.js:411-456 | Per user: on the board iff previously there or scored; scorers grow by the record; only the winner gains the prize; every rank is dense. |
| TriviaStore.Store.constructor | chat-plugins/trivia.js:41-49 | The persistent data starts empty. |
| Game.Due | chat-plugins/trivia.js:187-198 | Each mode's closing handler is a question handler, never the next-question handler. |
| Game.CreditedUpdate | chat-plugins/trivia.js:229-242 | Replacing one record moves the number of credited participants by the change in that record's credit. |
| Game.CreditedRemove | chat-plugins/trivia.js:151 | Removing a participant takes exactly their credit, if any, off the number of credited participants. |
| Game.CreditedSame | chat-plugins/trivia.js:257-262 | Records with the same responder indices have the same credited set. |
| Game.RoundClearNoneCredited | chat-plugins/trivia.js:356 | A fresh round has nobody credited. |
| Game.CreditBound | chat-plugins/trivia.js:229 | A credited participant is counted in the credited set. |
| Game.Uncredited | chat-plugins/trivia.js:338 | With the count at 0 every record is withdrawn with no points. |
| Game.RosterAdd | chat-plugins/trivia.js:131-140 | Signing up a new user keeps the roster invariant, leaves the credited number alone, and keeps a fresh round fresh. |
| Game.RosterKick | chat-plugins/trivia.js:151 | Deleting a participant keeps the roster invariant and takes exactly that participant's credit off the credited number. |
| Game.RosterUpdate | chat-plugins/trivia.js:226-248 | Replacing a record keeps the roster when the count moves with the credit. |
| Game.RosterRejudge | chat-plugins/trivia.js:212-248 | Marking and re-judging an answer keeps the roster invariant and moves the credited number exactly as it moves the responder count. |
| Game.RosterClear | chat-plugins/trivia.js:257-262 | Clearing the answer flags keeps the roster and the credited set; with count 0 the round is fresh. |
| Game.RosterAnyCount | chat-plugins/trivia.js:241 | With every record withdrawn, any count is consistent outside First mode. |
| Game.RosterTimerSettle | chat-plugins/trivia.js:323-356 | After a Timer round the roster holds with count 0 and the round is fresh. |
| Game.RosterNumberSettle | chat-plugins/trivia.js:373-405 | After a Number round the roster holds with count 0 and the round is fresh. |
| Game.Refusal | chat-plugins/trivia.js:202-209 | An answer is refused exactly outside the question phase, from a non-participant, as a second First-mode answer, or with an empty id. |
| Game.WithCategory | chat-plugins/trivia.js:162-165 | The filter keeps exactly the questions of the category, each as often as the database holds it, and nothing else. |
| Game.Without | chat-plugins/trivia.js:151 | Deleting a user from the map's order keeps every other user, once each. |
| Game.SharesAddress | chat-plugins/trivia.js:125-129 | The scan reports exactly when an online participant has used the address. |
| Game.Registry.constructor | chat-plugins/trivia.js:83 | No game runs at first. |
| Game.Trivia.constructor | chat-plugins/trivia.js:105-118 | A new game is in sign-up with no participants, no timer, counters at 0, and the prize of its cap. |
| Game.Trivia.AddParticipant | chat-plugins/trivia.js:121-142 | Refused outside sign-up, for a participant, or when the address is shared; otherwise the user is added with a fresh record at the end of the order. |
| Game.Trivia.KickParticipant | chat-plugins/trivia.js:144-153 | Refused under three participants, for an empty id, or for a non-participant; otherwise exactly that record is deleted, and a credited participant's deletion adds one dropped responder. |
| Game.Trivia.UpdateLeaderboard | chat-plugins/trivia.js:411-461 | The game's records accrue, the winner gets the prize, the board is re-ranked, and the game leaves the registry. |
| Game.Trivia.Adjourn | chat-plugins/trivia.js:272-277 | The game goes on with the given records and inactivity count, no dropped responder, and the next question due. |
| Game.Trivia.Resolve | chat-plugins/trivia.js:345-360 | A winner ends the game; otherwise the count resets and the next question is due. |
| Game.Trivia.AskQuestion | chat-plugins/trivia.js:172-199 | With no question left the game ends with no winner; otherwise the last entry leaves the draw, and either its question is asked with the mode's handler pending, or an `undefined` entry throws with no handler pending and nothing else changed. |
| Game.Trivia.StartGame | chat-plugins/trivia.js:155-170 | Refused outside sign-up or under three participants; a category game over a database with an `undefined` entry throws in the filter and changes nothing; otherwise the draw is the given permutation of the pool and the first question is asked, throwing if it is `undefined`. |
| Game.Trivia.NoAnswer | chat-plugins/trivia.js:253-278 | The flags are cleared; the seventh silent question in a row ends the game with no winner; otherwise the next question is due. |
| Game.Trivia.FirstAnswer | chat-plugins/trivia.js:280-307 | The answerer gains 5 points and a correct answer; at the cap they win, otherwise the flags clear and the next question is due. |
| Game.Trivia.JudgeFirst | chat-plugins/trivia.js:211-224 | A correct First-mode answer scores; an incorrect one only marks the participant as having answered. |
| Game.Trivia.JudgeCredit | chat-plugins/trivia.js:211-250 | A Timer or Number answer marks the participant and re-judges their credit with the Timer points of the elapsed time; the responder count stays the credited number plus the responders dropped by kicks. |
| Game.Trivia.AnswerQuestion | chat-plugins/trivia.js:201-251 | A refused answer changes nothing; otherwise it is judged per mode. |
| Game.Trivia.TimerAnswers | chat-plugins/trivia.js:309-360 | With no responder it is an unanswered question; otherwise the credited are settled and the winner, if any, ends the game. |
| Game.Trivia.CloseTimerRound | chat-plugins/trivia.js:312-360 | The credited are withdrawn keeping their scores; the first winner in iteration order ends the game, else the count resets. |
| Game.Trivia.NumberAnswers | chat-plugins/trivia.js:362-409 | With no responder it is an unanswered question; otherwise the credited are settled. |
| Game.Trivia.CloseNumberRound | chat-plugins/trivia.js:365-409 | The credited share the points and are withdrawn; the winner ends the game, else a running inactivity count becomes 9. |
| Game.Trivia.EndGame | chat-plugins/trivia.js:489-493 | The timer is cancelled and the game leaves the registry, with the leaderboard untouched. |
| Game.Trivia.Fire | chat-plugins/trivia.js:187-198 | The pending handler runs once with that handler's outcome: the next question as AskQuestion states it, an unanswered question, or the Timer or Number close; with none pending nothing changes. |
| Workshop.SplitOn | chat-plugins/trivia.js:574 | `split` yields at least one piece and no piece contains the separator. |
| Workshop.Find | chat-plugins/trivia.js:652 | The first occurrence of the character is found. |
| Workshop.JoinSplit | chat-plugins/trivia.js:574 | Joining the split pieces gives back the string. |
| Workshop.SplitJoin | chat-plugins/trivia.js:574 | Splitting joined separator-free pieces gives back the pieces. |
| Workshop.TrimStart | chat-plugins/trivia.js:569 | Drops exactly the leading white space. |
| Workshop.TrimEnd | chat-plugins/trivia.js:569 | Drops exactly the trailing white space. |
| Workshop.Trim | chat-plugins/trivia.js:569 | A trimmed string has no white space at either end. |
| Workshop.TrimKeepsTrimmed | chat-plugins/trivia.js:569 | A string with no white space at either end is left unchanged, so trimming is idempotent. |
| Workshop.IndexOf | chat-plugins/trivia.js:576 | `indexOf` gives the first position of the entry, or -1 exactly when it is absent. |
| Workshop.KeepFirstMembers | chat-plugins/trivia.js:574-577 | De-duplication keeps every answer, each once. |
| Workshop.KeepFirstOfDistinct | chat-plugins/trivia.js:574-577 | A list with no repeats is left as it is. |
| Workshop.DedupProbe | chat-plugins/trivia.js:576 | The loop's probe finds an earlier copy exactly when the entry occurred before. |
| Workshop.DedupAnswers | chat-plugins/trivia.js:575-577 | The backward splicing loop keeps the first occurrence of every answer, in order. |
| Workshop.AnswerIds | chat-plugins/trivia.js:574 | The answer ids are the normalised comma-separated pieces of the field. |
| Workshop.AnswersNeverEmpty | chat-plugins/trivia.js:574-578 | As written, the de-duplicated answer list always has an entry. |
| Workshop.EmptyAnswerIdKept | chat-plugins/trivia.js:574-578 | The answers field ",," yields the single answer id "". |
| Workshop.NonEmpty | chat-plugins/trivia.js:574-578 | Keeps exactly the non-empty ids. |
| Workshop.UsableAnswers | chat-plugins/trivia.js:574-578 | The corrected answers are distinct and non-empty, and empty exactly when every id is empty. |
| Workshop.BelowIrreflexive | chat-plugins/trivia.js:593 | String `<` is irreflexive. |
| Workshop.BelowTransitive | chat-plugins/trivia.js:593 | String `<` is transitive. |
| Workshop.BelowTotal | chat-plugins/trivia.js:593 | Any two distinct strings are ordered by `<`. |
| Workshop.Slot | chat-plugins/trivia.js:591-597 | The slot is the first entry of a greater category, or the end. |
| Workshop.SlotSplits | chat-plugins/trivia.js:591-597 | In a sorted list every entry from the slot on has a greater category. |
| Workshop.InsertedSorted | chat-plugins/trivia.js:591-604 | Insertion keeps a category-sorted review list sorted. |
| Workshop.InsertedAdds | chat-plugins/trivia.js:599-604 | Insertion adds exactly the new submission, at its slot. |
| Workshop.SubmitForReview | chat-plugins/trivia.js:591-604 | The review list becomes the old list with the submission inserted at its slot. |
| Workshop.Decimal | chat-plugins/trivia.js:645 | A number's decimal form is all digits. |
| Workshop.ValueDecimal | chat-plugins/trivia.js:663-664 | Reading the decimal form of a number gives the number. |
| Workshop.ParseParts | chat-plugins/trivia.js:645-646 | A parsed list has one entry per comma-separated part. |
| Workshop.ParseIndexList | chat-plugins/trivia.js:645-646 | An accepted index list has one entry per comma-separated part. |
| Workshop.RenderPiece | chat-plugins/trivia.js:645 | A written entry is non-empty, starts with a digit and has no comma. |
| Workshop.RenderAll | chat-plugins/trivia.js:645 | Every written entry is non-empty, starts with a digit and has no comma. |
| Workshop.ParseRenderPiece | chat-plugins/trivia.js:662-664 | A written entry parses back to itself. |
| Workshop.ParseRenderParts | chat-plugins/trivia.js:645-646 | Written entries parse back to themselves. |
| Workshop.ParseRender | chat-plugins/trivia.js:645-646 | A written-out index list parses back to the same entries. |
| Workshop.DownFromMembers | chat-plugins/trivia.js:671-673 | The do-while pushes the right end, and every number down to the left end. |
| Workshop.ExpandedNamed | chat-plugins/trivia.js:651-676 | The expansion holds exactly the numbers the entries name. |
| Workshop.NamedBounds | chat-plugins/trivia.js:651-676 | Named numbers lie in 0..len; 0 only from a downward range ending at 0. |
| Workshop.ReversedSpan | chat-plugins/trivia.js:662-676 | A downward range with a valid left end names only its right end. |
| Workshop.ExpandIndices | chat-plugins/trivia.js:651-676 | The expansion loop computes the expansion, visiting entries from the last. |
| Workshop.InsertDownSpec | chat-plugins/trivia.js:678-680 | Insertion keeps the list sorted downwards and adds exactly the element. |
| Workshop.InsertDownSorted | chat-plugins/trivia.js:678-680 | Insertion keeps a list sorted downwards. |
| Workshop.InsertDownCount | chat-plugins/trivia.js:678-680 | Insertion adds exactly the element. |
| Workshop.SortDownSpec | chat-plugins/trivia.js:678-680 | `sort((a, b) => b - a)` is a downward-sorted permutation. |
| Workshop.DropRepeatsFromOrder | chat-plugins/trivia.js:680-682 | Dropping repeats of a downward-sorted list makes it strictly decreasing. |
| Workshop.DropRepeatsFromMembers | chat-plugins/trivia.js:680-682 | An entry is kept exactly when it differs from the one before it. |
| Workshop.NormalizedSpec | chat-plugins/trivia.js:678-682 | The normalised list holds every number once, strictly decreasing. |
| Workshop.SpliceOne | chat-plugins/trivia.js:690 | A `splice` that takes nothing leaves the list alone. |
| Workshop.SpliceOneConserves | chat-plugins/trivia.js:690 | `splice(start, 1)` loses nothing: the rest plus the taken entry is the list. |
| Workshop.RemovedAsWritten | chat-plugins/trivia.js:688-697 | The loop as written makes one splice per index. |
| Workshop.RemovedBefore | chat-plugins/trivia.js:689-697 | The loop from position i down makes one splice per index it visits. |
| Workshop.RemovedLargestFirst | chat-plugins/trivia.js:687-697 | The corrected removal makes one splice per index. |
| Workshop.LargestFirstLeaves | chat-plugins/trivia.js:687-697 | Removing distinct in-range numbers largest first leaves exactly the entries not named. |
| Workshop.LargestFirstTakes | chat-plugins/trivia.js:688-692 | Each splice takes the named entry from its original position. |
| Workshop.LargestFirstConserves | chat-plugins/trivia.js:688-697 | The entries left plus the entries taken are the entries there were. |
| Workshop.AsWrittenConserves | chat-plugins/trivia.js:688-697 | Removal as written loses nothing: the entries left plus the defined entries taken are the entries there were. |
| Workshop.BeforeConserves | chat-plugins/trivia.js:689-697 | Each stretch of the loop loses nothing. |
| Workshop.AsWrittenOne | chat-plugins/trivia.js:688-697 | Removal by one number in range takes exactly that entry and keeps the others in order. |
| Workshop.ZeroTakesLast | chat-plugins/trivia.js:690 | Number 0 splices at -1, so a list naming 0 alone takes the last entry. |
| Workshop.SmallestFirstRemovesWrongEntry | chat-plugins/trivia.js:688-697 | As written, removing 2 and 1 from [a, b, c] keeps b and takes a and c, not the named a and b. |
| Workshop.KeepsThird | chat-plugins/trivia.js:688-697 | Removing numbers 1 and 2 from three submissions should keep the third. |
| Workshop.LargestFirstKeepsThird | chat-plugins/trivia.js:688-697 | The corrected removal of 2 and 1 keeps c and takes b and then a. |
| Workshop.SmallestFirstTakesNothing | chat-plugins/trivia.js:688-693 | As written, removing 3 and 2 from three submissions takes b and then nothing, so an accept appends an `undefined` entry. |
| Workshop.RemoveAsWritten | chat-plugins/trivia.js:688-697 | The loop from the last chosen number to the first computes the removal as written, collecting what every splice returns. |
| Workshop.ChosenNamed | chat-plugins/trivia.js:643-682 | The chosen numbers are exactly the named ones, strictly decreasing and within 0..len. |
| Workshop.Review | chat-plugins/trivia.js:633-706 | The command's result and new question and review lists are those of the review function, which removes as written and appends what the splices returned. |
| Workshop.ChosenRemovable | chat-plugins/trivia.js:643-682 | When 0 is not named, the chosen numbers can be removed one after the other. |
| Workshop.ChosenRemoval | chat-plugins/trivia.js:643-697 | The intended removal by such a list keeps exactly the unnamed submissions and takes the named ones, largest first. |
| Workshop.ReviewRemovesNamed | chat-plugins/trivia.js:643-702 | Accept or reject by a list naming exactly one submission removes that one, keeping the others in order, and an accept appends it. |
| Workshop.SingleChosen | chat-plugins/trivia.js:651-682 | A list naming one number chooses that number alone. |
| Workshop.IntendedRemovesNamed | chat-plugins/trivia.js:643-702 | The intended command, by a list not naming 0, keeps exactly the unnamed submissions and appends the named ones, largest first. |
| Workshop.DecreasingCount | chat-plugins/trivia.js:684 | A list without repeats has as many entries as distinct values. |
| Workshop.ReviewNothingNamed | chat-plugins/trivia.js:684-685 | A list naming nothing in range is refused without change. |
| Workshop.ParseOneToZero | chat-plugins/trivia.js:662-673 | "1-0" is an index list of one downward range, and is not "all". |
| Workshop.ZeroOnEmptyList | chat-plugins/trivia.js:662-697 | "1-0" on an empty review list is carried out as a removal of one submission, and an accept appends one `undefined` entry. |
| Workshop.OneToZeroChosen | chat-plugins/trivia.js:662-682 | "1-0" is an index list, not "all", and on an empty review list chooses 0. |
| Workshop.NothingAtZero | chat-plugins/trivia.js:690 | Splicing number 0 from an empty list takes `undefined`. |
| Workshop.AcceptConserves | chat-plugins/trivia.js:637-702 | Accepting keeps the database in front and appends one entry per chosen number; the defined entries appended plus the submissions kept are the submissions there were. |
| Workshop.RejectOnlyDrops | chat-plugins/trivia.js:637-702 | Rejecting leaves the database alone and only drops submissions. |
| Workshop.ReadSubmissionSpec | chat-plugins/trivia.js:562-578 | A question is read iff there are three fields, a category the table knows ("constructor" included) other than "random", and a non-blank question; its answers are every answer id, once each in first-occurrence order, an empty id included, and never none. |
| Workshop.Add | chat-plugins/trivia.js:558-607 | A refused argument stores nothing; an add appends the read question to the database; a submit inserts it at the category's slot. |
| Workshop.SubmitKeepsOrder | chat-plugins/trivia.js:591-604 | Submitting keeps a category-ordered review list ordered and adds exactly the new question. |

## Left out

- Rendering of room messages, reply texts and HTML escaping are left out. Replies are modelled as an enumeration, and a stored question keeps its trimmed text unescaped.
- Timers are left out. `setTimeout` and `clearTimeout` become the `pending` field and `Fire`, and `Date.now()` becomes the `now` parameter.
- Persistence is left out. Writing `triviadata.json` is not modelled, and the loaded data starts empty.
- The online-user lookup and address check are not modelled. `Users.get(...).ips` becomes the `ipsOf` parameter of `AddParticipant`.
- `randomize` is not modelled. The shuffled draw is the `shuffled` parameter of `StartGame`, and `StartGame` requires it to be a permutation of the pool.
- `Tools.levenshtein` is not part of this model. It is modelled by the standard edit distance `EditDistance`.
- `toId` is not part of this model. `ToId` keeps ASCII letters and digits only and lower-cases ASCII. Non-ASCII handling is not modelled.
- `Trim` treats only ASCII white space (space, tab, newline, carriage return, form feed, vertical tab) as space. JavaScript's Unicode white space is not modelled.
- Permission checks, room-id checks and command dispatch are not modelled. Neither are the `new`, `join`, `status`, `review`, `delete`, `qs`, `ladder` and `rank` commands, which are outside the core.
- Game creation's argument parsing is not modelled. The mode, category and cap are constructor parameters, and the cap must be 20, 35 or 50.
- Index numbers beyond floating-point precision are not modelled. `Number(...)` on very long digit strings rounds, but the model reads any digit string exactly.
- The order of ties is not modelled. `Array.prototype.sort` with equal keys orders ties as the engine chooses, and the model uses a stable insertion sort. Ranks do not depend on ties; the user chosen for a ladder group does.
- The float arithmetic of the Number points is not modelled. The model computes on exact rationals before truncation, and the floating-point rounding of `4 * (c - 1) / d` is not modelled.
- Leaderboard.TallyEntry: a new leaderboard entry is created with six slots whose rank slots start at 0. The source creates three slots, which the re-ranking in the same call then extends.
- Leaderboard.TallyEntry: a participant whose id is "constructor" is treated like any other. In the source, `leaderboard['constructor']` finds the inherited `Object` function, so that user's records never create a board entry, and a prize for that id is added to a property of `Object` instead.
- Game.Trivia.TimerAnswers: a round with a credited participant holding 0 points (a correct answer 15 s or more after the question) is settled with the corrected loop. In the source the handler throws at line 330 when it reaches that participant, leaving earlier participants settled, the game in its intermission with no timer pending, and the count not reset, until a moderator ends the game (see Findings).
- Game.Trivia.CloseTimerRound: the same throw at line 330 is not modelled. Also, the winner is the participant's key. The source takes the id of the user's current name (`toId` of `Users.get(id).name`), so after a rename during the game the prize goes to the new id's entry, or line 427 throws when that id has no board entry (after the records have accrued, before re-ranking and before the game leaves the registry). Renames are not modelled.
- Game.Trivia.CloseNumberRound: the winner is the participant's key, not the id of the user's current name, so the rename case described for CloseTimerRound is not modelled either.
- Game.Trivia.Fire: the Timer close passes on the corrected settling; the source's throw at line 330 is not modelled (see Game.Trivia.TimerAnswers).

## Findings

| source | as written | input that shows it | evidently intended | confidence | as-written member | corrected member |
|---|---|---|---|---|---|---|
| chat-plugins/trivia.js:330 | `innerBuffer[scoreData.points].push(...)` assumes every credited participant has 1 to 5 points | a Timer answer judged correct 15 s or more after the question (or with the clock behind): credited with `points` 0, so `innerBuffer[0]` is undefined and the round's handler throws | a credited participant without points is settled like the others (listed under no group, withdrawn, searched for a winner) | not executed | Scoring.SettleTimerRoundAsWritten | Scoring.SettleTimerRound |
| chat-plugins/trivia.js:688-697 | the splice loop runs from the last index of a list sorted largest first, so it removes the smallest number first and later numbers point past shifted entries | three submissions [a, b, c] and the argument "1,2" (or "1-2"): a and c are removed and b is kept; with "2,3", b is removed and the second splice takes nothing, so an accept appends `undefined` | remove the named submissions, largest number first, keeping the others | not executed | Workshop.SmallestFirstRemovesWrongEntry | Workshop.IntendedRemovesNamed |
| chat-plugins/trivia.js:574-578 | the "No valid answers" refusal can never fire, because `split` always yields a piece and empty ids are kept | the answers field ",," is stored with the single answer id "", which no answer can match since empty answers are refused | answer ids that normalise to nothing are dropped, and a field with none left is refused | not executed | Workshop.AnswersNeverEmpty | Workshop.UsableAnswers |

The Timer round of the game uses the corrected settling. The accept/reject
command and the add/submit command keep the behaviour as written, because
their results persist in the question database; the corrected removal and
the corrected answer list are stated beside them as `IntendedReviewOf` and
`UsableAnswers`.
