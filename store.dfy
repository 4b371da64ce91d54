/**
 * The trivia data shared by every game and the question workshop: the
 * leaderboard, the ladder, the question database and the submissions
 * waiting for review.
 */
module TriviaStore {
  import opened TriviaTypes
  import opened Leaderboard

  class Store {
    var leaderboard: Board
    var ladder: seq<seq<UserId>>
    var questions: seq<Entry>
    var submissions: seq<Question>

    ghost predicate Valid()
      reads this
    {
      WellFormed(leaderboard)
    }

    /** The data of a fresh installation: everything empty. */
    constructor ()
      ensures Valid()
      ensures leaderboard == map[] && ladder == [] && questions == [] && submissions == []
    {
      leaderboard, ladder, questions, submissions := map[], [], [], [];
    }
  }
}
