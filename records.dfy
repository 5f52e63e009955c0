/**
 * The record shapes of the user service's database: registered users, one
 * statistics row per user, and one row per submitted game, with the defaults
 * their columns declare. Timestamps filled from the clock are not modelled;
 * days are day numbers.
 */
module Records {
  import opened Wrappers

  /** A row of the `users` table. */
  datatype User = User(
    id: int,
    username: string,
    email: string,
    fullName: string,
    hashedPassword: string,
    isActive: bool)

  /** The columns of a `user_stats` row, apart from its key. */
  datatype StatsValue = StatsValue(
    sparks: int,
    brainLevel: int,
    synapseStreak: int,
    bestSynapseStreak: int,
    mindRating: int,
    totalGamesPlayed: int,
    totalTimeTrained: int,
    lastActivityDay: Option<int>)

  /** The column defaults of a fresh `user_stats` row. */
  const DefaultStats := StatsValue(
    sparks := 0, brainLevel := 1, synapseStreak := 0, bestSynapseStreak := 0, mindRating := 0,
    totalGamesPlayed := 0, totalTimeTrained := 0, lastActivityDay := None)

  /**
   * A `user_stats` row. The service updates its columns in place; the owning
   * user never changes.
   */
  class UserStats {
    const userId: int
    var sparks: int
    var brainLevel: int
    var synapseStreak: int
    var bestSynapseStreak: int
    var mindRating: int
    var totalGamesPlayed: int
    var totalTimeTrained: int
    var lastActivityDay: Option<int>

    /** The current column values. */
    function Value(): StatsValue
      reads this
    {
      StatsValue(sparks, brainLevel, synapseStreak, bestSynapseStreak, mindRating,
                 totalGamesPlayed, totalTimeTrained, lastActivityDay)
    }

    /** `UserStats(user_id=...)`: every other column takes its default. */
    constructor (userId: int)
      ensures this.userId == userId
      ensures sparks == 0 && brainLevel == 1 && synapseStreak == 0 && bestSynapseStreak == 0
      ensures mindRating == 0 && totalGamesPlayed == 0 && totalTimeTrained == 0
      ensures lastActivityDay == None
      ensures Value() == DefaultStats
    {
      this.userId := userId;
      sparks, brainLevel, synapseStreak, bestSynapseStreak := 0, 1, 0, 0;
      mindRating, totalGamesPlayed, totalTimeTrained := 0, 0, 0;
      lastActivityDay := None;
    }
  }

  /** A row of the `game_scores` table (its key and timestamp left out). */
  datatype GameScore = GameScore(
    userId: int,
    gameType: string,
    difficulty: string,
    score: int,
    sparksEarned: int,
    timeTaken: int,
    accuracy: real)

  const DefaultDifficulty := "medium"

  /** A `game_scores` row given only its required columns: the rest take their defaults. */
  function GameScoreWithDefaults(userId: int, gameType: string, score: int): (g: GameScore)
    ensures g.userId == userId && g.gameType == gameType && g.score == score
    ensures g.difficulty == "medium" && g.sparksEarned == 0 && g.timeTaken == 0 && g.accuracy == 0.0
  {
    GameScore(userId, gameType, DefaultDifficulty, score, 0, 0, 0.0)
  }
}
