/**
 * The statistics side of the user service: the daily synapse streak, the
 * update a submitted game makes to its player's statistics row, and the
 * get-or-create of that row. The current day is a parameter (a day number),
 * and so is the mind-rating update, whose floating-point arithmetic is not
 * modelled.
 */
module Stats {
  import opened Wrappers
  import opened Records
  import opened Progression

  /** The body of a score submission. */
  datatype ScoreSubmission = ScoreSubmission(
    gameType: string,
    difficulty: string,
    score: int,
    timeTaken: int,
    accuracy: real,
    questionsAnswered: Option<int>,
    correctAnswers: Option<int>,
    bestStreak: Option<int>)

  /**
   * What the service keeps true of every statistics row: a non-negative
   * sparks total, the brain level belonging to it, and a best streak no
   * smaller than the current one.
   */
  ghost predicate Consistent(v: StatsValue)
  {
    && v.sparks >= 0
    && v.brainLevel == BrainLevel(v.sparks)
    && 0 <= v.synapseStreak <= v.bestSynapseStreak
    && v.totalGamesPlayed >= 0
  }

  /** The column defaults already satisfy it: level 1 is the level of 0 sparks. */
  lemma DefaultStatsConsistent()
    ensures DefaultStats.brainLevel == BrainLevel(DefaultStats.sparks)
    ensures Consistent(DefaultStats)
  {
    FirstLevels();
  }

  // ---------------------------------------------------------------------------
  // Synapse streak
  // ---------------------------------------------------------------------------

  /** The streak after activity on `today`, given the streak and the last active day. */
  function NextStreak(streak: int, lastDay: Option<int>, today: int): (next: int)
    ensures lastDay.None? ==> next == 1
    ensures lastDay.Some? && today - lastDay.value == 1 ==> next == streak + 1
    ensures lastDay.Some? && today - lastDay.value > 1 ==> next == 1
    ensures lastDay.Some? && today - lastDay.value <= 0 ==> next == streak
  {
    match lastDay
    case None => 1
    case Some(last) =>
      var gap := today - last;
      if gap == 1 then streak + 1 else if gap > 1 then 1 else streak
  }

  /**
   * `update_synapse_streak` on a row's values: the streak steps by the day
   * gap, the best streak is raised to it, the last active day becomes today,
   * and nothing else changes.
   */
  function StreakUpdate(v: StatsValue, today: int): (w: StatsValue)
    ensures w.synapseStreak == NextStreak(v.synapseStreak, v.lastActivityDay, today)
    ensures w.bestSynapseStreak == Max(v.bestSynapseStreak, w.synapseStreak)
    ensures w.lastActivityDay == Some(today)
    ensures w == v.(synapseStreak := w.synapseStreak, bestSynapseStreak := w.bestSynapseStreak,
                    lastActivityDay := Some(today))
  {
    var streak := NextStreak(v.synapseStreak, v.lastActivityDay, today);
    var best := if streak > v.bestSynapseStreak then streak else v.bestSynapseStreak;
    v.(synapseStreak := streak, bestSynapseStreak := best, lastActivityDay := Some(today))
  }

  /** A second activity on the same day changes nothing. */
  lemma StreakUpdateSameDay(v: StatsValue, today: int)
    ensures StreakUpdate(StreakUpdate(v, today), today) == StreakUpdate(v, today)
  {
  }

  /** The row after activity on each of `days` consecutive days starting at `first`. */
  function DailyRun(v: StatsValue, first: int, days: nat): StatsValue
    decreases days
  {
    if days == 0 then v else StreakUpdate(DailyRun(v, first, days - 1), first + days - 1)
  }

  /**
   * After a first activity, or after a break of more than a day, activity on
   * `days` consecutive days gives a streak of `days`, and the best streak is
   * at least that.
   */
  lemma {:induction false} DailyRunStreak(v: StatsValue, first: int, days: nat)
    requires days >= 1
    requires v.lastActivityDay.None? || first - v.lastActivityDay.value > 1
    ensures DailyRun(v, first, days).synapseStreak == days
    ensures DailyRun(v, first, days).bestSynapseStreak >= days
    ensures DailyRun(v, first, days).lastActivityDay == Some(first + days - 1)
  {
    if days > 1 {
      DailyRunStreak(v, first, days - 1);
    }
  }

  /** Updating a row with a consistent streak keeps it consistent and never lowers the best streak. */
  lemma StreakUpdateKeepsConsistent(v: StatsValue, today: int)
    requires Consistent(v)
    ensures Consistent(StreakUpdate(v, today))
    ensures StreakUpdate(v, today).bestSynapseStreak >= v.bestSynapseStreak
  {
  }

  /** `update_synapse_streak`, changing the row in place. */
  method UpdateSynapseStreak(stats: UserStats, today: int)
    modifies stats
    ensures stats.Value() == StreakUpdate(old(stats.Value()), today)
  {
    match stats.lastActivityDay {
      case Some(lastDay) =>
        var daysDiff := today - lastDay;
        if daysDiff == 1 {
          stats.synapseStreak := stats.synapseStreak + 1;
        } else if daysDiff > 1 {
          stats.synapseStreak := 1;
        }
      case None =>
        stats.synapseStreak := 1;
    }
    if stats.synapseStreak > stats.bestSynapseStreak {
      stats.bestSynapseStreak := stats.synapseStreak;
    }
    stats.lastActivityDay := Some(today);
  }

  // ---------------------------------------------------------------------------
  // The statistics update of a score submission
  // ---------------------------------------------------------------------------

  /**
   * The best streak after a game reports its own best streak: raised only
   * when one is reported, it is non-zero and it beats the current best.
   */
  function RaiseBest(best: int, reported: Option<int>): (r: int)
    ensures r >= best
    ensures r != best ==> reported == Some(r) && r != 0
    ensures reported.Some? && reported.value != 0 ==> r == Max(best, reported.value)
  {
    if reported.Some? && reported.value != 0 && reported.value > best then reported.value else best
  }

  /**
   * The update `submit_game_score` makes to a row: sparks grow by exactly the
   * sparks earned, one more game and its time are counted, the mind rating is
   * recomputed from the old rating and the score, the best streak takes the
   * game's reported best streak into account, the brain level is recomputed
   * from the new total, and then the daily streak is updated.
   */
  function ApplyScore(v: StatsValue, submission: ScoreSubmission, sparksEarned: int,
                      rating: (int, int) -> int, today: int): (w: StatsValue)
    ensures w.sparks == v.sparks + sparksEarned
    ensures w.totalGamesPlayed == v.totalGamesPlayed + 1
    ensures w.totalTimeTrained == v.totalTimeTrained + submission.timeTaken
    ensures w.mindRating == rating(v.mindRating, submission.score)
    ensures w.brainLevel == BrainLevel(w.sparks)
    ensures w.synapseStreak == NextStreak(v.synapseStreak, v.lastActivityDay, today)
    ensures w.bestSynapseStreak == Max(RaiseBest(v.bestSynapseStreak, submission.bestStreak), w.synapseStreak)
    ensures w.lastActivityDay == Some(today)
  {
    var newSparks := v.sparks + sparksEarned;
    var folded := v.(
      sparks := newSparks,
      totalGamesPlayed := v.totalGamesPlayed + 1,
      totalTimeTrained := v.totalTimeTrained + submission.timeTaken,
      mindRating := rating(v.mindRating, submission.score),
      bestSynapseStreak := RaiseBest(v.bestSynapseStreak, submission.bestStreak),
      brainLevel := BrainLevel(newSparks));
    StreakUpdate(folded, today)
  }

  /**
   * A submission keeps a consistent row consistent, and since a game always
   * earns at least the minimum, the sparks total strictly grows and the brain
   * level never drops.
   */
  lemma ApplyScoreKeepsConsistent(v: StatsValue, submission: ScoreSubmission,
                                  rating: (int, int) -> int, today: int)
    requires Consistent(v)
    ensures var w := ApplyScore(v, submission, CalculateSparks(submission.score, submission.difficulty, submission.accuracy), rating, today);
      && Consistent(w)
      && w.sparks >= v.sparks + MinSparks
      && w.brainLevel >= v.brainLevel
      && w.bestSynapseStreak >= v.bestSynapseStreak
  {
    var earned := CalculateSparks(submission.score, submission.difficulty, submission.accuracy);
    BrainLevelMonotone(v.sparks, v.sparks + earned);
  }

  /** The submission's update of a row, in place, as the source does it field by field. */
  method RecordScore(stats: UserStats, submission: ScoreSubmission, sparksEarned: int,
                     rating: (int, int) -> int, today: int)
    modifies stats
    ensures stats.Value() == ApplyScore(old(stats.Value()), submission, sparksEarned, rating, today)
  {
    stats.sparks := stats.sparks + sparksEarned;
    stats.totalGamesPlayed := stats.totalGamesPlayed + 1;
    stats.totalTimeTrained := stats.totalTimeTrained + submission.timeTaken;
    stats.mindRating := rating(stats.mindRating, submission.score);
    if submission.bestStreak.Some? && submission.bestStreak.value != 0
       && submission.bestStreak.value > stats.bestSynapseStreak {
      stats.bestSynapseStreak := submission.bestStreak.value;
    }
    stats.brainLevel := CalculateBrainLevel(stats.sparks);
    UpdateSynapseStreak(stats, today);
  }

  // ---------------------------------------------------------------------------
  // The statistics table
  // ---------------------------------------------------------------------------

  /**
   * `.filter(UserStats.user_id == userId).first()`, as the index of the row
   * found. `user_id` is a unique column (database.py:44), so "first" picks out
   * the one matching row whatever order SQL returns.
   */
  function FindStats(rows: seq<UserStats>, userId: int): (r: Option<nat>)
    ensures r.Some? ==> r.value < |rows| && rows[r.value].userId == userId
    ensures r.Some? ==> forall j :: 0 <= j < r.value ==> rows[j].userId != userId
    ensures r.None? <==> forall j :: 0 <= j < |rows| ==> rows[j].userId != userId
  {
    if |rows| == 0 then None
    else if rows[0].userId == userId then Some(0)
    else match FindStats(rows[1..], userId)
      case None =>
        assert forall j :: 1 <= j < |rows| ==> rows[j] == rows[1..][j - 1];
        None
      case Some(k) => Some(k + 1)
  }

  /** The `user_stats` rows (at most one per user) and the `game_scores` rows. */
  class StatsStore {
    var rows: seq<UserStats>
    var scores: seq<GameScore>

    /** The unique constraint on `user_stats.user_id`. */
    ghost predicate Valid()
      reads this
    {
      forall i, j :: 0 <= i < |rows| && 0 <= j < |rows| && i != j ==> rows[i].userId != rows[j].userId
    }

    constructor ()
      ensures Valid() && rows == [] && scores == []
    {
      rows := [];
      scores := [];
    }

    /**
     * `get_or_create_user_stats`: an existing row is returned untouched and
     * the table is unchanged; otherwise exactly one fresh row with the
     * defaults is appended. Either way the user has a row afterwards, so a
     * second call returns the same row and changes nothing.
     */
    method GetOrCreate(userId: int) returns (stats: UserStats)
      requires Valid()
      modifies this
      ensures Valid() && scores == old(scores)
      ensures stats.userId == userId && stats in rows
      ensures FindStats(rows, userId).Some? && rows[FindStats(rows, userId).value] == stats
      ensures FindStats(old(rows), userId).Some? ==>
        rows == old(rows) && stats == old(rows)[FindStats(old(rows), userId).value]
      ensures FindStats(old(rows), userId).None? ==>
        rows == old(rows) + [stats] && fresh(stats) && stats.Value() == DefaultStats
    {
      match FindStats(rows, userId) {
        case Some(i) =>
          stats := rows[i];
        case None =>
          stats := new UserStats(userId);
          ghost var before := rows;
          rows := rows + [stats];
          assert forall j :: 0 <= j < |before| ==> rows[j] == before[j];
          assert forall j :: 0 <= j < |before| ==> rows[j].userId != userId;
          assert rows[|before|].userId == userId;
          assert FindStats(rows, userId) == Some(|before|);
      }
    }

    /**
     * The recording part of `submit_game_score`: the sparks for the game are
     * computed, one `game_scores` row is appended, and the player's statistics
     * row (created first if missing) receives the update; every other
     * player's row keeps its values.
     */
    method SubmitGameScore(userId: int, submission: ScoreSubmission, rating: (int, int) -> int, today: int)
      returns (game: GameScore)
      requires Valid()
      modifies this, rows
      ensures Valid()
      ensures game == GameScore(userId, submission.gameType, submission.difficulty, submission.score,
                                CalculateSparks(submission.score, submission.difficulty, submission.accuracy),
                                submission.timeTaken, submission.accuracy)
      ensures scores == old(scores) + [game]
      ensures FindStats(old(rows), userId).Some? ==>
        var i := FindStats(old(rows), userId).value;
        && rows == old(rows)
        && rows[i].Value() == ApplyScore(old(rows[i].Value()), submission, game.sparksEarned, rating, today)
        && forall j :: 0 <= j < |rows| && j != i ==> rows[j].Value() == old(rows[j].Value())
      ensures FindStats(old(rows), userId).None? ==>
        && |rows| == |old(rows)| + 1
        && rows[..|old(rows)|] == old(rows)
        && fresh(rows[|old(rows)|])
        && rows[|old(rows)|].userId == userId
        && rows[|old(rows)|].Value() == ApplyScore(DefaultStats, submission, game.sparksEarned, rating, today)
        && forall j :: 0 <= j < |old(rows)| ==> rows[j].Value() == old(rows[j].Value())
    {
      var sparksEarned := CalculateSparks(submission.score, submission.difficulty, submission.accuracy);
      game := GameScore(userId, submission.gameType, submission.difficulty, submission.score,
                        sparksEarned, submission.timeTaken, submission.accuracy);
      scores := scores + [game];
      var stats := GetOrCreate(userId);
      RecordScore(stats, submission, sparksEarned, rating, today);
    }
  }
}
