# BrainForge user service: a verified model

This project models the core of the BrainForge user/stats service in Dafny.
The service awards *sparks* for finished training games. It derives a *brain
level* from the sparks total and tracks a daily *synapse streak*. It also
registers users and logs them in with salted password digests. The model
covers the progression arithmetic, the statistics-row updates, the
get-or-create of a statistics row, registration and login over an abstract
users table, and the `salt:hash` password format.

Modules, one per concern:

- `Wrappers` (wrappers.dfy): `Option` and `Result`.
- `Records` (records.dfy): the `users`, `user_stats` and `game_scores` record
  shapes with their column defaults. `UserStats` is a class, because the
  service updates its columns in place.
- `Progression` (progression.dfy): `calculate_brain_level` is a `while` loop
  proved against the threshold specification `Threshold`/`BrainLevel`.
  `calculate_sparks` is a function on exact reals.
- `Passwords` (passwords.dfy): Python's `str.split`, `hash_password` and
  `verify_password`. The SHA-256 digest is a function parameter `digest`.
  The random salt is a parameter `salt`.
- `Accounts` (accounts.dfy): `register_user` is a method on the `UserTable`
  class. `login_user` is a function over the table's rows.
- `Stats` (stats.dfy): the streak state machine and the score-submission
  update. Each is a specification function on `StatsValue` plus a method
  that changes a `UserStats` object in place. `StatsStore` holds the
  statistics rows and the game-score rows.

Inputs the source takes from its environment become parameters:

- the current day (`today`, a day number);
- the random salt;
- the digest function;
- the mind-rating update, `rating(oldRating, score)`.

Brain-level thresholds are 0, 100, 250, 450, 700, … (closed form
25·(L−1)·(L+2)). The comment at services/user_service/user_main.py:245 gives
300 and 600 for levels 3 and 4. The loop below that comment gives 250 and
450. The model follows the loop, and `Progression.FirstLevels` pins the
values down.

## Model

| member | source | states |
|---|---|---|
| `Progression.CalculateBrainLevel` | services/user_service/user_main.py:242-255 | The loop terminates. It returns 0 for a negative total. Otherwise it returns the level L ≥ 1 with Threshold(L) ≤ sparks < Threshold(L+1), and that level equals `BrainLevel(sparks)`. |
| `Progression.BrainLevel` | services/user_service/user_main.py:242-255 | Reference definition of the level. It is 0 below zero; otherwise its band of thresholds holds the total. |
| `Progression.LevelFrom` | services/user_service/user_main.py:250-253 | Searching upward from a reached level ends at a level at least as high, whose band holds the total. |
| `Progression.LevelUnique` | services/user_service/user_main.py:242-255 | At most one level's band holds a given total, so the loop's answer is unique. |
| `Progression.ThresholdStrictlyIncreasing` | services/user_service/user_main.py:248-253 | Thresholds strictly increase from level 1 on, because each step adds at least 100. |
| `Progression.ThresholdClosedForm` | services/user_service/user_main.py:246-253 | The threshold of level L is 25·(L−1)·(L+2). |
| `Progression.BrainLevelMonotone` | services/user_service/user_main.py:242-255 | A larger sparks total never gives a lower level. |
| `Progression.FirstLevels` | services/user_service/user_main.py:244-255 | Levels 1 to 5 start at 0, 100, 250, 450 and 700 sparks, not at the 300 and 600 the comment names. |
| `Progression.TruncToInt` | services/user_service/user_main.py:236 | `int()` truncates toward zero. For x ≥ 0 the result r has x−1 < r ≤ x; for x < 0 it has x ≤ r < x+1. |
| `Progression.BaseSparks` | services/user_service/user_main.py:227 | The base is at least 10. From a score of 100 on, it is `score // 10` (10·b ≤ score < 10·b + 10, floor division); below 100 it is exactly 10. |
| `Progression.Multiplier` | services/user_service/user_main.py:230-231 | Every multiplier lies in [1, 3]. A name outside easy/medium/hard/expert gets 1.0. |
| `Progression.MultiplierOrder` | services/user_service/user_main.py:230 | easy < medium < hard < expert. |
| `Progression.AccuracyBonus` | services/user_service/user_main.py:234 | For an accuracy in [0, 100] the factor lies in [1, 1.5]. It is 1.5 exactly at 100. |
| `Progression.CalculateSparks` | services/user_service/user_main.py:225-239 | The reward is never below the floor of 10. |
| `Progression.SparksBounds` | services/user_service/user_main.py:227-239 | For accuracy in [0, 100] the reward plus one exceeds base × multiplier. The reward is at most 1.5 × base × multiplier. |
| `Progression.SparksMonotoneInAccuracy` | services/user_service/user_main.py:234-239 | With score and difficulty fixed, higher accuracy never earns fewer sparks. |
| `Progression.SparksMonotoneInScore` | services/user_service/user_main.py:227-239 | With difficulty and accuracy fixed, a higher score never earns fewer sparks, for every accuracy. |
| `Passwords.Split` | services/user_service/user_main.py:46 | `split(':')` yields at least one piece, and no piece contains the separator. |
| `Passwords.SplitCount` | services/user_service/user_main.py:46 | There is exactly one more piece than there are separators. |
| `Passwords.JoinSplit` | services/user_service/user_main.py:46 | Joining the pieces with the separator gives back the original text. |
| `Passwords.SplitJoin` | services/user_service/user_main.py:40-46 | Splitting the join of separator-free pieces gives back those pieces. |
| `Passwords.HexHasNoSeparator` | services/user_service/user_main.py:36-38 | Hexadecimal text, the output of `token_hex` and `hexdigest`, contains no colon. |
| `Passwords.HashPassword` | services/user_service/user_main.py:33-40 | The stored text is the salt, then one colon, then digest(password + salt). `HashedSplits` and `VerifyHashed` show that `verify_password` reads it back. |
| `Passwords.HashedSplits` | services/user_service/user_main.py:33-40 | When the salt and the digest are colon-free, the stored `salt:hash` text has exactly one colon. It splits back into the salt and the digest of password + salt. |
| `Passwords.VerifyPassword` | services/user_service/user_main.py:42-52 | Stored text with no colon, or with two or more, is rejected (the `ValueError` path). Acceptance means the text is `salt:hash` with a colon-free salt and hash, and digest(plain + salt) = hash. |
| `Passwords.VerifyPasswordIff` | services/user_service/user_main.py:42-52 | Both directions: the text is accepted exactly when it is a colon-free salt, one colon, and a colon-free hash equal to digest(plain + salt). |
| `Passwords.VerifyHashed` | services/user_service/user_main.py:33-52 | For any colon-free salt and digest, a candidate is accepted against `hash_password(p)` exactly when its salted digest equals that of p. |
| `Passwords.VerifyOwnPassword` | services/user_service/user_main.py:33-52 | With the source's 32-digit hex salt and 64-digit hex digest, the original password always verifies. |
| `Records.UserStats.constructor` | services/user_service/database.py:44-56 | A fresh row has sparks 0, brain_level 1, synapse_streak 0, best_synapse_streak 0 and mind_rating 0. It also has total_games_played 0, total_time_trained 0 and no last activity date. |
| `Records.GameScoreWithDefaults` | services/user_service/database.py:73-83 | Columns not given to a game-score row default to difficulty "medium", sparks_earned 0, time_taken 0 and accuracy 0.0. |
| `Accounts.FindFirst` | services/user_service/user_main.py:61-65 | `.filter(...).first()` finds the first row holding the value, and finds none exactly when no row holds it. SQL leaves the order open, but every lookup is on a unique column (database.py:21-22), so at most one row matches. |
| `Accounts.NewUser` | services/user_service/user_main.py:69-74 | The inserted row carries the id, username, email and full name given, is active (database.py:26), and stores `HashPassword(password, salt, digest)`, which the submitted password verifies against whenever the salt and digest are colon-free. `UserTable.Register` appends exactly this row. |
| `Accounts.Login` | services/user_service/user_main.py:82-116 | An unknown email and a wrong password give the same 401 error. A token is issued only for a row with that email whose password verifies. When emails are unique, a token is issued exactly when such a row exists. |
| `Accounts.RegisterThenLogin` | services/user_service/user_main.py:56-104 | After registering with a fresh email (colon-free salt and digest), login with that email and the same password yields the new user's id. Another password succeeds exactly when its salted digest matches. |
| `Accounts.UserTable.Register` | services/user_service/user_main.py:56-80 | A taken username is rejected before the email is examined. A taken email is rejected next. Otherwise exactly one row is appended with the hashed password, and no other row changes. The uniqueness of usernames and emails (database.py:21-22) is preserved. |
| `Stats.DefaultStatsConsistent` | services/user_service/database.py:47-51 | The default brain level 1 is the level of the default 0 sparks, and the defaults satisfy the row invariant. |
| `Stats.NextStreak` | services/user_service/user_main.py:262-275 | No previous day gives 1. A gap of one day adds one. A longer gap resets to 1. A gap of zero or less keeps the streak. |
| `Stats.StreakUpdate` | services/user_service/user_main.py:258-281 | The streak steps by the day gap, and the best streak becomes max(best, streak). The last activity becomes today. Nothing else changes. |
| `Stats.StreakUpdateSameDay` | services/user_service/user_main.py:262-281 | A second activity on the same day changes nothing. |
| `Stats.DailyRunStreak` | services/user_service/user_main.py:262-281 | Activity on n consecutive days, after a first activity or a break, gives streak n and best streak ≥ n. |
| `Stats.StreakUpdateKeepsConsistent` | services/user_service/user_main.py:277-279 | The update keeps 0 ≤ streak ≤ best and never lowers the best streak. |
| `Stats.UpdateSynapseStreak` | services/user_service/user_main.py:258-282 | The in-place update leaves the row equal to `StreakUpdate` of its old values. |
| `Stats.RaiseBest` | services/user_service/user_main.py:344-345 | The best streak is raised only to a reported, non-zero, larger streak. It never decreases. |
| `Stats.ApplyScore` | services/user_service/user_main.py:334-352 | Sparks grow by exactly the sparks earned. Games grow by 1, and time by time_taken. The brain level is `BrainLevel` of the new total. The reported best streak is applied, then the streak update runs. |
| `Stats.ApplyScoreKeepsConsistent` | services/user_service/user_main.py:311-352 | A submission keeps a consistent row consistent. Sparks grow by at least 10. The brain level and the best streak never drop. |
| `Stats.RecordScore` | services/user_service/user_main.py:334-352 | The field-by-field in-place update leaves the row equal to `ApplyScore` of its old values. |
| `Stats.FindStats` | services/user_service/user_main.py:216 | The query finds the first row of the user, and finds none exactly when the user has no row. `user_id` is unique (database.py:44), so the order SQL returns does not matter. |
| `Stats.StatsStore.GetOrCreate` | services/user_service/user_main.py:214-222 | An existing row is returned and the table is unchanged. Otherwise one fresh default row is appended. Afterwards the user has a row, so a second call returns it and changes nothing. The one-row-per-user constraint (database.py:44) is preserved. |
| `Stats.StatsStore.SubmitGameScore` | services/user_service/user_main.py:311-352 | One game-score row is appended, carrying the computed sparks. The player's row, created first if missing, receives `ApplyScore`. Every other row keeps its values. |

## Left out

- HTTP plumbing is left out: app setup, CORS, routing, response models and server start-up. Only the error kind and status code of each failure are modelled.
- Database mechanics are left out: engine, sessions, commit, refresh, and the rollback with a 500 error when anything raises (user_main.py:362-365). Each operation is modelled as taking effect completely.
- Key allocation is left out: row keys are the database's. `UserTable` stands for it with a counter.
- Game-score keys and the `created_at`, `updated_at` and `played_at` timestamps are not modelled.
- Queries whose logic lives in the database are left out: game history, best score, leaderboard and platform statistics (with `format_stat`). Their ordering, limits and counts would be modelled on the database, not on this code.
- Account deletion is left out. Its effect on the dependent rows depends on cascade behaviour that is not visible in the source.
- The profile read/update endpoints, `get_all_users`, `get_user` and the health check are left out. They read a row or assign one column.
- SHA-256 is replaced by an arbitrary function `digest`. `secrets.token_hex` is replaced by a `salt` parameter. Their hexadecimal output is a hypothesis of the lemmas that need it.
- JWT handling (auth.py) is left out. `Accounts.Login` returns the user id that the token's `sub` claim would carry.
- The clock is replaced by a day-number parameter `today`. The source stores a full timestamp and compares calendar dates. The source also reads the clock twice: once for the day it compares (user_main.py:260) and once for the timestamp it stores (user_main.py:281). Across midnight these can fall on different days; the model uses the one `today` for both.
- The request schemas (models.py) carry no logic except one. The 0–100 range of accuracy is only a comment, so it is a hypothesis where a bound needs it. Registration's `email: EmailStr` (models.py:8) validates and normalises the address before `register_user` sees it; `Accounts.Registration.email` is that normalised address. The login form's username (user_main.py:96) is compared with it as given, without normalisation. Address validation itself is not modelled.
- The `print` logging is left out.
- The exercise trial engine (sequence generation, trial timers, response classification) is not part of this model.
- Progression.CalculateSparks: the product `base * multiplier * bonus` is taken on exact reals. The source uses binary floating point. Any input whose product leaves the float range, such as score 10000, "easy" and the finite accuracy 1e308 (product 5e308), gives infinity, and `int()` at user_main.py:236 raises. So do a NaN or ±infinity accuracy, which pydantic's `float` admits and which have no real counterpart. Such a request takes the 500 path at user_main.py:362-365, which is not modelled; the model pays a reward for it instead. While the product stays finite, the floor of 10 and both monotonicity lemmas survive the rounding, because float multiplication and `int()` are monotone there. The `SparksBounds` inequalities hold for the source only while 1.5 × base × multiplier is an exactly representable float, which any score below 10^16 ensures. Beyond that, rounding `base * multiplier` can break both bounds: with score 90071992547409930, "easy" and accuracy 0 the base is 2^53 + 1 and the source pays 2^53.
- Stats.ApplyScore: the new mind rating is `rating(old rating, score)` for an arbitrary function `rating`. The source's `int(m*0.7 + s*0.3)` is float arithmetic that is not modelled, so nothing is claimed about its value.
- Stats.StatsStore.SubmitGameScore: the failure path (an exception, rollback and a 500 response) is not modelled.
