# Activity streaks: a verified model of `calculateStreaks`

The service ranks the users of one activity by their longest streak. A streak
is a run of logged completions in which each completion follows the previous
one by at most 24 hours. `calculateStreaks` in `main.go` receives every
`activity_logs` row for the activity. It makes one pass over the rows. During
the pass it keeps the best closed run per user (`userStreaks`), the open run
per user (`currentStreaks`), and the user and time of the previous timed row.
It then promotes the open runs that beat the best. It emits one `Streak` per
user and sorts the list by streak, largest first.

The model has four modules:

- `Runs` (`runs.dfy`) defines what a run and a longest run of a sequence of
  instants are. It also gives the invariant that the engine's two per-user
  counters keep, with one lemma per branch of the loop.
- `StreakSpec` (`streak_spec.dfy`) holds the records (`ActivityLog`, `Streak`)
  and the walk as functions. `Step` is one iteration, `Walk` is the pass in
  input order, `Reconcile` is the promotion loop and `Streaks` is the map from
  user to reported streak. `Entries` gives the emitted records. The lemmas in
  this module say what that map means.
- `StreakEngine` (`streak_engine.dfy`) is the imperative code. `CalculateStreaks`
  runs the three loops of the source as the methods `WalkLogs`,
  `PromoteOpenRuns` and `EmitEntries`. These update maps and scalars as the Go
  code does, and each is proved against its function in `StreakSpec`.
  `CalculateStreaks` then sorts an array in place with `SortByStreak`. Map
  iteration takes keys in no fixed order (`:|`), as Go's `range` over a map
  does.
- `StreakScenarios` (`streak_scenarios.dfy`) works through concrete inputs.

Times are `int` nanoseconds since the Unix epoch, and `None` stands for a NULL
`logged_at`. `Day` is 24 h in nanoseconds. The Go test
`LoggedAt.Sub(prevDate).Hours() <= 24` becomes `t - prevDate <= Day`. This is
exact for three reasons:

- For a non-negative duration, `Hours()` is the whole hours plus a
  non-negative fraction, so any excess over 24 h gives a value above 24. A
  negative duration gives a negative value, which is at most 24 either way.
- When `Sub` saturates at the largest duration, the value is still far above
  24 h.
- When `Sub` saturates at the smallest duration, the value is still negative.

The initial `prevDate` is Go's zero time, `ZeroTime`. It is modelled as it is.
`SentinelHarmless` shows that a first row of user 0 takes the "same user"
branch but still opens a run of 1.

Where the documented behaviour of the service and the code disagree, the model
follows the code:

- On empty input the code reads `activityLogs[0]` and panics. It does not
  return an empty list, so `CalculateStreaks` requires a non-empty input.
- A user's reported streak is guaranteed to be that user's longest run when
  the user's timed rows are contiguous. Otherwise an earlier, longer run can be
  lost, because the engine detects a new user by comparing with the previous
  timed row. `GroupedStreakIsLongestRun` proves the contiguous case, and
  `InterleavingLosesLongerRun` shows a longer run being lost.
- Ties are in no particular order. The engine does not keep the order of first
  appearance.

## Model

| member | source | states |
|---|---|---|
| `StreakEngine.CalculateStreaks` | main.go:78-127 | For a non-empty input, the result is one entry per user in `Streaks`, each with that user's streak and the first row's activity, as a multiset, so no entry is dropped and the list is not cut short. The result is sorted by streak, largest first. |
| `StreakEngine.WalkLogs` | main.go:79-105 | After the loop over all rows, `userStreaks` and `currentStreaks` are the best and open-run maps of `Walk` over the input in order. |
| `StreakEngine.PromoteOpenRuns` | main.go:107-111 | Visiting the open runs in any key order gives `Reconcile`: each open run that beats the user's best, a missing best counting as 0, replaces it. |
| `StreakEngine.EmitEntries` | main.go:113-116 | Visiting the best map in any key order gives exactly one `Streak` per user, with that user's value and the given activity, as a multiset. |
| `StreakEngine.SortByStreak` | main.go:118-121 | The array is sorted in place by streak, largest first, and is a permutation of what it held. |
| `Runs.RunStart` | main.go:89-93 | A user's first timed row opens a run of 1 and no best. The run invariant holds over the one instant. |
| `Runs.RunExtend` | main.go:96-97 | A gap of at most a day, including a negative gap, extends the open run by 1 and keeps the invariant. |
| `Runs.RunBreak` | main.go:98-103 | A gap of more than a day promotes the open run into the best if it is larger and restarts the run at 1. The invariant still holds. |
| `Runs.RunFinal` | main.go:107-111 | Promoting the open run at the end gives the length of a longest run, between 1 and the number of instants. |
| `StreakSpec.WalkShape` | main.go:85-105 | After the walk, the open-run map is keyed by exactly the users with a timed row. Best entries exist only for such users. Every value is between 1 and the user's number of timed rows. |
| `StreakSpec.StreaksShape` | main.go:107-111 | The reported map has exactly the users with a timed row. Each value is at least 1 and at most the user's number of timed rows, and at least both the final open run and the closed best. |
| `StreakSpec.UntimedInvisible` | main.go:86-88 | Rows without a time change nothing. The walk and the streaks of the input equal those of its timed rows alone. |
| `StreakSpec.SentinelHarmless` | main.go:81-104 | A first timed row of user 0 meets `prevUserID == 0` and the zero time, and still leaves the state that a new user's row would. |
| `StreakSpec.StepFrame` | main.go:86-104 | A step for another user, or for a row without a time, leaves user u's open run and best unchanged. |
| `StreakSpec.BlockStep` | main.go:89-104 | One more timed row of the user keeps the walk's counters for that user in step with the run invariant over the user's times. |
| `StreakSpec.BlockWalk` | main.go:85-105 | In a stretch of rows whose timed rows are all one user's, with none of that user's before it, the user's counters satisfy the run invariant over the user's times. |
| `StreakSpec.AfterBlock` | main.go:85-105 | After a user's last timed row, that user's open run and best no longer change. |
| `StreakSpec.BlockStreakIsLongestRun` | main.go:85-111 | If a user's timed rows are contiguous among the timed rows, the reported streak is the longest run of the user's times and is at most their number. |
| `StreakSpec.GroupedStreakIsLongestRun` | main.go:85-111 | On input grouped by user, every logged user's streak is the longest run of that user's times, at most the number of that user's timed rows. |
| `StreakSpec.ReconcileStep` | main.go:107-111 | Promoting one more open run changes only that user's entry, and only when the run beats the current best. |
| `StreakSpec.EntriesInsert` | main.go:114-115 | Appending a new user's entry adds exactly that entry, which was not there before. |
| `StreakSpec.EntriesOrdering` | main.go:113-121 | Any ordering of the entries has each entry from the map with the given activity, no user twice, and every user of the map. |
| `StreakSpec.DistinctEntries` | main.go:113-116 | Two positions of an ordering of the entries hold different users. |
| `StreakSpec.RankingShape` | main.go:83-121 | Every emitted entry has the first row's activity and the user's reported streak, between 1 and the user's number of timed rows. No user appears twice. A user appears exactly when it has a timed row. |
| `StreakSpec.CountIsTimesOf` | main.go:85-97 | The number of a user's timed rows, the bound in `StreaksShape` and `RankingShape`, equals the length of that user's list of times, the bound in `GroupedStreakIsLongestRun`. |
| `StreakScenarios.ExactlyOneDayExtends` | main.go:96-97 | Two rows exactly 24 h apart give a streak of 2: the bound is inclusive. |
| `StreakScenarios.JustOverOneDayBreaks` | main.go:96-103 | Two rows 24 h plus 1 ns apart give a streak of 1. |
| `StreakScenarios.EarlierTimeExtends` | main.go:96-97 | A row earlier than the previous one gives a negative gap, which extends the run. |
| `StreakScenarios.ThreeDayRunThenBreak` | main.go:96-111 | Gaps of 24 h, 24 h and 72 h give a streak of 3. |
| `StreakScenarios.UntimedDoesNotBridge` | main.go:86-104 | A row without a time between two rows 48 h apart neither bridges the gap nor breaks the run. The streak is 1. |
| `StreakScenarios.InterleavedUserStartsOver` | main.go:89-93 | User 1's rows a day apart, with user 2's row between them, give user 1 a streak of 1. |
| `StreakScenarios.InterleavingLosesLongerRun` | main.go:89-111 | Switching users does not promote the open run. User 1's run of 3 is overwritten on return, so user 1 is reported with 1 although their longest run is 3. |
| `StreakScenarios.UntimedOnlyUserAbsent` | main.go:86-116 | A user whose only rows have no time is not reported. |
| `StreakScenarios.FourUsersStreaks` | main.go:85-111 | Ten grouped rows, for user 1 once and users 2, 3 and 4 on 4, 3 and 2 consecutive days, give streaks 1, 4, 3 and 2. |
| `StreakScenarios.FourUsersEntries` | main.go:83-116 | For those rows, the emitted entries are exactly the four users with those streaks, each with the first row's activity. |
| `StreakScenarios.RankedByStreak` | main.go:118-121 | Every list sorted by streak that holds exactly the entries emitted for those rows is users 2, 3, 4, 1. |
| `StreakScenarios.RankFourUsers` | main.go:78-127 | The engine's result for those rows, derived from the contract of `CalculateStreaks` alone, is all four users in the order 2, 3, 4, 1, so no top-3 cut applies. |

## Left out

- CalculateStreaks: the index panic on empty input at main.go:83 is modelled as the precondition `|activityLogs| > 0`, not as an error result.
- `main`, `getTopStreaks` and `getPoints` (main.go:46-76, 129-148) are left out. They do HTTP routing, hold a global database handle and serialize JSON, which is I/O.
- The points sum (main.go:134-139) is left out. The database computes it with an SQL `SUM` over a join, and no logic of it is in the repository.
- The query's `ORDER BY user_id, logged_at` (main.go:69) belongs to the caller. The model accepts any order, and `GroupedByUser` states the property of that order that matters.
- The float `Hours()` conversion and the saturation of `Sub` are not modelled. The integer comparison used instead gives the same answer for every pair of instants.
- `SortByStreak`: an insertion sort stands in for `sort.Slice`, whose algorithm is in Go's library. Only its contract is used: sorted by streak and a permutation. The tie order of the source is not modelled, because map iteration and `sort.Slice` leave it open.
- The commented-out top-3 cut (main.go:122-124) and the commented-out `ActivityLog` struct (main.go:20-31) are dead code.
- Go's 64-bit `int` is modelled as unbounded. Streak counts are bounded by the input length, and IDs are only copied.
- `CalculateStreaks` returns a sequence where the source returns a slice. The slice's aliasing is not modelled.
