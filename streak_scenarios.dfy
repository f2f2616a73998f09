/**
 * Concrete inputs and the streaks the engine reports for them: the inclusive
 * one-day boundary, out-of-order times, a record without a time between two
 * timed ones, input in which a user's records are not contiguous, and the
 * ranking the engine returns for four users.
 */
module StreakScenarios {
  import opened Runs
  import opened StreakSpec
  import opened StreakEngine

  /** A timed record of activity 7. */
  function At(u: int, t: int): ActivityLog {
    ActivityLog(u, 7, Some(t))
  }

  /** Two records exactly one day apart form one run of 2. */
  lemma ExactlyOneDayExtends()
    ensures Streaks([At(1, 0), At(1, Day)]) == map[1 := 2]
  {
    var logs := [At(1, 0), At(1, Day)];
    assert logs[..1] == [At(1, 0)];
    assert Walk(logs[..1]) == WalkState(map[], map[1 := 1], 1, 0);
  }

  /** One nanosecond more than a day apart, the run restarts: each run is 1. */
  lemma JustOverOneDayBreaks()
    ensures Streaks([At(1, 0), At(1, Day + 1)]) == map[1 := 1]
  {
    var logs := [At(1, 0), At(1, Day + 1)];
    assert logs[..1] == [At(1, 0)];
    assert Walk(logs[..1]) == WalkState(map[], map[1 := 1], 1, 0);
  }

  /** A time earlier than the previous one is a negative gap and extends the run. */
  lemma EarlierTimeExtends()
    ensures Streaks([At(1, 5 * Day), At(1, 0)]) == map[1 := 2]
  {
    var logs := [At(1, 5 * Day), At(1, 0)];
    assert logs[..1] == [At(1, 5 * Day)];
    assert Walk(logs[..1]) == WalkState(map[], map[1 := 1], 1, 5 * Day);
  }

  /** Gaps of a day, a day and three days: the longest run is the first three. */
  lemma ThreeDayRunThenBreak()
    ensures Streaks([At(1, 0), At(1, Day), At(1, 2 * Day), At(1, 5 * Day)]) == map[1 := 3]
  {
    var logs := [At(1, 0), At(1, Day), At(1, 2 * Day), At(1, 5 * Day)];
    assert logs[..1] == [At(1, 0)];
    assert logs[..2][..1] == logs[..1];
    assert logs[..3][..2] == logs[..2];
    assert logs[..4][..3] == logs[..3];
    assert logs[..4] == logs;
    assert Walk(logs[..1]) == WalkState(map[], map[1 := 1], 1, 0);
    assert Walk(logs[..2]) == WalkState(map[], map[1 := 2], 1, Day);
    assert Walk(logs[..3]) == WalkState(map[], map[1 := 3], 1, 2 * Day);
    assert Walk(logs) == WalkState(map[1 := 3], map[1 := 1], 1, 5 * Day);
  }

  /**
   * A record without a time between two timed ones two days apart neither
   * bridges nor breaks anything: the visible gap is two days, so each run is 1.
   */
  lemma UntimedDoesNotBridge()
    ensures Streaks([At(1, 0), ActivityLog(1, 7, None), At(1, 2 * Day)]) == map[1 := 1]
  {
    var logs := [At(1, 0), ActivityLog(1, 7, None), At(1, 2 * Day)];
    assert logs[..1] == [At(1, 0)];
    assert logs[..2][..1] == logs[..1];
    assert logs[..3][..2] == logs[..2];
    assert logs[..3] == logs;
    assert Walk(logs[..1]) == WalkState(map[], map[1 := 1], 1, 0);
    assert Walk(logs[..2]) == WalkState(map[], map[1 := 1], 1, 0);
  }

  /**
   * A user whose records are separated by another user's starts over: user 1
   * has two records a day apart but, because user 2 comes between them, a
   * streak of 1.
   */
  lemma InterleavedUserStartsOver()
    ensures Streaks([At(1, 0), At(2, 0), At(1, Day)]) == map[1 := 1, 2 := 1]
  {
    var logs := [At(1, 0), At(2, 0), At(1, Day)];
    assert logs[..1] == [At(1, 0)];
    assert logs[..2][..1] == logs[..1];
    assert logs[..3][..2] == logs[..2];
    assert logs[..3] == logs;
    assert Walk(logs[..1]) == WalkState(map[], map[1 := 1], 1, 0);
    assert Walk(logs[..2]) == WalkState(map[], map[1 := 1, 2 := 1], 2, 0);
  }

  /**
   * Switching users does not promote the open run: user 1's run of 3 is
   * overwritten when user 1 comes back after user 2, and user 1 is reported
   * with 1 although the longest run of user 1's times is 3.
   */
  lemma InterleavingLosesLongerRun()
    ensures var logs := [At(1, 0), At(1, Day), At(1, 2 * Day), At(2, 0), At(1, 10 * Day)];
      && Streaks(logs) == map[1 := 1, 2 := 1]
      && IsLongestRun(TimesOf(logs, 1), 3)
  {
    var logs := [At(1, 0), At(1, Day), At(1, 2 * Day), At(2, 0), At(1, 10 * Day)];
    assert logs[..1] == [At(1, 0)];
    assert logs[..2][..1] == logs[..1];
    assert logs[..3][..2] == logs[..2];
    assert logs[..4][..3] == logs[..3];
    assert logs[..5][..4] == logs[..4];
    assert logs[..5] == logs;
    assert Walk(logs[..1]) == WalkState(map[], map[1 := 1], 1, 0);
    assert Walk(logs[..2]) == WalkState(map[], map[1 := 2], 1, Day);
    assert Walk(logs[..3]) == WalkState(map[], map[1 := 3], 1, 2 * Day);
    assert Walk(logs[..4]) == WalkState(map[], map[1 := 3, 2 := 1], 2, 0);
    assert Walk(logs) == WalkState(map[], map[1 := 1, 2 := 1], 1, 10 * Day);

    assert TimesOf(logs[..1], 1) == [0];
    assert TimesOf(logs[..2], 1) == [0, Day];
    assert TimesOf(logs[..3], 1) == [0, Day, 2 * Day];
    assert TimesOf(logs[..4], 1) == [0, Day, 2 * Day];
    var ts := TimesOf(logs, 1);
    assert ts == [0, Day, 2 * Day, 10 * Day];
    assert IsRun(ts, 0, 3);
    forall i, j | IsRun(ts, i, j)
      ensures j - i <= 3
    {
      if j == 4 {
        RunStartsAfterBreak(ts, i, j, 3);
      }
    }
  }

  /** A user with only untimed records is not reported. */
  lemma UntimedOnlyUserAbsent()
    ensures Streaks([ActivityLog(1, 7, None), At(2, 0)]) == map[2 := 1]
  {
    var logs := [ActivityLog(1, 7, None), At(2, 0)];
    assert logs[..1] == [ActivityLog(1, 7, None)];
    assert Walk(logs[..1]) == Start;
  }

  /** Walking one more record is one more step. */
  lemma WalkSnoc(logs: seq<ActivityLog>, log: ActivityLog)
    ensures Walk(logs + [log]) == Step(Walk(logs), log)
  {
    assert (logs + [log])[..|logs|] == logs;
  }

  /**
   * Four users in order: user 1 once, then users 2, 3 and 4 on 4, 3 and 2
   * consecutive days.
   */
  function FourUsers(): seq<ActivityLog> {
    [At(1, 0),
     At(2, 0), At(2, Day), At(2, 2 * Day), At(2, 3 * Day),
     At(3, 0), At(3, Day), At(3, 2 * Day),
     At(4, 0), At(4, Day)]
  }

  /** A timed record of a user other than the previous one opens a run of 1. */
  lemma StepNewUser(st: WalkState, u: int, t: int)
    requires u != st.prevUser
    ensures Step(st, At(u, t)) == WalkState(st.best, st.current[u := 1], u, t)
  {
  }

  /** A timed record of the same user at most a day later extends the run. */
  lemma StepExtend(st: WalkState, t: int)
    requires t - st.prevDate <= Day
    ensures Step(st, At(st.prevUser, t))
      == WalkState(st.best, st.current[st.prevUser := Get(st.current, st.prevUser) + 1], st.prevUser, t)
  {
  }

  /** The four users get streaks 1, 4, 3 and 2. */
  lemma FourUsersStreaks()
    ensures Streaks(FourUsers()) == map[1 := 1, 2 := 4, 3 := 3, 4 := 2]
  {
    var logs: seq<ActivityLog> := [];
    var st := Start;
    StepNewUser(st, 1, 0);
    WalkSnoc(logs, At(1, 0));
    logs, st := logs + [At(1, 0)], Step(st, At(1, 0));
    StepNewUser(st, 2, 0);
    WalkSnoc(logs, At(2, 0));
    logs, st := logs + [At(2, 0)], Step(st, At(2, 0));
    StepExtend(st, Day);
    WalkSnoc(logs, At(2, Day));
    logs, st := logs + [At(2, Day)], Step(st, At(2, Day));
    StepExtend(st, 2 * Day);
    WalkSnoc(logs, At(2, 2 * Day));
    logs, st := logs + [At(2, 2 * Day)], Step(st, At(2, 2 * Day));
    StepExtend(st, 3 * Day);
    WalkSnoc(logs, At(2, 3 * Day));
    logs, st := logs + [At(2, 3 * Day)], Step(st, At(2, 3 * Day));
    StepNewUser(st, 3, 0);
    WalkSnoc(logs, At(3, 0));
    logs, st := logs + [At(3, 0)], Step(st, At(3, 0));
    StepExtend(st, Day);
    WalkSnoc(logs, At(3, Day));
    logs, st := logs + [At(3, Day)], Step(st, At(3, Day));
    StepExtend(st, 2 * Day);
    WalkSnoc(logs, At(3, 2 * Day));
    logs, st := logs + [At(3, 2 * Day)], Step(st, At(3, 2 * Day));
    StepNewUser(st, 4, 0);
    WalkSnoc(logs, At(4, 0));
    logs, st := logs + [At(4, 0)], Step(st, At(4, 0));
    StepExtend(st, Day);
    WalkSnoc(logs, At(4, Day));
    logs, st := logs + [At(4, Day)], Step(st, At(4, Day));
    assert logs == FourUsers();
    assert st == WalkState(map[], map[1 := 1, 2 := 4, 3 := 3, 4 := 2], 4, Day);
  }

  /** The entries emitted for the four users, each carrying activity 7. */
  lemma FourUsersEntries()
    ensures Entries(Streaks(FourUsers()), FourUsers()[0].activityId)
      == {Streak(1, 1, 7), Streak(2, 4, 7), Streak(3, 3, 7), Streak(4, 2, 7)}
  {
    FourUsersStreaks();
    var streaks := map[1 := 1, 2 := 4, 3 := 3, 4 := 2];
    var entries := {Streak(1, 1, 7), Streak(2, 4, 7), Streak(3, 3, 7), Streak(4, 2, 7)};
    forall e | e in entries
      ensures e in Entries(streaks, 7)
    {
      assert e.userId in streaks && e == Streak(e.userId, streaks[e.userId], 7);
    }
    assert Entries(streaks, 7) == entries;
  }

  /** Four entries with distinct streaks have exactly one order sorted by streak. */
  lemma SortedFour(ranking: seq<Streak>)
    requires multiset(ranking) == multiset{Streak(1, 1, 7), Streak(2, 4, 7), Streak(3, 3, 7), Streak(4, 2, 7)}
    requires SortedByStreak(ranking)
    ensures ranking == [Streak(2, 4, 7), Streak(3, 3, 7), Streak(4, 2, 7), Streak(1, 1, 7)]
  {
    assert |ranking| == |multiset(ranking)| == 4;
    assert ranking == [ranking[0], ranking[1], ranking[2], ranking[3]];
    assert forall k :: 0 <= k < 4 ==> ranking[k] in multiset(ranking);
  }

  /**
   * Ranking: every list the engine may return for FourUsers, one entry per
   * user with the streaks above, sorted by streak, is users 2, 3, 4 and then
   * 1.
   */
  lemma RankedByStreak(ranking: seq<Streak>)
    requires multiset(ranking) == multiset(Entries(Streaks(FourUsers()), FourUsers()[0].activityId))
    requires SortedByStreak(ranking)
    ensures ranking == [Streak(2, 4, 7), Streak(3, 3, 7), Streak(4, 2, 7), Streak(1, 1, 7)]
  {
    FourUsersEntries();
    SortedFour(ranking);
  }

  /**
   * The engine run on FourUsers: from CalculateStreaks's contract alone, the
   * result holds all four users in rank order, so it is not cut to three.
   */
  method RankFourUsers() returns (ranking: seq<Streak>)
    ensures ranking == [Streak(2, 4, 7), Streak(3, 3, 7), Streak(4, 2, 7), Streak(1, 1, 7)]
  {
    ranking := CalculateStreaks(FourUsers());
    RankedByStreak(ranking);
  }
}
