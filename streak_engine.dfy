/**
 * calculateStreaks (main.go) as the imperative code it is: one pass over the
 * records that updates the two maps and the previous user and time, a pass
 * over the open runs that promotes them, a slice built from the best map in
 * whatever order its keys are taken, and an in-place sort of that slice by
 * streak, largest first. Each of the four stages is a method of its own,
 * proved against the function of StreakSpec that specifies it.
 */
module StreakEngine {
  import opened Runs
  import opened StreakSpec

  /**
   * The ranking for one activity. The input must be non-empty: the activity
   * of the first record, timed or not, is copied into every entry. The result
   * holds one entry per user with a timed record, carrying the streak that
   * Streaks specifies, ordered by streak with ties in no particular order.
   */
  method CalculateStreaks(activityLogs: seq<ActivityLog>) returns (streakList: seq<Streak>)
    requires |activityLogs| > 0
    ensures multiset(streakList) == multiset(Entries(Streaks(activityLogs), activityLogs[0].activityId))
    ensures SortedByStreak(streakList)
  {
    var activityID := activityLogs[0].activityId;
    var userStreaks, currentStreaks := WalkLogs(activityLogs);
    userStreaks := PromoteOpenRuns(userStreaks, currentStreaks);
    var list := EmitEntries(userStreaks, activityID);
    var a := new Streak[|list|](k requires 0 <= k < |list| => list[k]);
    assert a[..] == list;
    SortByStreak(a);
    streakList := a[..];
  }

  /** The first loop: the maps of closed bests and open runs after every record. */
  method WalkLogs(activityLogs: seq<ActivityLog>) returns (userStreaks: map<int, int>, currentStreaks: map<int, int>)
    ensures userStreaks == Walk(activityLogs).best && currentStreaks == Walk(activityLogs).current
  {
    userStreaks, currentStreaks := map[], map[];
    var prevUserID := 0;
    var prevDate := ZeroTime;
    for i := 0 to |activityLogs|
      invariant Walk(activityLogs[..i]) == WalkState(userStreaks, currentStreaks, prevUserID, prevDate)
    {
      assert activityLogs[..i + 1][..i] == activityLogs[..i];
      var activityLog := activityLogs[i];
      if activityLog.loggedAt.None? {
        continue;
      }
      var loggedAt := activityLog.loggedAt.value;
      var u := activityLog.userId;
      if u != prevUserID {
        prevUserID := u;
        prevDate := loggedAt;
        currentStreaks := currentStreaks[u := 1];
        continue;
      }
      if loggedAt - prevDate <= Day {
        currentStreaks := currentStreaks[u := Get(currentStreaks, u) + 1];
      } else {
        if Get(currentStreaks, u) > Get(userStreaks, u) {
          userStreaks := userStreaks[u := Get(currentStreaks, u)];
        }
        currentStreaks := currentStreaks[u := 1];
      }
      prevDate := loggedAt;
    }
    assert activityLogs[..|activityLogs|] == activityLogs;
  }

  /** The second loop: every open run that beats its user's best becomes the best. */
  method PromoteOpenRuns(closed: map<int, int>, currentStreaks: map<int, int>) returns (userStreaks: map<int, int>)
    ensures userStreaks == Reconcile(closed, currentStreaks)
  {
    userStreaks := closed;
    assert Reconcile(closed, Restrict(currentStreaks, {})) == closed;
    var pending := currentStreaks.Keys;
    // Take the keys one at a time, in no particular order.
    while exists userID :: userID in pending
      invariant pending <= currentStreaks.Keys
      invariant userStreaks == Reconcile(closed, Restrict(currentStreaks, currentStreaks.Keys - pending))
      decreases pending
    {
      var userID :| userID in pending;
      ReconcileStep(closed, currentStreaks, currentStreaks.Keys - pending, userID);
      var streak := currentStreaks[userID];
      if streak > Get(userStreaks, userID) {
        userStreaks := userStreaks[userID := streak];
      }
      assert currentStreaks.Keys - (pending - {userID}) == (currentStreaks.Keys - pending) + {userID};
      pending := pending - {userID};
    }
    assert Restrict(currentStreaks, currentStreaks.Keys - pending) == currentStreaks;
  }

  /** The third loop: one entry per user, in whatever order the keys come. */
  method EmitEntries(userStreaks: map<int, int>, activityID: int) returns (list: seq<Streak>)
    ensures multiset(list) == multiset(Entries(userStreaks, activityID))
  {
    list := [];
    var rest := userStreaks.Keys;
    while exists userID :: userID in rest
      invariant rest <= userStreaks.Keys
      invariant multiset(list) == multiset(Entries(map k | k in userStreaks && k !in rest :: userStreaks[k], activityID))
      decreases rest
    {
      var userID :| userID in rest;
      var entry := Streak(userID, userStreaks[userID], activityID);
      ghost var emitted := map k | k in userStreaks && k !in rest :: userStreaks[k];
      EntriesInsert(emitted, userID, userStreaks[userID], activityID);
      list := list + [entry];
      rest := rest - {userID};
      assert (map k | k in userStreaks && k !in rest :: userStreaks[k]) == emitted[userID := entry.streak];
    }
    assert (map k | k in userStreaks && k !in rest :: userStreaks[k]) == userStreaks;
  }

  /** Exchanges two entries; nothing else moves. */
  method Swap(a: array<Streak>, i: int, j: int)
    requires 0 <= i < j < a.Length
    modifies a
    ensures a[i] == old(a[j]) && a[j] == old(a[i])
    ensures forall k :: 0 <= k < a.Length && k != i && k != j ==> a[k] == old(a[k])
    ensures multiset(a[..]) == old(multiset(a[..]))
  {
    a[i], a[j] := a[j], a[i];
  }

  /** Sorts the entries in place by streak, largest first. */
  method SortByStreak(a: array<Streak>)
    modifies a
    ensures SortedByStreak(a[..])
    ensures multiset(a[..]) == old(multiset(a[..]))
  {
    var i := 0;
    while i < a.Length
      invariant 0 <= i <= a.Length
      invariant SortedByStreak(a[..i])
      invariant multiset(a[..]) == old(multiset(a[..]))
    {
      // Move a[i] left past every smaller streak.
      var j := i;
      while j > 0 && a[j - 1].streak < a[j].streak
        invariant 0 <= j <= i
        invariant forall p, q :: 0 <= p < q <= i && p != j && q != j ==> a[p].streak >= a[q].streak
        invariant forall q :: j < q <= i ==> a[j].streak >= a[q].streak
        invariant multiset(a[..]) == old(multiset(a[..]))
      {
        Swap(a, j - 1, j);
        j := j - 1;
      }
      i := i + 1;
    }
  }
}
