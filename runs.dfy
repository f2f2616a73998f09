/**
 * Runs over a sequence of instants: the reference notion of a streak.
 *
 * An instant is an integer number of nanoseconds. A run is a stretch of
 * consecutive instants in which every neighbour follows its predecessor by at
 * most one day (an earlier instant, a negative gap, also continues the run).
 * The longest run is characterised here by what it is, not by how the engine
 * finds it; the lemmas below give the invariant that the engine's per-user
 * counters keep while it walks a user's records.
 */
module Runs {

  /** 24 hours in nanoseconds: the widest gap that still continues a run. */
  const Day: int := 24 * 60 * 60 * 1_000_000_000

  /** ts[i..j] is a non-empty stretch whose neighbours are at most a day apart. */
  ghost predicate IsRun(ts: seq<int>, i: int, j: int) {
    0 <= i < j <= |ts| && forall k :: i < k < j ==> ts[k] - ts[k - 1] <= Day
  }

  /** r is the length of a longest run of ts. */
  ghost predicate IsLongestRun(ts: seq<int>, r: int) {
    && (exists i, j :: IsRun(ts, i, j) && j - i == r)
    && (forall i, j :: IsRun(ts, i, j) ==> j - i <= r)
  }

  /** The best so far after a closed run of length cur: the larger of the two. */
  function Promoted(best: int, cur: int): int {
    if cur > best then cur else best
  }

  /**
   * What the engine's two counters for one user mean after it has seen the
   * instants ts of that user: cur is the length of the maximal run that ends
   * at the last instant, best is 0 or the length of some run, and no run of ts
   * is longer than both.
   */
  ghost predicate RunInv(ts: seq<int>, best: int, cur: int) {
    && 1 <= cur <= |ts|
    && IsRun(ts, |ts| - cur, |ts|)
    && (cur == |ts| || ts[|ts| - cur] - ts[|ts| - cur - 1] > Day)
    && 0 <= best
    && (best == 0 || exists i, j :: IsRun(ts, i, j) && j - i == best)
    && (forall i, j :: IsRun(ts, i, j) ==> j - i <= Promoted(best, cur))
  }

  /** Appending an instant leaves the runs that end before it untouched. */
  lemma IsRunSnoc(ts: seq<int>, t: int, i: int, j: int)
    requires j <= |ts|
    ensures IsRun(ts + [t], i, j) <==> IsRun(ts, i, j)
  {
    if 0 <= i < j {
      forall k | i < k < j
        ensures (ts + [t])[k] - (ts + [t])[k - 1] == ts[k] - ts[k - 1]
      {
      }
    }
  }

  /** A run that reaches past a gap of more than a day starts after it. */
  lemma RunStartsAfterBreak(ts: seq<int>, i: int, j: int, b: int)
    requires IsRun(ts, i, j)
    requires 0 < b < j && ts[b] - ts[b - 1] > Day
    ensures b <= i
  {
  }

  /** A user's first instant opens a run of length 1 and no best yet. */
  lemma RunStart(t: int)
    ensures RunInv([t], 0, 1)
  {
    forall i, j | IsRun([t], i, j)
      ensures j - i <= Promoted(0, 1)
    {
    }
  }

  /** A gap of at most a day extends the current run by one. */
  lemma RunExtend(ts: seq<int>, t: int, best: int, cur: int)
    requires RunInv(ts, best, cur)
    requires t - ts[|ts| - 1] <= Day
    ensures RunInv(ts + [t], best, cur + 1)
  {
    var ts' := ts + [t];
    var n := |ts|;
    assert IsRun(ts', n - cur, n + 1) by {
      assert IsRun(ts, n - cur, n);
      forall k | n - cur < k < n + 1
        ensures ts'[k] - ts'[k - 1] <= Day
      {
        if k < n {
          assert ts'[k] == ts[k] && ts'[k - 1] == ts[k - 1];
        }
      }
    }
    if best != 0 {
      var i, j :| IsRun(ts, i, j) && j - i == best;
      IsRunSnoc(ts, t, i, j);
    }
    forall i, j | IsRun(ts', i, j)
      ensures j - i <= Promoted(best, cur + 1)
    {
      if j <= n {
        IsRunSnoc(ts, t, i, j);
      } else if cur < n {
        // A run ending at the new instant cannot cross the break that
        // precedes the current run.
        RunStartsAfterBreak(ts', i, j, n - cur);
      }
    }
  }

  /** A gap of more than a day closes the current run and opens one of length 1. */
  lemma RunBreak(ts: seq<int>, t: int, best: int, cur: int)
    requires RunInv(ts, best, cur)
    requires t - ts[|ts| - 1] > Day
    ensures RunInv(ts + [t], Promoted(best, cur), 1)
  {
    var ts' := ts + [t];
    var n := |ts|;
    assert IsRun(ts', n, n + 1);
    if cur > best {
      IsRunSnoc(ts, t, n - cur, n);
    } else if best != 0 {
      var i, j :| IsRun(ts, i, j) && j - i == best;
      IsRunSnoc(ts, t, i, j);
    }
    forall i, j | IsRun(ts', i, j)
      ensures j - i <= Promoted(Promoted(best, cur), 1)
    {
      if j <= n {
        IsRunSnoc(ts, t, i, j);
      } else {
        RunStartsAfterBreak(ts', i, j, n);
      }
    }
  }

  /** Promoting the open run at the end yields the longest run, at most |ts|. */
  lemma RunFinal(ts: seq<int>, best: int, cur: int)
    requires RunInv(ts, best, cur)
    ensures IsLongestRun(ts, Promoted(best, cur))
    ensures 1 <= Promoted(best, cur) <= |ts|
  {
    if cur > best {
      assert IsRun(ts, |ts| - cur, |ts|);
    } else {
      var i, j :| IsRun(ts, i, j) && j - i == best;
    }
  }
}
