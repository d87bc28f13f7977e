/** The streak and points engine: rebuilding a user's streak record from the dates of their workouts. */
module StreakEngine {
  import opened Wrappers
  import opened Calendar
  import opened Records
  import opened Sequences

  function Abs(x: int): nat {
    if x < 0 then -x else x
  }

  /** The length of the run ending at u[i], as the walk over the sorted distinct dates counts it:
      a gap of exactly one day extends the run, any other gap starts a new run of 1. */
  function RunAt(u: seq<Day>, i: nat): (r: nat)
    requires i < |u|
    ensures 1 <= r <= i + 1
  {
    if i == 0 then 1
    else if Abs(u[i] - u[i - 1]) == 1 then RunAt(u, i - 1) + 1
    else 1
  }

  /** The largest RunAt(u, i) for i < n, and 0 when n is 0. */
  function LongestRun(u: seq<Day>, n: nat): (r: nat)
    requires n <= |u|
  {
    if n == 0 then 0
    else
      var before, here := LongestRun(u, n - 1), RunAt(u, n - 1);
      if here > before then here else before
  }

  /** The streak record rebuilt from the dates of all of a user's workouts, on day `today`. */
  function ComputeStreak(dates: seq<Day>, today: Day): (s: StreakInfo)
    ensures dates == [] ==> s == NoStreak
    ensures s.totalPoints == 10 * |set d | d in dates|
    ensures s.currentStreak <= s.longestStreak
    ensures s.lastLogDate.Some? <==> dates != []
    ensures s.lastLogDate.Some? ==>
              s.lastLogDate.value in dates && forall d :: d in dates ==> d <= s.lastLogDate.value
    ensures s.lastLogDate.Some? && today - s.lastLogDate.value > 1 ==> s.currentStreak == 0
  {
    if dates == [] then NoStreak
    else
      SortedStreakFacts(dates, today);
      StreakOfSorted(UniqueSorted(dates), today)
  }

  /** What ComputeStreak promises, for the record read off the sorted distinct dates. */
  lemma SortedStreakFacts(dates: seq<Day>, today: Day)
    requires dates != []
    ensures UniqueSorted(dates) != []
    ensures var s := StreakOfSorted(UniqueSorted(dates), today);
            && s.totalPoints == 10 * |set d | d in dates|
            && s.currentStreak <= s.longestStreak
            && s.lastLogDate.Some? && s.lastLogDate.value in dates
            && (forall d :: d in dates ==> d <= s.lastLogDate.value)
            && (today - s.lastLogDate.value > 1 ==> s.currentStreak == 0)
  {
    var u := UniqueSorted(dates);
    assert dates[0] in u;
    var s, last := StreakOfSorted(u, today), u[|u| - 1];
    assert s == StreakInfo(if today - last <= 1 then RunAt(u, |u| - 1) else 0, LongestRun(u, |u|), Some(last), |u| * 10);
    UniqueSortedLength(dates);
    LongestRunBounds(u, |u|);
    assert RunAt(u, |u| - 1) <= LongestRun(u, |u|);
    StrictlyIncreasingMax(u);
    assert last in dates;
  }

  /** The record for the non-empty sorted distinct dates u: the run at the last date while it is
      today or yesterday (0 otherwise), the longest run, the last date and ten points a day. */
  function StreakOfSorted(u: seq<Day>, today: Day): StreakInfo
    requires u != []
  {
    var last := u[|u| - 1];
    StreakInfo(if today - last <= 1 then RunAt(u, |u| - 1) else 0, LongestRun(u, |u|), Some(last), |u| * 10)
  }

  /** LongestRun(u, n) bounds every run before n and is attained by one of them. */
  lemma {:induction false} LongestRunBounds(u: seq<Day>, n: nat)
    requires n <= |u|
    ensures forall i :: 0 <= i < n ==> RunAt(u, i) <= LongestRun(u, n)
    ensures n > 0 ==> exists i :: 0 <= i < n && RunAt(u, i) == LongestRun(u, n)
  {
    if n > 0 {
      LongestRunBounds(u, n - 1);
      if n == 1 || RunAt(u, n - 1) > LongestRun(u, n - 1) {
        assert RunAt(u, n - 1) == LongestRun(u, n);
      } else {
        var i :| 0 <= i < n - 1 && RunAt(u, i) == LongestRun(u, n - 1);
        assert RunAt(u, i) == LongestRun(u, n);
      }
    }
  }

  /** The walk over the sorted distinct dates: the run ending at the last date and the longest run. */
  method WalkDates(u: seq<Day>) returns (tempStreak: nat, longestStreak: nat)
    ensures u == [] ==> tempStreak == 0
    ensures u != [] ==> tempStreak == RunAt(u, |u| - 1)
    ensures longestStreak == LongestRun(u, |u|)
  {
    tempStreak, longestStreak := 0, 0;
    for i := 0 to |u|
      invariant i == 0 ==> tempStreak == 0
      invariant i > 0 ==> tempStreak == RunAt(u, i - 1)
      invariant longestStreak == LongestRun(u, i)
    {
      if i == 0 {
        tempStreak := 1;
      } else {
        var diffDays := Abs(u[i] - u[i - 1]);
        if diffDays == 1 {
          tempStreak := tempStreak + 1;
        } else {
          tempStreak := 1;
        }
      }
      if tempStreak > longestStreak {
        longestStreak := tempStreak;
      }
    }
  }

  /** The computation of `recalculateStreakFull`: distinct sorted dates, points, the walk, and the
      check of the last date against today. */
  method RecalculateStreak(dates: seq<Day>, today: Day) returns (info: StreakInfo)
    ensures info == ComputeStreak(dates, today)
  {
    if |dates| == 0 {
      return NoStreak;
    }
    var uniqueDates := UniqueSorted(dates);
    assert dates[0] in uniqueDates;
    var points := |uniqueDates| * 10;
    var tempStreak, longestStreak := WalkDates(uniqueDates);
    var lastLogDate := uniqueDates[|uniqueDates| - 1];
    var diffFromToday := today - lastLogDate;
    var currentStreak := if diffFromToday <= 1 then tempStreak else 0;
    info := StreakInfo(currentStreak, longestStreak, Some(lastLogDate), points);
  }

  /** `end`, `end - 1`, ..., `end - n + 1` are all days with a workout. */
  ghost predicate LoggedBlock(dates: seq<Day>, end: Day, n: nat) {
    forall d :: end - n < d <= end ==> d in dates
  }

  /** In a strictly increasing list, a value one below u[i] can only sit just before it. */
  lemma PredecessorIsAdjacent(u: seq<Day>, i: nat)
    requires StrictlyIncreasing(u) && i < |u| && u[i] - 1 in u
    ensures i > 0 && u[i - 1] == u[i] - 1
  {
    var m :| 0 <= m < |u| && u[m] == u[i] - 1;
    assert m < i;
    assert u[m] <= u[i - 1];
  }

  /** The run ending at u[i] is a block of logged days that cannot be extended backwards. */
  lemma {:induction false} RunIsMaximalBlock(u: seq<Day>, i: nat)
    requires StrictlyIncreasing(u) && i < |u|
    ensures LoggedBlock(u, u[i], RunAt(u, i))
    ensures u[i] - RunAt(u, i) !in u
  {
    if i > 0 && Abs(u[i] - u[i - 1]) == 1 {
      RunIsMaximalBlock(u, i - 1);
      assert u[i] - u[i - 1] == 1;
      assert u[i] - RunAt(u, i) == u[i - 1] - RunAt(u, i - 1);
    } else {
      if i > 0 {
        assert u[i] - u[i - 1] > 1;
      }
      assert u[i] - 1 !in u by {
        if u[i] - 1 in u {
          PredecessorIsAdjacent(u, i);
        }
      }
    }
  }

  /** Every block of logged days ending at u[i] is at most as long as the run ending there. */
  lemma {:induction false} BlockWithinRun(u: seq<Day>, i: nat, n: nat)
    requires StrictlyIncreasing(u) && i < |u|
    requires LoggedBlock(u, u[i], n)
    ensures n <= RunAt(u, i)
  {
    if n > 1 {
      var d := u[i] - 1;
      assert u[i] - n < d <= u[i];
      PredecessorIsAdjacent(u, i);
      BlockWithinRun(u, i - 1, n - 1);
    }
  }

  /** longestStreak is the length of the longest block of consecutive days that all have a workout. */
  lemma LongestStreakIsLongestBlock(dates: seq<Day>, today: Day)
    ensures forall end: Day, n: nat :: LoggedBlock(dates, end, n) ==> n <= ComputeStreak(dates, today).longestStreak
    ensures exists end :: LoggedBlock(dates, end, ComputeStreak(dates, today).longestStreak)
  {
    var s := ComputeStreak(dates, today);
    if dates == [] {
      assert LoggedBlock(dates, 0, 0);
      forall end: Day, n: nat | LoggedBlock(dates, end, n) ensures n <= 0 {
        assert n > 0 ==> end in dates;
      }
    } else {
      var u := UniqueSorted(dates);
      LongestRunBounds(u, |u|);
      forall end: Day, n: nat | LoggedBlock(dates, end, n) ensures n <= s.longestStreak {
        if n > 0 {
          assert end in u by {
            assert end - n < end <= end;
          }
          var i :| 0 <= i < |u| && u[i] == end;
          BlockWithinRun(u, i, n);
        }
      }
      var i :| 0 <= i < |u| && RunAt(u, i) == LongestRun(u, |u|);
      RunIsMaximalBlock(u, i);
      assert LoggedBlock(dates, u[i], s.longestStreak);
    }
  }

  /** When the last logged day is today, yesterday or later, currentStreak counts the block of
      consecutive logged days ending on it, and the day before that block has no workout. */
  lemma CurrentStreakIsBlockAtLastDate(dates: seq<Day>, today: Day)
    requires dates != []
    ensures var s := ComputeStreak(dates, today);
            today - s.lastLogDate.value <= 1 ==>
              && s.currentStreak >= 1
              && LoggedBlock(dates, s.lastLogDate.value, s.currentStreak)
              && s.lastLogDate.value - s.currentStreak !in dates
  {
    var u := UniqueSorted(dates);
    assert dates[0] in u;
    var i := |u| - 1;
    RunIsMaximalBlock(u, i);
    var s := ComputeStreak(dates, today);
    assert s.lastLogDate == Some(u[i]);
    if today - u[i] <= 1 {
      assert s.currentStreak == RunAt(u, i);
      forall d | u[i] - RunAt(u, i) < d <= u[i] ensures d in dates {
        assert d in u;
      }
    }
  }

  /** The record depends only on the set of workout dates and today: order and repeats do not matter. */
  lemma SameDatesSameStreak(dates1: seq<Day>, dates2: seq<Day>, today: Day)
    requires forall d :: d in dates1 <==> d in dates2
    ensures ComputeStreak(dates1, today) == ComputeStreak(dates2, today)
  {
    SameMembersBothEmpty(dates1, dates2);
    var u1, u2 := UniqueSorted(dates1), UniqueSorted(dates2);
    StrictlyIncreasingUnique(u1, u2);
    if dates1 != [] {
      StreakFromSortedDates(dates1, today);
      StreakFromSortedDates(dates2, today);
    }
  }

  /** A non-empty record is read off the sorted distinct dates alone. */
  lemma StreakFromSortedDates(dates: seq<Day>, today: Day)
    requires dates != []
    ensures UniqueSorted(dates) != [] && ComputeStreak(dates, today) == StreakOfSorted(UniqueSorted(dates), today)
  {
    assert dates[0] in UniqueSorted(dates);
  }

  /** Three consecutive days ending today (2024-01-01 to 2024-01-03). */
  lemma ExampleThreeDayStreak()
    ensures ComputeStreak([19723, 19724, 19725], 19725) == StreakInfo(3, 3, Some(19725), 30)
  {
    var u := [19723, 19724, 19725];
    assert UniqueSorted([19723, 19724, 19725]) == u by {
      StrictlyIncreasingUnique(UniqueSorted([19723, 19724, 19725]), u);
    }
  }

  /** A gap of four days resets the run (2024-01-01 and 2024-01-05, today 2024-01-05). */
  lemma ExampleGapResets()
    ensures ComputeStreak([19723, 19727], 19727) == StreakInfo(1, 1, Some(19727), 20)
  {
    var u := [19723, 19727];
    assert UniqueSorted([19723, 19727]) == u by {
      StrictlyIncreasingUnique(UniqueSorted([19723, 19727]), u);
    }
    assert RunAt(u, 1) == 1;
    assert LongestRun(u, 2) == 1;
  }

  /** A streak last extended eight days ago is stale (2024-01-01 and 2024-01-02, today 2024-01-10). */
  lemma ExampleStaleStreak()
    ensures ComputeStreak([19723, 19724], 19732) == StreakInfo(0, 2, Some(19724), 20)
  {
    var u := [19723, 19724];
    assert UniqueSorted([19723, 19724]) == u by {
      StrictlyIncreasingUnique(UniqueSorted([19723, 19724]), u);
    }
  }

  /** The record updateStreak writes directly for a user whose record has no lastLogDate yet. */
  function FirstDateRecord(s: StreakInfo, d: Day): (r: StreakInfo)
    ensures r.currentStreak == 1 && r.longestStreak == 1
    ensures r.totalPoints == s.totalPoints + 10 && r.lastLogDate == Some(d)
  {
    s.(currentStreak := 1, longestStreak := 1, totalPoints := s.totalPoints + 10, lastLogDate := Some(d))
  }

  /** For a user whose workouts all fall on one day d and whose record holds no points, the direct
      write agrees with a full recompute exactly when d is not before yesterday. */
  lemma FirstDateAgreesWithRecompute(s: StreakInfo, d: Day, dates: seq<Day>, today: Day)
    requires s.totalPoints == 0
    requires d in dates && forall x :: x in dates ==> x == d
    ensures FirstDateRecord(s, d) == ComputeStreak(dates, today) <==> today - d <= 1
  {
    SameDatesSameStreak(dates, [d], today);
    assert UniqueSorted([d]) == [d];
    assert RunAt([d], 0) == 1;
    assert LongestRun([d], 1) == 1;
    assert |set x | x in [d]| == 1 by {
      assert (set x | x in [d]) == {d};
    }
  }
}
