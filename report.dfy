/** The weekly report page: the last week's workouts and daily stats, the ten most recent sessions,
    the calorie total, the seven daily calorie buckets behind the bar chart and the RPE badge colours. */
module WeeklyReport {
  import opened Wrappers
  import opened Calendar
  import opened Records
  import opened Sequences
  import opened JsObject
  import WorkoutsPage

  // The clock. `now` is the current instant in minutes since 1970-01-01T00:00Z and `utcOffset` the
  // local zone's offset in minutes (local time = UTC + offset, as `-getTimezoneOffset()` gives it).

  /** The local calendar day of an instant. */
  function LocalDay(instant: int, utcOffset: int): Day {
    (instant + utcOffset) / MinutesPerDay
  }

  /** `oneWeekAgo`: the same clock time seven days earlier. */
  function OneWeekAgo(now: int): (r: int)
    ensures r / MinutesPerDay == now / MinutesPerDay - 7 && r % MinutesPerDay == now % MinutesPerDay
  {
    now - 7 * MinutesPerDay
  }

  /** `new Date(date) >= oneWeekAgo`: a bare date string is read as midnight UTC. */
  predicate InLastWeek(date: Day, now: int): (b: bool)
    ensures date >= now / MinutesPerDay - 6 ==> b
    ensures b ==> date >= now / MinutesPerDay - 7
  {
    date * MinutesPerDay >= OneWeekAgo(now)
  }

  /** Which dates the week covers: with t the UTC day of `now`, the days from t - 6 on, and also
      t - 7 when `now` is exactly midnight UTC. */
  lemma LastWeekBoundary(date: Day, now: int)
    ensures InLastWeek(date, now) <==>
              if now % MinutesPerDay == 0 then date >= now / MinutesPerDay - 7 else date >= now / MinutesPerDay - 6
  {
    var t, m := now / MinutesPerDay, now % MinutesPerDay;
    assert now == t * MinutesPerDay + m;
    assert InLastWeek(date, now) <==> (date - t + 7) * MinutesPerDay >= m;
    if date >= t - 6 {
      assert (date - t + 7) * MinutesPerDay >= MinutesPerDay;
    } else if date <= t - 8 {
      assert (date - t + 7) * MinutesPerDay <= -MinutesPerDay;
    }
  }

  /** `weeklyWorkouts`: the workouts dated on or after one week ago, in their stored order. */
  function WeeklyWorkouts(ws: seq<Workout>, now: int): (r: seq<Workout>)
    ensures forall w :: w in r <==> w in ws && InLastWeek(w.date, now)
    ensures forall w :: multiset(r)[w] == if InLastWeek(w.date, now) then multiset(ws)[w] else 0
    ensures Subsequence(r, ws)
  {
    FilterMembers(ws, (w: Workout) => InLastWeek(w.date, now));
    Filter(ws, (w: Workout) => InLastWeek(w.date, now))
  }

  /** `weeklyDailyStats`: the daily stats dated on or after one week ago. */
  function WeeklyDailyStats(stats: seq<DailyStats>, now: int): (r: seq<DailyStats>)
    ensures forall s :: s in r <==> s in stats && InLastWeek(s.date, now)
    ensures forall s :: multiset(r)[s] == if InLastWeek(s.date, now) then multiset(stats)[s] else 0
    ensures Subsequence(r, stats)
  {
    FilterMembers(stats, (s: DailyStats) => InLastWeek(s.date, now));
    Filter(stats, (s: DailyStats) => InLastWeek(s.date, now))
  }

  /** `recentWorkouts`: at most ten workouts, newest first by date and time, and no omitted workout
      is newer than one shown; among workouts at the same time the earlier stored ones are shown, in
      stored order. */
  method RecentWorkouts(ws: seq<Workout>) returns (recent: seq<Workout>)
    ensures |recent| == if |ws| < 10 then |ws| else 10
    ensures NonIncreasing(recent, Timestamp)
    ensures multiset(recent) <= multiset(ws)
    ensures |ws| <= 10 ==> multiset(recent) == multiset(ws)
    ensures forall x, y :: x in multiset(ws) - multiset(recent) && y in recent ==> Timestamp(x) <= Timestamp(y)
    ensures forall c :: Ties(recent, Timestamp, c) <= Ties(ws, Timestamp, c)
  {
    recent := TopByKey(ws, Timestamp, 10);
  }

  /** The calories of a list of workouts, as `reduce((acc, w) => acc + w.caloriesBurned, 0)`. */
  function SumCalories(ws: seq<Workout>): (total: int)
    ensures (forall w :: w in ws ==> w.caloriesBurned >= 0) ==> total >= 0
  {
    if ws == [] then 0
    else
      assert forall w :: w in ws[..|ws| - 1] ==> w in ws;
      SumCalories(ws[..|ws| - 1]) + ws[|ws| - 1].caloriesBurned
  }

  /** The calories of the workouts dated d. */
  function CaloriesOn(ws: seq<Workout>, d: Day): int {
    if ws == [] then 0
    else CaloriesOn(ws[..|ws| - 1], d) + if ws[|ws| - 1].date == d then ws[|ws| - 1].caloriesBurned else 0
  }

  /** The calories of the workouts dated on one of the days ks. */
  function CaloriesIn(ws: seq<Workout>, ks: seq<Day>): int {
    if ws == [] then 0
    else CaloriesIn(ws[..|ws| - 1], ks) + if ws[|ws| - 1].date in ks then ws[|ws| - 1].caloriesBurned else 0
  }

  /** The calories of the workouts dated on none of the days ks. */
  function CaloriesOutside(ws: seq<Workout>, ks: seq<Day>): int {
    if ws == [] then 0
    else CaloriesOutside(ws[..|ws| - 1], ks) + if ws[|ws| - 1].date !in ks then ws[|ws| - 1].caloriesBurned else 0
  }

  /** Every calorie of a list belongs either to a workout dated on one of the days ks or to one that
      is not, and none is outside when every workout is dated on one of them. */
  lemma {:induction false} CaloriesByDays(ws: seq<Workout>, ks: seq<Day>)
    ensures SumCalories(ws) == CaloriesIn(ws, ks) + CaloriesOutside(ws, ks)
    ensures (forall w :: w in ws ==> w.date in ks) ==> CaloriesOutside(ws, ks) == 0
  {
    if ws != [] {
      CaloriesByDays(ws[..|ws| - 1], ks);
      assert forall w :: w in ws[..|ws| - 1] ==> w in ws;
    }
  }

  /** `totalCalories`: the calories of the last week's workouts. */
  function TotalCalories(ws: seq<Workout>, now: int): (total: int)
    ensures total == SumCalories(WeeklyWorkouts(ws, now))
    ensures (forall w :: w in ws ==> w.caloriesBurned >= 0) ==> total >= 0
  {
    SumCalories(WeeklyWorkouts(ws, now))
  }

  /** The days of the chart: today and the six days before it, oldest first. */
  function Window(today: Day): (r: seq<Day>)
    ensures |r| == 7
    ensures forall i :: 0 <= i < 7 ==> r[i] == today - 6 + i
  {
    seq(7, i => today - 6 + i)
  }

  /** The first loop of `dailyCalories`: a zero for today and each of the six days before it,
      oldest first. */
  method EmptyBuckets(today: Day) returns (daily: Dict<Day, int>)
    ensures daily.Valid()
    ensures daily.keys == Window(today)
    ensures forall d :: d in daily.vals ==> daily.vals[d] == 0
  {
    daily := EmptyDict();
    var i := 6;
    while i >= 0
      invariant -1 <= i <= 6
      invariant daily.Valid()
      invariant daily.keys == Window(today)[..6 - i]
      invariant forall d :: d in daily.vals ==> daily.vals[d] == 0
    {
      assert Window(today)[..6 - i + 1] == Window(today)[..6 - i] + [today - i];
      assert today - i !in Window(today)[..6 - i];
      daily := Put(daily, today - i, 0);
      i := i - 1;
    }
    assert Window(today)[..7] == Window(today);
  }

  /** One step of the `forEach`: the workout's calories go to its day when that day is a key. */
  lemma BucketStep(daily: Dict<Day, int>, today: Day, done: seq<Workout>, w: Workout)
    requires BucketsOf(daily, today, done)
    ensures BucketsOf(if w.date in daily.vals then Put(daily, w.date, daily.vals[w.date] + w.caloriesBurned) else daily,
                      today, done + [w])
  {
    assert (done + [w])[..|done|] == done;
  }

  /** The buckets of the window after the workouts `done`: one per day, in order, each holding the
      calories of those workouts on its day. */
  ghost predicate BucketsOf(daily: Dict<Day, int>, today: Day, done: seq<Workout>) {
    && daily.Valid()
    && daily.keys == Window(today)
    && forall d :: d in daily.vals ==> daily.vals[d] == CaloriesOn(done, d)
  }

  /** `dailyCalories`: one key per day of the window, in order, each holding the calories of the given
      workouts on that day; workouts dated outside the window are ignored. */
  method DailyCalories(weekly: seq<Workout>, today: Day) returns (daily: Dict<Day, int>)
    ensures daily.Valid()
    ensures daily.keys == Window(today)
    ensures forall d :: d in daily.vals ==> daily.vals[d] == CaloriesOn(weekly, d)
  {
    daily := EmptyBuckets(today);
    for j := 0 to |weekly|
      invariant BucketsOf(daily, today, weekly[..j])
    {
      var w := weekly[j];
      assert weekly[..j + 1] == weekly[..j] + [w];
      BucketStep(daily, today, weekly[..j], w);
      if w.date in daily.vals {
        daily := Put(daily, w.date, daily.vals[w.date] + w.caloriesBurned);
      }
    }
    assert weekly[..|weekly|] == weekly;
  }

  /** The page takes the chart's `today` and the filter's `now` from one clock, `today` being the local
      day of `now`. Then a day of the window is in the week except, west of UTC, the oldest one; and a
      weekly workout dated no later than today falls outside the window only on the day before it,
      east of UTC or when `now` is midnight UTC. Later dates, which the filter keeps, are never in it. */
  lemma WindowAgainstWeek(date: Day, now: int, utcOffset: int)
    requires -MinutesPerDay < utcOffset < MinutesPerDay
    ensures utcOffset >= 0 && date in Window(LocalDay(now, utcOffset)) ==> InLastWeek(date, now)
    ensures InLastWeek(date, now) && date <= LocalDay(now, utcOffset) ==>
              date in Window(LocalDay(now, utcOffset)) ||
              (date == LocalDay(now, utcOffset) - 7 && (utcOffset > 0 || now % MinutesPerDay == 0))
    ensures date > LocalDay(now, utcOffset) ==> date !in Window(LocalDay(now, utcOffset))
  {
    var t, m := now / MinutesPerDay, now % MinutesPerDay;
    var l := LocalDay(now, utcOffset);
    assert now + utcOffset == t * MinutesPerDay + (m + utcOffset);
    assert l == t + (m + utcOffset) / MinutesPerDay;
    assert t - 1 <= l <= t + 1;
    assert l == t + 1 ==> utcOffset > 0 && m != 0;
    assert l == t - 1 ==> utcOffset < 0;
    LastWeekBoundary(date, now);
    if date <= l && date >= l - 6 {
      assert Window(l)[date - l + 6] == date;
    }
  }

  /** The buckets hold every calorie of the workouts dated inside the window, and the rest of the
      total belongs to workouts dated outside it. */
  lemma BucketsSumToWindowCalories(weekly: seq<Workout>, today: Day, daily: Dict<Day, int>)
    requires daily.Valid() && daily.keys == Window(today)
    requires forall d :: d in daily.vals ==> daily.vals[d] == CaloriesOn(weekly, d)
    ensures SumValues(daily) == CaloriesIn(weekly, Window(today))
    ensures SumCalories(weekly) == SumValues(daily) + CaloriesOutside(weekly, Window(today))
    ensures (forall w :: w in weekly ==> w.date in Window(today)) ==> SumValues(daily) == SumCalories(weekly)
  {
    SumOverOfCalories(weekly, daily.keys, daily.vals);
    CaloriesByDays(weekly, Window(today));
  }

  lemma {:induction false} SumOverOfCalories(ws: seq<Workout>, ks: seq<Day>, m: map<Day, int>)
    requires forall i, j :: 0 <= i < j < |ks| ==> ks[i] != ks[j]
    requires forall k :: k in ks ==> k in m && m[k] == CaloriesOn(ws, k)
    ensures SumOver(ks, m) == CaloriesIn(ws, ks)
  {
    if ks == [] {
      CaloriesInNone(ws, ks);
    } else {
      var init, last := ks[..|ks| - 1], ks[|ks| - 1];
      assert forall k :: k in init ==> k in ks;
      SumOverOfCalories(ws, init, m);
      assert last !in init;
      CaloriesInSplit(ws, init, last);
      assert init + [last] == ks;
    }
  }

  lemma {:induction false} CaloriesInNone(ws: seq<Workout>, ks: seq<Day>)
    requires ks == []
    ensures CaloriesIn(ws, ks) == 0
  {
    if ws != [] {
      CaloriesInNone(ws[..|ws| - 1], ks);
    }
  }

  /** Adding one more day to the list adds that day's calories. */
  lemma {:induction false} CaloriesInSplit(ws: seq<Workout>, ks: seq<Day>, d: Day)
    requires d !in ks
    ensures CaloriesIn(ws, ks + [d]) == CaloriesIn(ws, ks) + CaloriesOn(ws, d)
  {
    if ws != [] {
      CaloriesInSplit(ws[..|ws| - 1], ks, d);
      var w := ws[|ws| - 1];
      assert w.date in ks + [d] <==> w.date in ks || w.date == d;
    }
  }

  /** One bar of the chart. */
  datatype Bar = Bar(name: string, calories: int)

  const WeekdayNames: seq<string> := ["Sun", "Mon", "Tue", "Wed", "Thu", "Fri", "Sat"]

  /** `new Date(date).toLocaleDateString('en-US', { weekday: 'short' })`: the weekday, in the local
      zone, of midnight UTC on that date. */
  function WeekdayLabel(date: Day, utcOffset: int): (s: string)
    ensures s in WeekdayNames
  {
    WeekdayNames[DayOfWeek(LocalDay(date * MinutesPerDay, utcOffset))]
  }

  /** In zones at or east of UTC the label is the date's own weekday; west of UTC it is the weekday of
      the day before. */
  lemma WeekdayLabelZone(date: Day, utcOffset: int)
    requires -MinutesPerDay < utcOffset < MinutesPerDay
    ensures utcOffset >= 0 ==> WeekdayLabel(date, utcOffset) == WeekdayNames[DayOfWeek(date)]
    ensures utcOffset < 0 ==> WeekdayLabel(date, utcOffset) == WeekdayNames[DayOfWeek(date - 1)]
  {
    if utcOffset >= 0 {
      assert LocalDay(date * MinutesPerDay, utcOffset) == date;
    } else {
      assert date * MinutesPerDay + utcOffset == (date - 1) * MinutesPerDay + (MinutesPerDay + utcOffset);
      assert LocalDay(date * MinutesPerDay, utcOffset) == date - 1;
    }
  }

  /** `chartData`: one bar per key, keys in ascending order, each with its weekday label and calories. */
  function ChartData(daily: Dict<Day, int>, utcOffset: int): (r: seq<Bar>)
    requires daily.Valid()
    ensures |r| == |UniqueSorted(daily.keys)|
    ensures forall i :: 0 <= i < |r| ==>
              var d := UniqueSorted(daily.keys)[i];
              d in daily.vals && r[i] == Bar(WeekdayLabel(d, utcOffset), daily.vals[d])
  {
    var sorted := UniqueSorted(daily.keys);
    seq(|sorted|, i requires 0 <= i < |sorted| => Bar(WeekdayLabel(sorted[i], utcOffset), daily.vals[sorted[i]]))
  }

  /** Keys already in ascending order are charted in that order. */
  lemma ChartOfAscendingKeys(daily: Dict<Day, int>, utcOffset: int)
    requires daily.Valid() && StrictlyIncreasing(daily.keys)
    ensures |ChartData(daily, utcOffset)| == |daily.keys|
    ensures forall i :: 0 <= i < |daily.keys| ==>
              ChartData(daily, utcOffset)[i] == Bar(WeekdayLabel(daily.keys[i], utcOffset), daily.vals[daily.keys[i]])
  {
    StrictlyIncreasingUnique(UniqueSorted(daily.keys), daily.keys);
  }

  /** The chart of the report: seven bars, oldest day first (day i of the window is today - 6 + i),
      each with the label and the bucket of its day. */
  lemma ChartOfWindow(today: Day, daily: Dict<Day, int>, utcOffset: int)
    requires daily.Valid() && daily.keys == Window(today)
    ensures |ChartData(daily, utcOffset)| == 7
    ensures forall i :: 0 <= i < 7 ==>
              var d := Window(today)[i];
              d in daily.vals && ChartData(daily, utcOffset)[i] == Bar(WeekdayLabel(d, utcOffset), daily.vals[d])
  {
    ChartOfAscendingKeys(daily, utcOffset);
  }

  /** `daysLogged`: the number of daily stats of the last week, or 1 when there are none, so the
      averages never divide by zero. */
  function DaysLogged(stats: seq<DailyStats>, now: int): (r: nat)
    ensures r >= 1
    ensures r == |WeeklyDailyStats(stats, now)| || (r == 1 && WeeklyDailyStats(stats, now) == [])
  {
    var weekly := WeeklyDailyStats(stats, now);
    if |weekly| == 0 then 1 else |weekly|
  }

  const IntensityColors: seq<string> := [
    "bg-emerald-100 text-emerald-800 border-emerald-200 dark:bg-emerald-900/30 dark:text-emerald-300 dark:border-emerald-800",
    "bg-amber-100 text-amber-800 border-amber-200 dark:bg-amber-900/30 dark:text-amber-300 dark:border-amber-800",
    "bg-orange-100 text-orange-800 border-orange-200 dark:bg-orange-900/30 dark:text-orange-300 dark:border-orange-800",
    "bg-red-100 text-red-800 border-red-200 dark:bg-red-900/30 dark:text-red-300 dark:border-red-800"]

  /** `getIntensityColor(rpe)`: the badge of the same four RPE bands as the workout log. */
  function IntensityColor(rpe: real): (r: string)
    ensures r == IntensityColors[WorkoutsPage.RpeBand(rpe)]
  {
    if rpe <= 3.0 then IntensityColors[0]
    else if rpe <= 6.0 then IntensityColors[1]
    else if rpe <= 8.0 then IntensityColors[2]
    else IntensityColors[3]
  }

  lemma BadgesDistinct(i: nat, j: nat)
    requires i < 4 && j < 4 && i != j
    ensures IntensityColors[i] != IntensityColors[j]
  {
  }

  /** Two RPE values get the same badge exactly when they are in the same band, so the report and the
      workout log group RPE values alike. */
  lemma SameBandSameBadge(a: real, b: real)
    ensures IntensityColor(a) == IntensityColor(b) <==> WorkoutsPage.RpeBand(a) == WorkoutsPage.RpeBand(b)
    ensures IntensityColor(a) == IntensityColor(b) <==> WorkoutsPage.RpeColor(a) == WorkoutsPage.RpeColor(b)
  {
    var ia, ib := WorkoutsPage.RpeBand(a), WorkoutsPage.RpeBand(b);
    if ia != ib {
      BadgesDistinct(ia, ib);
    }
    WorkoutsPage.RpeColorSeparatesBands(a, b);
  }
}
