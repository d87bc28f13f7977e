/** The dashboard's derivations: the yearly activity heat map, the per-type and per-intensity tallies,
    the top calorie-burning activities, the water and sleep controls and the goal percentage. */
module Dashboard {
  import opened Wrappers
  import opened Calendar
  import opened Records
  import opened Sequences
  import opened JsObject
  import Storage

  // ---------------------------------------------------------------------------------------------
  // Heat map

  /** The first and last day shown for a year: stepped back from January 1 to a Sunday and forward
      from December 31 to a Saturday. */
  method HeatmapRange(year: int) returns (startDate: Day, endDate: Day)
    ensures DayOfWeek(startDate) == 0 && startDate <= YearStart(year) < startDate + 7
    ensures DayOfWeek(endDate) == 6 && YearEnd(year) <= endDate < YearEnd(year) + 7
  {
    startDate := YearStart(year);
    while DayOfWeek(startDate) != 0
      invariant startDate <= YearStart(year)
      invariant DayOfWeek(startDate) == DayOfWeek(YearStart(year)) - (YearStart(year) - startDate)
      decreases DayOfWeek(startDate)
    {
      PreviousDayOfWeek(startDate);
      startDate := startDate - 1;
    }
    endDate := YearEnd(year);
    while DayOfWeek(endDate) != 6
      invariant YearEnd(year) <= endDate
      invariant DayOfWeek(endDate) == DayOfWeek(YearEnd(year)) + (endDate - YearEnd(year))
      decreases 6 - DayOfWeek(endDate)
    {
      NextDayOfWeek(endDate);
      endDate := endDate + 1;
    }
  }

  /** The number of workouts per date, `workoutMap`: a date with no workout has no entry. */
  method CountByDate(ws: seq<Workout>) returns (workoutMap: map<Day, nat>)
    ensures forall d :: d in workoutMap <==> d in Dates(ws)
    ensures forall d :: d in workoutMap ==> workoutMap[d] == multiset(Dates(ws))[d]
  {
    workoutMap := map[];
    for i := 0 to |ws|
      invariant forall d :: d in workoutMap <==> d in Dates(ws)[..i]
      invariant forall d :: d in workoutMap ==> workoutMap[d] == multiset(Dates(ws)[..i])[d]
    {
      assert Dates(ws)[..i + 1] == Dates(ws)[..i] + [ws[i].date];
      var count := if ws[i].date in workoutMap then workoutMap[ws[i].date] else 0;
      workoutMap := workoutMap[ws[i].date := count + 1];
    }
    assert Dates(ws)[..|ws|] == Dates(ws);
  }

  /** `workoutMap.get(d) || 0`. */
  function CountOn(workoutMap: map<Day, nat>, d: Day): (c: nat)
    ensures d !in workoutMap ==> c == 0
    ensures d in workoutMap ==> c == workoutMap[d]
  {
    if d in workoutMap then workoutMap[d] else 0
  }

  /** One square of the heat map. The month label is left out. */
  datatype Cell = Cell(date: Day, count: nat, dayOfWeek: int, inSelectedYear: bool)

  /** One cell per day from startDate to endDate, each with that day's workout count. */
  method BuildCells(workoutMap: map<Day, nat>, year: int, startDate: Day, endDate: Day) returns (data: seq<Cell>)
    ensures |data| == if startDate <= endDate then endDate - startDate + 1 else 0
    ensures forall i :: 0 <= i < |data| ==>
              data[i] == Cell(startDate + i, CountOn(workoutMap, startDate + i), DayOfWeek(startDate + i), InYear(startDate + i, year))
  {
    data := [];
    var currentDate := startDate;
    while currentDate <= endDate
      invariant currentDate == startDate + |data|
      invariant startDate <= endDate + 1 ==> currentDate <= endDate + 1
      invariant startDate > endDate ==> data == []
      invariant forall i :: 0 <= i < |data| ==>
                  data[i] == Cell(startDate + i, CountOn(workoutMap, startDate + i), DayOfWeek(startDate + i), InYear(startDate + i, year))
      decreases endDate - currentDate
    {
      data := data + [Cell(currentDate, CountOn(workoutMap, currentDate), DayOfWeek(currentDate), InYear(currentDate, year))];
      currentDate := currentDate + 1;
    }
  }

  /** The weeks laid end to end. */
  function Flatten(weeks: seq<seq<Cell>>): (r: seq<Cell>)
  {
    if weeks == [] then [] else Flatten(weeks[..|weeks| - 1]) + weeks[|weeks| - 1]
  }

  lemma FlattenSnoc(weeks: seq<seq<Cell>>, week: seq<Cell>)
    ensures Flatten(weeks + [week]) == Flatten(weeks) + week
  {
    assert (weeks + [week])[..|weeks|] == weeks;
  }

  /** A week is non-empty and only its last day can be a Saturday. */
  ghost predicate ProperWeek(w: seq<Cell>) {
    w != [] && forall j :: 0 <= j < |w| - 1 ==> w[j].dayOfWeek != 6
  }

  /** The weeks partition data: they concatenate to it, none is empty, a Saturday ends every one of
      them except that the last may stop short of one. */
  ghost predicate WeekPartition(weeks: seq<seq<Cell>>, data: seq<Cell>) {
    && Flatten(weeks) == data
    && (forall k :: 0 <= k < |weeks| ==> ProperWeek(weeks[k]))
    && (forall k :: 0 <= k < |weeks| - 1 ==> weeks[k][|weeks[k]| - 1].dayOfWeek == 6)
  }

  /** Cutting the day list after every Saturday. */
  method ChunkWeeks(data: seq<Cell>) returns (weeks: seq<seq<Cell>>)
    ensures WeekPartition(weeks, data)
    ensures data != [] && data[|data| - 1].dayOfWeek == 6 ==>
              weeks[|weeks| - 1][|weeks[|weeks| - 1]| - 1].dayOfWeek == 6
  {
    weeks := [];
    var currentWeek: seq<Cell> := [];
    for i := 0 to |data|
      invariant Chunking(weeks, currentWeek, data[..i])
      invariant i > 0 && data[i - 1].dayOfWeek == 6 ==> currentWeek == [] && weeks != []
    {
      assert data[..i + 1] == data[..i] + [data[i]];
      if data[i].dayOfWeek == 6 {
        ChunkClose(weeks, currentWeek, data[..i], data[i]);
        weeks, currentWeek := weeks + [currentWeek + [data[i]]], [];
      } else {
        ChunkPush(weeks, currentWeek, data[..i], data[i]);
        currentWeek := currentWeek + [data[i]];
      }
    }
    assert data[..|data|] == data;
    if |currentWeek| > 0 {
      ChunkFinishOpen(weeks, currentWeek, data);
      weeks := weeks + [currentWeek];
    } else {
      ChunkFinishClosed(weeks, data);
    }
  }

  /** The state of the loop after the days `done`: the closed weeks each end on a Saturday, and they
      and the open week, which has no Saturday, concatenate to `done`. */
  ghost predicate Chunking(weeks: seq<seq<Cell>>, currentWeek: seq<Cell>, done: seq<Cell>) {
    && Flatten(weeks) + currentWeek == done
    && ClosedWeeks(weeks)
    && (forall j :: 0 <= j < |currentWeek| ==> currentWeek[j].dayOfWeek != 6)
  }

  /** Every week is proper and ends on a Saturday. */
  ghost predicate ClosedWeeks(weeks: seq<seq<Cell>>) {
    forall k :: 0 <= k < |weeks| ==> ProperWeek(weeks[k]) && weeks[k][|weeks[k]| - 1].dayOfWeek == 6
  }

  lemma ChunkPush(weeks: seq<seq<Cell>>, currentWeek: seq<Cell>, done: seq<Cell>, c: Cell)
    requires Chunking(weeks, currentWeek, done) && c.dayOfWeek != 6
    ensures Chunking(weeks, currentWeek + [c], done + [c])
  {
    assert Flatten(weeks) + (currentWeek + [c]) == (Flatten(weeks) + currentWeek) + [c];
  }

  lemma ChunkClose(weeks: seq<seq<Cell>>, currentWeek: seq<Cell>, done: seq<Cell>, c: Cell)
    requires Chunking(weeks, currentWeek, done) && c.dayOfWeek == 6
    ensures Chunking(weeks + [currentWeek + [c]], [], done + [c])
  {
    var week := currentWeek + [c];
    FlattenSnoc(weeks, week);
    assert Flatten(weeks) + week == (Flatten(weeks) + currentWeek) + [c];
    assert ProperWeek(week);
    AppendClosedWeek(weeks, week);
  }

  lemma ChunkFinishOpen(weeks: seq<seq<Cell>>, currentWeek: seq<Cell>, data: seq<Cell>)
    requires Chunking(weeks, currentWeek, data) && currentWeek != []
    ensures WeekPartition(weeks + [currentWeek], data)
  {
    FlattenSnoc(weeks, currentWeek);
    AppendProperWeek(weeks, currentWeek);
    AppendSaturdayWeek(weeks, currentWeek);
  }

  lemma ChunkFinishClosed(weeks: seq<seq<Cell>>, data: seq<Cell>)
    requires Chunking(weeks, [], data)
    ensures WeekPartition(weeks, data)
  {
    assert Flatten(weeks) + [] == Flatten(weeks);
  }

  /** Appending a proper week to proper weeks. */
  lemma AppendProperWeek(weeks: seq<seq<Cell>>, week: seq<Cell>)
    requires forall k :: 0 <= k < |weeks| ==> ProperWeek(weeks[k])
    requires ProperWeek(week)
    ensures forall k :: 0 <= k < |weeks + [week]| ==> ProperWeek((weeks + [week])[k])
  {
    forall k | 0 <= k < |weeks + [week]| ensures ProperWeek((weeks + [week])[k]) {
      if k < |weeks| {
        assert (weeks + [week])[k] == weeks[k];
      } else {
        assert (weeks + [week])[k] == week;
      }
    }
  }

  /** Appending a week after weeks that each end on a Saturday; the new week ends on one when it does. */
  lemma AppendSaturdayWeek(weeks: seq<seq<Cell>>, week: seq<Cell>)
    requires forall k :: 0 <= k < |weeks| ==> weeks[k] != [] && weeks[k][|weeks[k]| - 1].dayOfWeek == 6
    requires week != []
    ensures forall k :: 0 <= k < |weeks| ==>
              (weeks + [week])[k] == weeks[k] && weeks[k][|weeks[k]| - 1].dayOfWeek == 6
    ensures (weeks + [week])[|weeks|] == week
  {
  }

  /** Appending a proper week that ends on a Saturday to closed weeks. */
  lemma AppendClosedWeek(weeks: seq<seq<Cell>>, week: seq<Cell>)
    requires ClosedWeeks(weeks) && ProperWeek(week) && week[|week| - 1].dayOfWeek == 6
    ensures ClosedWeeks(weeks + [week])
  {
    var ws := weeks + [week];
    forall k | 0 <= k < |ws| ensures ProperWeek(ws[k]) && ws[k][|ws[k]| - 1].dayOfWeek == 6 {
      if k < |weeks| {
        assert ws[k] == weeks[k];
      } else {
        assert ws[k] == week;
      }
    }
  }

  /** The cells of a year's heat map: consecutive days from the Sunday on or before January 1 to the
      Saturday on or after December 31, each counting the workouts of its date. */
  ghost predicate HeatmapCells(ws: seq<Workout>, year: int, cells: seq<Cell>) {
    && cells != []
    && cells[0].dayOfWeek == 0 && cells[0].date <= YearStart(year) < cells[0].date + 7
    && cells[|cells| - 1].dayOfWeek == 6
    && YearEnd(year) <= cells[|cells| - 1].date < YearEnd(year) + 7
    && (forall i :: 0 <= i < |cells| ==> cells[i].date == cells[0].date + i)
    && (forall i :: 0 <= i < |cells| ==> cells[i].count == multiset(Dates(ws))[cells[i].date])
    && (forall i :: 0 <= i < |cells| ==> (cells[i].inSelectedYear <==> InYear(cells[i].date, year)))
  }

  /** `generateHeatmapData(year)`: the weeks of cells from the Sunday on or before January 1 to the
      Saturday on or after December 31, each cell counting the workouts of its date, seven to a week. */
  method GenerateHeatmapData(ws: seq<Workout>, year: int) returns (weeks: seq<seq<Cell>>)
    ensures HeatmapCells(ws, year, Flatten(weeks))
    ensures forall k :: 0 <= k < |weeks| ==> |weeks[k]| == 7
  {
    var startDate, endDate := HeatmapRange(year);
    var workoutMap := CountByDate(ws);
    var data := BuildCells(workoutMap, year, startDate, endDate);
    CellsOfRange(ws, year, workoutMap, startDate, endDate, data);
    weeks := ChunkWeeks(data);
    WeeksOfRange(weeks, data, startDate, endDate);
  }

  /** The cells built over the range of a year are that year's heat map cells. */
  lemma CellsOfRange(ws: seq<Workout>, year: int, workoutMap: map<Day, nat>, startDate: Day, endDate: Day, data: seq<Cell>)
    requires DayOfWeek(startDate) == 0 && startDate <= YearStart(year) < startDate + 7
    requires DayOfWeek(endDate) == 6 && YearEnd(year) <= endDate < YearEnd(year) + 7
    requires forall d :: d in workoutMap <==> d in Dates(ws)
    requires forall d :: d in workoutMap ==> workoutMap[d] == multiset(Dates(ws))[d]
    requires |data| == if startDate <= endDate then endDate - startDate + 1 else 0
    requires forall i :: 0 <= i < |data| ==>
               data[i] == Cell(startDate + i, CountOn(workoutMap, startDate + i), DayOfWeek(startDate + i), InYear(startDate + i, year))
    ensures HeatmapCells(ws, year, data)
  {
    YearLength(year);
    assert startDate <= endDate;
    forall i | 0 <= i < |data| ensures data[i].count == multiset(Dates(ws))[data[i].date] {
      var d := data[i].date;
      if d !in workoutMap {
        assert d !in multiset(Dates(ws));
      }
    }
  }

  /** Cut from Sunday to Saturday, the cells fall into weeks of seven. */
  lemma WeeksOfRange(weeks: seq<seq<Cell>>, data: seq<Cell>, startDate: Day, endDate: Day)
    requires WeekPartition(weeks, data)
    requires DayOfWeek(startDate) == 0 && DayOfWeek(endDate) == 6 && startDate <= endDate
    requires |data| == endDate - startDate + 1
    requires forall i :: 0 <= i < |data| ==> data[i].dayOfWeek == DayOfWeek(startDate + i)
    ensures forall k :: 0 <= k < |weeks| ==> |weeks[k]| == 7
  {
    forall i | 0 <= i < |data| ensures data[i].dayOfWeek == i % 7 {
      DayOfWeekOffset(startDate, i);
    }
    assert |data| % 7 == 0 by {
      DayOfWeekOffset(startDate, |data| - 1);
    }
    WeeksOfSeven(weeks, data);
  }

  lemma DayOfWeekOffset(start: Day, i: nat)
    requires DayOfWeek(start) == 0
    ensures DayOfWeek(start + i) == i % 7
  {
  }

  /** When the days run Sunday to Saturday over and over, every week of a partition has seven days. */
  lemma {:induction false} WeeksOfSeven(weeks: seq<seq<Cell>>, data: seq<Cell>)
    requires WeekPartition(weeks, data)
    requires forall i :: 0 <= i < |data| ==> data[i].dayOfWeek == i % 7
    requires |data| % 7 == 0
    ensures forall k :: 0 <= k < |weeks| ==> |weeks[k]| == 7
  {
    if weeks != [] {
      var init, last := weeks[..|weeks| - 1], weeks[|weeks| - 1];
      var n := |Flatten(init)|;
      assert Flatten(init) == data[..n];
      assert last == data[n..];
      assert forall k :: 0 <= k < |init| ==> init[k] == weeks[k];
      if init != [] {
        var lastInit := init[|init| - 1];
        assert data[n - 1] == lastInit[|lastInit| - 1];
        assert n % 7 == 0;
        WeeksOfSeven(init, data[..n]);
      } else {
        assert n == 0;
      }
      assert |last| == 7 by {
        var m := |last|;
        assert m > 0 && (|data| - n) % 7 == 0;
        var j := if 7 < m then 6 else 0;
        assert last[j] == data[n + j];
      }
    }
  }

  /** `getIntensityClass(count, inSelectedYear)`. */
  function IntensityClass(count: nat, inSelectedYear: bool): (r: string)
    ensures !inSelectedYear ==> r == OutOfYearClass
    ensures inSelectedYear ==> r == ShadeClasses[if count < 4 then count else 4]
  {
    if !inSelectedYear then "bg-transparent border-dashed border-border opacity-20"
    else if count == 0 then "bg-secondary dark:bg-zinc-800/50"
    else if count == 1 then "bg-primary/30 dark:bg-emerald-900/40"
    else if count <= 2 then "bg-primary/50 dark:bg-emerald-700/50"
    else if count <= 3 then "bg-primary/70 dark:bg-emerald-600/70"
    else "bg-primary dark:bg-emerald-500"
  }

  const OutOfYearClass: string := "bg-transparent border-dashed border-border opacity-20"

  /** The five shades for 0, 1, 2, 3 and 4 or more workouts, lightest first. */
  const ShadeClasses: seq<string> := [
    "bg-secondary dark:bg-zinc-800/50",
    "bg-primary/30 dark:bg-emerald-900/40",
    "bg-primary/50 dark:bg-emerald-700/50",
    "bg-primary/70 dark:bg-emerald-600/70",
    "bg-primary dark:bg-emerald-500"]

  /** Inside the year, two counts get the same shade exactly when both are the same below 4 or both
      are 4 or more; no in-year shade is the out-of-year class. */
  lemma ShadeSeparatesCounts(a: nat, b: nat)
    ensures IntensityClass(a, true) == IntensityClass(b, true) <==>
            (if a < 4 then a else 4) == (if b < 4 then b else 4)
    ensures IntensityClass(a, true) != OutOfYearClass
  {
    var ia, ib := (if a < 4 then a else 4), (if b < 4 then b else 4);
    assert ShadeClasses[ia] != ShadeClasses[ib] || ia == ib by {
      if ia != ib {
        ShadesDistinct(ia, ib);
      }
    }
    ShadesDistinctFromOutOfYear(ia);
  }

  lemma ShadesDistinctFromOutOfYear(i: nat)
    requires i < 5
    ensures ShadeClasses[i] != OutOfYearClass
  {
    assert |OutOfYearClass| > 11 && OutOfYearClass[11] == 'e';
    var keys := ['y', '3', '5', '7', 'd'];
    assert forall k :: 0 <= k < 5 ==> |ShadeClasses[k]| > 11 && ShadeClasses[k][11] == keys[k];
  }

  lemma ShadesDistinct(i: nat, j: nat)
    requires i < 5 && j < 5 && i != j
    ensures ShadeClasses[i] != ShadeClasses[j]
  {
    var keys := ['y', '3', '5', '7', 'd'];
    assert forall k :: 0 <= k < 5 ==> |ShadeClasses[k]| > 11 && ShadeClasses[k][11] == keys[k];
  }

  // ---------------------------------------------------------------------------------------------
  // Tallies (`reduce` into an object)

  /** The workout field a tally groups by. */
  datatype KeyField = ByType | ByIntensity

  function KeyOf(field: KeyField, w: Workout): string {
    match field
    case ByType => w.workoutType
    case ByIntensity => w.intensity
  }

  /** What a tally adds up per workout: one, or its calories. */
  datatype Amount = Count | Calories

  function AmountOf(amount: Amount, w: Workout): int {
    match amount
    case Count => 1
    case Calories => w.caloriesBurned
  }

  /** Some workout has the non-empty key k in this field. */
  ghost predicate HasKey(ws: seq<Workout>, field: KeyField, k: string) {
    |k| > 0 && exists w :: w in ws && KeyOf(field, w) == k
  }

  /** The non-empty values of the field among the workouts. */
  function KeySet(ws: seq<Workout>, field: KeyField): set<string> {
    if ws == [] then {}
    else
      var last := ws[|ws| - 1];
      KeySet(ws[..|ws| - 1], field) + if |KeyOf(field, last)| > 0 then {KeyOf(field, last)} else {}
  }

  /** The key set holds exactly the keys some workout has. */
  lemma {:induction false} KeySetHasKey(ws: seq<Workout>, field: KeyField, k: string)
    ensures k in KeySet(ws, field) <==> HasKey(ws, field, k)
  {
    if ws != [] {
      var p, last := ws[..|ws| - 1], ws[|ws| - 1];
      KeySetHasKey(p, field, k);
      assert ws == p + [last];
      HasKeyAppend(p, last, field);
    }
  }

  /** A key no workout has tallies nothing. */
  lemma {:induction false} TallyOfOutside(ws: seq<Workout>, field: KeyField, amount: Amount, k: string)
    requires k !in KeySet(ws, field)
    ensures TallyOf(ws, field, amount, k) == 0
  {
    if ws != [] {
      TallyOfOutside(ws[..|ws| - 1], field, amount, k);
    }
  }

  /** The sum of AmountOf(amount, w) over the workouts whose field is the non-empty key k. */
  function TallyOf(ws: seq<Workout>, field: KeyField, amount: Amount, k: string): int {
    if ws == [] then 0
    else
      var last := ws[|ws| - 1];
      TallyOf(ws[..|ws| - 1], field, amount, k) + if |k| > 0 && KeyOf(field, last) == k then AmountOf(amount, last) else 0
  }

  /** The sum of AmountOf(amount, w) over the workouts whose field is non-empty. */
  function TallyTotal(ws: seq<Workout>, field: KeyField, amount: Amount): int {
    if ws == [] then 0
    else
      var last := ws[|ws| - 1];
      TallyTotal(ws[..|ws| - 1], field, amount) + if |KeyOf(field, last)| > 0 then AmountOf(amount, last) else 0
  }

  /** What the reduce has built after the workouts `done`: the initial keys followed by the new keys,
      each holding its initial value plus the amounts of the workouts with that key. */
  ghost predicate TallyInv(acc: Dict<string, int>, init: Dict<string, int>, done: seq<Workout>,
                           field: KeyField, amount: Amount) {
    && acc.Valid() && init.Valid()
    && TallyEntries(acc, init, done, field, amount)
    && TallySum(acc, init, done, field, amount)
    && KeyOrder(acc, init, done, field)
  }

  /** The keys are the initial keys and the keys seen; each holds its initial value plus its tally. */
  ghost predicate TallyEntries(acc: Dict<string, int>, init: Dict<string, int>, done: seq<Workout>,
                               field: KeyField, amount: Amount) {
    TallyKeys(acc, init, done, field) && TallyValues(acc, init, done, field, amount)
  }

  /** The keys are the initial keys and the keys seen. */
  ghost predicate TallyKeys(acc: Dict<string, int>, init: Dict<string, int>, done: seq<Workout>, field: KeyField) {
    acc.vals.Keys == init.vals.Keys + KeySet(done, field)
  }

  /** Each key holds its initial value plus its tally. */
  ghost predicate TallyValues(acc: Dict<string, int>, init: Dict<string, int>, done: seq<Workout>,
                              field: KeyField, amount: Amount) {
    forall k :: k in acc.vals ==> acc.vals[k] == ValueOr(init, k, 0) + TallyOf(done, field, amount, k)
  }

  /** The values add up to the initial values plus every keyed amount. */
  ghost predicate TallySum(acc: Dict<string, int>, init: Dict<string, int>, done: seq<Workout>,
                           field: KeyField, amount: Amount)
    requires acc.Valid() && init.Valid()
  {
    SumValues(acc) == SumValues(init) + TallyTotal(done, field, amount)
  }

  /** The initial keys come first, in their order, then the new keys in order of first appearance. */
  ghost predicate KeyOrder(acc: Dict<string, int>, init: Dict<string, int>, done: seq<Workout>, field: KeyField) {
    acc.keys == init.keys + FirstSeen(done, field, init.vals.Keys)
  }

  /** The non-empty values of the field outside `known`, each once, in order of first appearance. */
  function FirstSeen(ws: seq<Workout>, field: KeyField, known: set<string>): seq<string> {
    if ws == [] then []
    else
      var p, k := FirstSeen(ws[..|ws| - 1], field, known), KeyOf(field, ws[|ws| - 1]);
      if |k| > 0 && k !in known && k !in p then p + [k] else p
  }

  /** One more workout appends its key when it is new. */
  lemma FirstSeenSnoc(ws: seq<Workout>, i: nat, field: KeyField, known: set<string>)
    requires i < |ws|
    ensures FirstSeen(ws[..i + 1], field, known) ==
            var p, k := FirstSeen(ws[..i], field, known), KeyOf(field, ws[i]);
            if |k| > 0 && k !in known && k !in p then p + [k] else p
  {
    assert ws[..i + 1][..i] == ws[..i];
  }

  /** The keys first seen are exactly the keys seen that were not known. */
  lemma {:induction false} FirstSeenHas(ws: seq<Workout>, field: KeyField, known: set<string>, k: string)
    ensures k in FirstSeen(ws, field, known) <==> k in KeySet(ws, field) && k !in known
  {
    if ws != [] {
      FirstSeenHas(ws[..|ws| - 1], field, known, k);
    }
  }

  /** No key is listed twice. */
  lemma {:induction false} FirstSeenDistinct(ws: seq<Workout>, field: KeyField, known: set<string>)
    ensures forall i, j :: 0 <= i < j < |FirstSeen(ws, field, known)| ==>
              FirstSeen(ws, field, known)[i] != FirstSeen(ws, field, known)[j]
  {
    if ws != [] {
      FirstSeenDistinct(ws[..|ws| - 1], field, known);
    }
  }

  /** The keys first seen among the first n workouts are listed before all the others. */
  lemma {:induction false} FirstSeenPrefix(ws: seq<Workout>, field: KeyField, known: set<string>, n: nat)
    requires n <= |ws|
    ensures |FirstSeen(ws[..n], field, known)| <= |FirstSeen(ws, field, known)|
    ensures FirstSeen(ws, field, known)[..|FirstSeen(ws[..n], field, known)|] == FirstSeen(ws[..n], field, known)
    decreases |ws|
  {
    if n < |ws| {
      var init := ws[..|ws| - 1];
      assert ws[..n] == init[..n];
      FirstSeenPrefix(init, field, known, n);
      var p, q := FirstSeen(init[..n], field, known), FirstSeen(init, field, known);
      assert FirstSeen(ws, field, known)[..|q|] == q;
      assert q[..|p|] == p;
    } else {
      assert ws[..n] == ws;
    }
  }

  /** A step of the reduce over a workout with the key `key` and the amount a. */
  lemma TallyStepKeyed(acc: Dict<string, int>, init: Dict<string, int>, ws: seq<Workout>, i: nat,
                       field: KeyField, amount: Amount, key: string, a: int)
    requires i < |ws| && TallyInv(acc, init, ws[..i], field, amount)
    requires key == KeyOf(field, ws[i]) && a == AmountOf(amount, ws[i]) && |key| > 0
    ensures TallyInv(Put(acc, key, ValueOr(acc, key, 0) + a), init, ws[..i + 1], field, amount)
  {
    TallyKeysStep(acc, init, ws, i, field, key, a);
    TallyValuesStep(acc, init, ws, i, field, amount, key, a);
    SumStep(acc, init, ws, i, field, amount, key, a);
    KeyOrderStep(acc, init, ws, i, field, key, ValueOr(acc, key, 0) + a);
  }

  /** A step of the reduce over a workout without the key leaves the tally as it is. */
  lemma TallyStepSkipped(acc: Dict<string, int>, init: Dict<string, int>, ws: seq<Workout>, i: nat,
                         field: KeyField, amount: Amount)
    requires i < |ws| && TallyInv(acc, init, ws[..i], field, amount)
    requires |KeyOf(field, ws[i])| == 0
    ensures TallyInv(acc, init, ws[..i + 1], field, amount)
  {
    KeySetSnoc(ws, i, field);
    forall k | k in acc.vals
      ensures acc.vals[k] == ValueOr(init, k, 0) + TallyOf(ws[..i + 1], field, amount, k)
    {
      TallyOfSnoc(ws, i, field, amount, k);
    }
    TallyTotalSnoc(ws, i, field, amount);
    FirstSeenSnoc(ws, i, field, init.vals.Keys);
  }

  /** The keys after a keyed step: the new key joins them. */
  lemma TallyKeysStep(acc: Dict<string, int>, init: Dict<string, int>, ws: seq<Workout>, i: nat,
                      field: KeyField, key: string, a: int)
    requires i < |ws| && acc.Valid() && TallyKeys(acc, init, ws[..i], field)
    requires key == KeyOf(field, ws[i]) && |key| > 0
    ensures TallyKeys(Put(acc, key, ValueOr(acc, key, 0) + a), init, ws[..i + 1], field)
  {
    var next := Put(acc, key, ValueOr(acc, key, 0) + a);
    KeySetSnoc(ws, i, field);
    PutKeys(acc, key, ValueOr(acc, key, 0) + a);
  }

  /** The values after a keyed step: only the key's total grows, by the workout's amount. */
  lemma TallyValuesStep(acc: Dict<string, int>, init: Dict<string, int>, ws: seq<Workout>, i: nat,
                        field: KeyField, amount: Amount, key: string, a: int)
    requires i < |ws| && acc.Valid() && TallyEntries(acc, init, ws[..i], field, amount)
    requires key == KeyOf(field, ws[i]) && a == AmountOf(amount, ws[i]) && |key| > 0
    ensures TallyValues(Put(acc, key, ValueOr(acc, key, 0) + a), init, ws[..i + 1], field, amount)
  {
    var next := Put(acc, key, ValueOr(acc, key, 0) + a);
    if key !in acc.vals {
      assert key !in init.vals && key !in KeySet(ws[..i], field);
      TallyOfOutside(ws[..i], field, amount, key);
    }
    forall k | k in next.vals
      ensures next.vals[k] == ValueOr(init, k, 0) + TallyOf(ws[..i + 1], field, amount, k)
    {
      TallyOfSnoc(ws, i, field, amount, k);
      if k != key {
        assert next.vals[k] == acc.vals[k];
      }
    }
  }

  /** One more workout adds its key, when it has one, to the keys seen. */
  lemma KeySetSnoc(ws: seq<Workout>, i: nat, field: KeyField)
    requires i < |ws|
    ensures KeySet(ws[..i + 1], field) ==
            KeySet(ws[..i], field) + if |KeyOf(field, ws[i])| > 0 then {KeyOf(field, ws[i])} else {}
  {
    assert ws[..i + 1][..i] == ws[..i];
  }

  /** One more workout adds its amount to its own key only. */
  lemma TallyOfSnoc(ws: seq<Workout>, i: nat, field: KeyField, amount: Amount, k: string)
    requires i < |ws|
    ensures TallyOf(ws[..i + 1], field, amount, k) ==
            TallyOf(ws[..i], field, amount, k) + if |k| > 0 && KeyOf(field, ws[i]) == k then AmountOf(amount, ws[i]) else 0
  {
    assert ws[..i + 1][..i] == ws[..i];
  }

  /** One more workout adds its amount to the keyed total when its key is non-empty. */
  lemma TallyTotalSnoc(ws: seq<Workout>, i: nat, field: KeyField, amount: Amount)
    requires i < |ws|
    ensures TallyTotal(ws[..i + 1], field, amount) ==
            TallyTotal(ws[..i], field, amount) + if |KeyOf(field, ws[i])| > 0 then AmountOf(amount, ws[i]) else 0
  {
    assert ws[..i + 1][..i] == ws[..i];
  }

  /** One more workout adds its amount to the keyed total when its key is non-empty. */
  lemma TallyTotalAppend(done: seq<Workout>, w: Workout, field: KeyField, amount: Amount)
    ensures TallyTotal(done + [w], field, amount) ==
            TallyTotal(done, field, amount) + if |KeyOf(field, w)| > 0 then AmountOf(amount, w) else 0
  {
    assert (done + [w])[..|done|] == done;
  }

  /** The sum of the values grows by the amount added under the workout's key. */
  lemma SumStep(acc: Dict<string, int>, init: Dict<string, int>, ws: seq<Workout>, i: nat,
                field: KeyField, amount: Amount, key: string, a: int)
    requires i < |ws| && acc.Valid() && init.Valid() && TallySum(acc, init, ws[..i], field, amount)
    requires key == KeyOf(field, ws[i]) && a == AmountOf(amount, ws[i]) && |key| > 0
    ensures TallySum(Put(acc, key, ValueOr(acc, key, 0) + a), init, ws[..i + 1], field, amount)
  {
    assert ws[..i + 1] == ws[..i] + [ws[i]];
    SumStepAppend(acc, init, ws[..i], ws[i], field, amount, key, a);
  }

  /** The same step, for the workouts written as the ones before and one more. */
  lemma SumStepAppend(acc: Dict<string, int>, init: Dict<string, int>, done: seq<Workout>, w: Workout,
                      field: KeyField, amount: Amount, key: string, a: int)
    requires acc.Valid() && init.Valid() && TallySum(acc, init, done, field, amount)
    requires key == KeyOf(field, w) && a == AmountOf(amount, w) && |key| > 0
    ensures TallySum(Put(acc, key, ValueOr(acc, key, 0) + a), init, done + [w], field, amount)
  {
    TallyTotalAppend(done, w, field, amount);
    SumValuesAdd(acc, key, a);
  }

  /** Writing a key keeps the listed keys, and appends the key when it is new. */
  lemma KeyOrderStep(acc: Dict<string, int>, init: Dict<string, int>, ws: seq<Workout>, i: nat,
                     field: KeyField, key: string, v: int)
    requires i < |ws| && acc.Valid() && TallyKeys(acc, init, ws[..i], field) && KeyOrder(acc, init, ws[..i], field)
    requires key == KeyOf(field, ws[i]) && |key| > 0
    ensures KeyOrder(Put(acc, key, v), init, ws[..i + 1], field)
  {
    FirstSeenSnoc(ws, i, field, init.vals.Keys);
    FirstSeenHas(ws[..i], field, init.vals.Keys, key);
  }

  /** The keys seen after one more workout are the earlier ones plus its non-empty value. */
  lemma HasKeyAppend(done: seq<Workout>, w: Workout, field: KeyField)
    ensures forall k :: HasKey(done + [w], field, k) <==> HasKey(done, field, k) || (|k| > 0 && KeyOf(field, w) == k)
  {
    forall k ensures HasKey(done + [w], field, k) ==> HasKey(done, field, k) || (|k| > 0 && KeyOf(field, w) == k) {
      if HasKey(done + [w], field, k) {
        var x :| x in done + [w] && KeyOf(field, x) == k;
        assert x in done || x == w;
      }
    }
  }

  /** `ws.reduce((acc, w) => { if (w[field]) acc[w[field]] = (acc[w[field]] || 0) + amount; return acc }, init)`. */
  method Tally(ws: seq<Workout>, init: Dict<string, int>, field: KeyField, amount: Amount)
    returns (acc: Dict<string, int>)
    requires init.Valid()
    ensures acc.Valid()
    ensures forall k :: k in acc.vals <==> k in init.vals || HasKey(ws, field, k)
    ensures forall k :: k in acc.vals ==> acc.vals[k] == ValueOr(init, k, 0) + TallyOf(ws, field, amount, k)
    ensures SumValues(acc) == SumValues(init) + TallyTotal(ws, field, amount)
    ensures acc.keys == init.keys + FirstSeen(ws, field, init.vals.Keys)
  {
    acc := init;
    TallyStart(init, field, amount);
    for i := 0 to |ws|
      invariant TallyInv(acc, init, ws[..i], field, amount)
    {
      var key, a := KeyOf(field, ws[i]), AmountOf(amount, ws[i]);
      if |key| > 0 {
        TallyStepKeyed(acc, init, ws, i, field, amount, key, a);
        acc := Put(acc, key, ValueOr(acc, key, 0) + a);
      } else {
        TallyStepSkipped(acc, init, ws, i, field, amount);
      }
    }
    assert ws[..|ws|] == ws;
    TallyDone(acc, init, ws, field, amount);
  }

  /** Before the first workout the accumulator is the initial object. */
  lemma TallyStart(init: Dict<string, int>, field: KeyField, amount: Amount)
    requires init.Valid()
    ensures TallyInv(init, init, [], field, amount)
  {
  }

  /** The invariant over all the workouts is what the reduce returns. */
  lemma TallyDone(acc: Dict<string, int>, init: Dict<string, int>, ws: seq<Workout>, field: KeyField, amount: Amount)
    requires TallyInv(acc, init, ws, field, amount)
    ensures acc.Valid()
    ensures forall k :: k in acc.vals <==> k in init.vals || HasKey(ws, field, k)
    ensures forall k :: k in acc.vals ==> acc.vals[k] == ValueOr(init, k, 0) + TallyOf(ws, field, amount, k)
    ensures SumValues(acc) == SumValues(init) + TallyTotal(ws, field, amount)
    ensures acc.keys == init.keys + FirstSeen(ws, field, init.vals.Keys)
  {
    forall k ensures k in acc.vals <==> k in init.vals || HasKey(ws, field, k) {
      KeySetHasKey(ws, field, k);
    }
  }

  function HasType(w: Workout): bool { |w.workoutType| > 0 }

  /** The count tally's total is the number of workouts with a non-empty field. */
  lemma {:induction false} CountTotal(ws: seq<Workout>, field: KeyField, p: Workout -> bool)
    requires forall w :: p(w) == (|KeyOf(field, w)| > 0)
    ensures TallyTotal(ws, field, Count) == |Filter(ws, p)|
  {
    if ws != [] {
      CountTotal(ws[..|ws| - 1], field, p);
    }
  }

  /** `typeDistribution`: workouts per type, types in order of first appearance; the counts add up
      to the number of workouts that have a type. */
  method TypeDistribution(ws: seq<Workout>) returns (dist: Dict<string, int>)
    ensures dist.Valid() && dist.keys == FirstSeen(ws, ByType, {})
    ensures forall t :: t in dist.vals <==> HasKey(ws, ByType, t)
    ensures forall t :: t in dist.vals ==> dist.vals[t] == TallyOf(ws, ByType, Count, t) && dist.vals[t] >= 1
    ensures SumValues(dist) == |Filter(ws, HasType)|
  {
    var empty := EmptyDict();
    assert SumValues(empty) == 0;
    assert forall k :: ValueOr(empty, k, 0) == 0;
    assert empty.keys == [] && empty.vals.Keys == {};
    dist := Tally(ws, empty, ByType, Count);
    assert dist.keys == FirstSeen(ws, ByType, {});
    CountTotal(ws, ByType, HasType);
    forall t | t in dist.vals ensures dist.vals[t] >= 1 {
      var w :| w in ws && KeyOf(ByType, w) == t;
      TallyPositive(ws, ByType, t, w);
    }
  }

  /** A key held by some workout is counted at least once. */
  lemma {:induction false} TallyPositive(ws: seq<Workout>, field: KeyField, k: string, w: Workout)
    requires w in ws && KeyOf(field, w) == k && |k| > 0
    ensures TallyOf(ws, field, Count, k) >= 1
  {
    var init := ws[..|ws| - 1];
    if ws[|ws| - 1] != w {
      assert ws == init + [ws[|ws| - 1]];
      assert w in init;
      TallyPositive(init, field, k, w);
    } else {
      TallyNonNegative(init, field, k);
    }
  }

  lemma {:induction false} TallyNonNegative(ws: seq<Workout>, field: KeyField, k: string)
    ensures TallyOf(ws, field, Count, k) >= 0
  {
    if ws != [] {
      TallyNonNegative(ws[..|ws| - 1], field, k);
    }
  }

  /** The starting tally of `intensityCount`: all three levels at zero. */
  function IntensityInit(): (d: Dict<string, int>)
    ensures d.Valid() && d.keys == ["Low", "Medium", "High"]
    ensures d.vals == map["Low" := 0, "Medium" := 0, "High" := 0]
  {
    Dict(["Low", "Medium", "High"], map["Low" := 0, "Medium" := 0, "High" := 0])
  }

  /** `intensityCount`: workouts per intensity; Low, Medium and High are always present, in that order
      first, and any other level follows in order of first appearance. */
  method IntensityCount(ws: seq<Workout>) returns (count: Dict<string, int>)
    ensures count.Valid() && count.keys == ["Low", "Medium", "High"] + FirstSeen(ws, ByIntensity, {"Low", "Medium", "High"})
    ensures forall k :: k in count.vals ==> count.vals[k] == TallyOf(ws, ByIntensity, Count, k)
    ensures forall k :: k in count.vals <==> k in ["Low", "Medium", "High"] || HasKey(ws, ByIntensity, k)
  {
    var init := IntensityInit();
    assert forall k :: ValueOr(init, k, 0) == 0;
    assert forall k :: k in init.vals <==> k in ["Low", "Medium", "High"];
    assert init.vals.Keys == {"Low", "Medium", "High"};
    count := Tally(ws, init, ByIntensity, Count);
  }

  /** Count slice of the intensity pie. */
  datatype Slice = Slice(name: string, value: int)

  /** `intensityData`: the Low, Medium and High slices in that order, keeping only positive ones. */
  function IntensityData(count: Dict<string, int>): (r: seq<Slice>)
    requires "Low" in count.vals && "Medium" in count.vals && "High" in count.vals
    ensures forall s :: s in r ==> s.value > 0
    ensures forall s :: s in r <==> s.name in ["Low", "Medium", "High"] && s.value == count.vals[s.name] && s.value > 0
    ensures forall i, j :: 0 <= i < j < |r| ==> LevelRank(r[i].name) < LevelRank(r[j].name)
  {
    var levels := [Slice("Low", count.vals["Low"]), Slice("Medium", count.vals["Medium"]), Slice("High", count.vals["High"])];
    (if levels[0].value > 0 then [levels[0]] else [])
    + (if levels[1].value > 0 then [levels[1]] else [])
    + (if levels[2].value > 0 then [levels[2]] else [])
  }

  function LevelRank(name: string): int {
    if name == "Low" then 0 else if name == "Medium" then 1 else 2
  }

  function EntryValue(e: (string, int)): int { e.1 }

  /** The entries are exactly the pairs (type, its calorie total) over the types of ws, each type once. */
  ghost predicate CalorieEntries(ws: seq<Workout>, entries: seq<(string, int)>) {
    && (forall e :: e in entries <==> HasKey(ws, ByType, e.0) && e.1 == TallyOf(ws, ByType, Calories, e.0))
    && (forall i, j :: 0 <= i < j < |entries| ==> entries[i].0 != entries[j].0)
  }

  /** The (type, calorie total) entries of the calorie tally, the types in order of first appearance. */
  ghost function TypeTotals(ws: seq<Workout>): (r: seq<(string, int)>)
    ensures |r| == |FirstSeen(ws, ByType, {})|
    ensures forall i :: 0 <= i < |r| ==>
              r[i].0 == FirstSeen(ws, ByType, {})[i] && r[i].1 == TallyOf(ws, ByType, Calories, r[i].0)
  {
    var types := FirstSeen(ws, ByType, {});
    seq(|types|, i requires 0 <= i < |types| => (types[i], TallyOf(ws, ByType, Calories, types[i])))
  }

  /** `caloriesByType`: calories summed per type, the five largest totals, largest first; every
      type left out burned no more than any kept, and none is left out while there is room. Equal
      totals keep the order of first appearance of their types, and at the cut the types seen first
      are kept. */
  method CaloriesByType(ws: seq<Workout>) returns (top: seq<(string, int)>)
    ensures |top| <= 5
    ensures NonIncreasing(top, EntryValue)
    ensures forall e :: e in top ==> HasKey(ws, ByType, e.0) && e.1 == TallyOf(ws, ByType, Calories, e.0)
    ensures forall i, j :: 0 <= i < j < |top| ==> top[i].0 != top[j].0
    ensures forall t :: HasKey(ws, ByType, t) && (forall e :: e in top ==> e.0 != t) ==>
              forall e :: e in top ==> TallyOf(ws, ByType, Calories, t) <= e.1
    ensures |top| == 5 || forall t :: HasKey(ws, ByType, t) ==> exists e :: e in top && e.0 == t
    ensures forall c :: Ties(top, EntryValue, c) <= Ties(TypeTotals(ws), EntryValue, c)
  {
    var empty := EmptyDict();
    assert forall k :: ValueOr(empty, k, 0) == 0;
    var totals := Tally(ws, empty, ByType, Calories);
    var entries := Entries(totals);
    EntriesOfTotals(ws, totals, entries);
    EntriesInFirstSeenOrder(ws, empty, totals, entries);
    top := TopByKey(entries, EntryValue, 5);
    TopFacts(ws, entries, top);
  }

  /** The entries of the calorie tally are TypeTotals. */
  lemma EntriesInFirstSeenOrder(ws: seq<Workout>, empty: Dict<string, int>, totals: Dict<string, int>,
                                 entries: seq<(string, int)>)
    requires empty == EmptyDict() && totals.Valid()
    requires totals.keys == empty.keys + FirstSeen(ws, ByType, empty.vals.Keys)
    requires forall k :: k in totals.vals ==> totals.vals[k] == ValueOr(empty, k, 0) + TallyOf(ws, ByType, Calories, k)
    requires |entries| == |totals.keys|
    requires forall i :: 0 <= i < |entries| ==> entries[i].0 == totals.keys[i] && entries[i].1 == totals.vals[totals.keys[i]]
    ensures entries == TypeTotals(ws)
  {
    assert empty.keys == [] && empty.vals.Keys == {};
    assert [] + FirstSeen(ws, ByType, {}) == FirstSeen(ws, ByType, {});
  }

  lemma EntriesOfTotals(ws: seq<Workout>, totals: Dict<string, int>, entries: seq<(string, int)>)
    requires totals.Valid()
    requires forall k :: k in totals.vals <==> HasKey(ws, ByType, k)
    requires forall k :: k in totals.vals ==> totals.vals[k] == TallyOf(ws, ByType, Calories, k)
    requires |entries| == |totals.keys|
    requires forall i :: 0 <= i < |entries| ==> entries[i].0 == totals.keys[i] && entries[i].1 == totals.vals[totals.keys[i]]
    ensures CalorieEntries(ws, entries)
  {
    forall e ensures e in entries <==> HasKey(ws, ByType, e.0) && e.1 == TallyOf(ws, ByType, Calories, e.0) {
      if HasKey(ws, ByType, e.0) && e.1 == TallyOf(ws, ByType, Calories, e.0) {
        assert e.0 in totals.keys;
        var i :| 0 <= i < |totals.keys| && totals.keys[i] == e.0;
        assert entries[i] == e;
      }
    }
  }

  lemma TopFacts(ws: seq<Workout>, entries: seq<(string, int)>, top: seq<(string, int)>)
    requires CalorieEntries(ws, entries)
    requires multiset(top) <= multiset(entries)
    requires |entries| <= 5 ==> multiset(top) == multiset(entries)
    requires |top| == if |entries| < 5 then |entries| else 5
    requires forall x, y :: x in multiset(entries) - multiset(top) && y in top ==> EntryValue(x) <= EntryValue(y)
    ensures forall e :: e in top ==> HasKey(ws, ByType, e.0) && e.1 == TallyOf(ws, ByType, Calories, e.0)
    ensures forall i, j :: 0 <= i < j < |top| ==> top[i].0 != top[j].0
    ensures forall t :: HasKey(ws, ByType, t) && (forall e :: e in top ==> e.0 != t) ==>
              forall e :: e in top ==> TallyOf(ws, ByType, Calories, t) <= e.1
    ensures |top| == 5 || forall t :: HasKey(ws, ByType, t) ==> exists e :: e in top && e.0 == t
  {
    forall e | e in top ensures e in entries {
      assert e in multiset(top);
    }
    forall i, j | 0 <= i < j < |top| ensures top[i].0 != top[j].0 {
      DistinctKeys(entries, top, i, j);
    }
    forall t | HasKey(ws, ByType, t) && (forall e :: e in top ==> e.0 != t)
      ensures forall e :: e in top ==> TallyOf(ws, ByType, Calories, t) <= e.1
    {
      var x := (t, TallyOf(ws, ByType, Calories, t));
      assert x in entries && x !in top;
      assert multiset(top)[x] == 0 && multiset(entries)[x] > 0;
      forall e | e in top ensures EntryValue(x) <= EntryValue(e) { }
    }
    if |top| < 5 {
      forall t | HasKey(ws, ByType, t) ensures exists e :: e in top && e.0 == t {
        var e := (t, TallyOf(ws, ByType, Calories, t));
        assert e in entries;
        assert e in multiset(entries);
      }
    }
  }

  /** Entries that never repeat a key give a selection that never repeats one. */
  lemma DistinctKeys(entries: seq<(string, int)>, top: seq<(string, int)>, i: nat, j: nat)
    requires forall i, j :: 0 <= i < j < |entries| ==> entries[i].0 != entries[j].0
    requires multiset(top) <= multiset(entries)
    requires 0 <= i < j < |top|
    ensures top[i].0 != top[j].0
  {
    assert top[i] in multiset(entries) && top[j] in multiset(entries);
    var p :| 0 <= p < |entries| && entries[p] == top[i];
    var q :| 0 <= q < |entries| && entries[q] == top[j];
    assert top[i].0 == top[j].0 ==> p == q;
    assert multiset(top)[top[i]] >= (if top[i] == top[j] then 2 else 1) by {
      assert top == top[..i] + [top[i]] + top[i + 1..j] + [top[j]] + top[j + 1..];
    }
    DistinctOnce(entries, top[i]);
  }

  // ---------------------------------------------------------------------------------------------
  // Water, sleep and goal cards

  /** The stats `handleWaterUpdate(count)` saves: the water count floored at zero. */
  function WaterUpdate(todayStats: DailyStats, count: int): (r: DailyStats)
    ensures r.waterIntake >= 0
    ensures count >= 0 ==> r.waterIntake == count
    ensures count < 0 ==> r.waterIntake == 0
    ensures r.date == todayStats.date && r.sleepHours == todayStats.sleepHours
  {
    todayStats.(waterIntake := if count > 0 then count else 0)
  }

  /** The stats `handleSleepUpdate(delta)` saves: the hours moved by delta and clamped to [0, 24]. */
  function SleepUpdate(todayStats: DailyStats, delta: real): (r: DailyStats)
    ensures 0.0 <= r.sleepHours <= 24.0
    ensures 0.0 <= todayStats.sleepHours + delta <= 24.0 ==> r.sleepHours == todayStats.sleepHours + delta
    ensures todayStats.sleepHours + delta < 0.0 ==> r.sleepHours == 0.0
    ensures todayStats.sleepHours + delta > 24.0 ==> r.sleepHours == 24.0
    ensures r.date == todayStats.date && r.waterIntake == todayStats.waterIntake
  {
    var h := todayStats.sleepHours + delta;
    todayStats.(sleepHours := if h < 0.0 then 0.0 else if h > 24.0 then 24.0 else h)
  }

  /** Stepping the sleep hours up and back down returns to where they were while no clamp applies. */
  lemma SleepStepsCancel(todayStats: DailyStats, delta: real)
    requires 0.0 <= todayStats.sleepHours <= 24.0
    requires 0.0 <= todayStats.sleepHours + delta <= 24.0
    ensures SleepUpdate(SleepUpdate(todayStats, delta), -delta) == todayStats
  {
  }

  /** `handleWaterUpdate` and `handleSleepUpdate`: save the updated stats of today for the session
      user; reading today's stats back gives them. */
  method HandleWaterUpdate(store: Storage.Store, session: Option<UserId>, todayStats: DailyStats, count: int)
    returns (newStats: DailyStats)
    requires store.Valid()
    modifies store
    ensures store.Valid()
    ensures newStats == WaterUpdate(todayStats, count)
    ensures session.Some? ==> Storage.GetDailyStats(store.dailyStats, session, todayStats.date) == newStats
    ensures session.Some? ==> store.dailyStats == Storage.Upsert(old(store.dailyStats), session.value, Storage.StatsKey, newStats)
    ensures session.None? ==> store.dailyStats == old(store.dailyStats)
    ensures store.workouts == old(store.workouts) && store.streaks == old(store.streaks) && store.users == old(store.users)
    ensures store.nextUserId == old(store.nextUserId)
  {
    newStats := WaterUpdate(todayStats, count);
    store.SaveDailyStats(session, newStats);
  }

  method HandleSleepUpdate(store: Storage.Store, session: Option<UserId>, todayStats: DailyStats, delta: real)
    returns (newStats: DailyStats)
    requires store.Valid()
    modifies store
    ensures store.Valid()
    ensures newStats == SleepUpdate(todayStats, delta)
    ensures session.Some? ==> Storage.GetDailyStats(store.dailyStats, session, todayStats.date) == newStats
    ensures session.Some? ==> store.dailyStats == Storage.Upsert(old(store.dailyStats), session.value, Storage.StatsKey, newStats)
    ensures session.None? ==> store.dailyStats == old(store.dailyStats)
    ensures store.workouts == old(store.workouts) && store.streaks == old(store.streaks) && store.users == old(store.users)
    ensures store.nextUserId == old(store.nextUserId)
  {
    newStats := SleepUpdate(todayStats, delta);
    store.SaveDailyStats(session, newStats);
  }

  /** `Math.round`: the nearest integer, halves rounded up. */
  function Round(x: real): (r: int)
    ensures x - 0.5 < r as real <= x + 0.5
  {
    (x + 0.5).Floor
  }

  /** The SummaryCard percentage: a blank goal or a goal of 0 counts as 1, a blank value as 0, and
      the rounded percentage is capped at 100. */
  function Percent(value: NumberField, goal: NumberField): (r: int)
    ensures r <= 100
    ensures r == 100 || r == Round(AsNumber(value) / GoalOrOne(goal) * 100.0)
    ensures Round(AsNumber(value) / GoalOrOne(goal) * 100.0) >= 100 ==> r == 100
  {
    var p := Round(AsNumber(value) / GoalOrOne(goal) * 100.0);
    if p < 100 then p else 100
  }

  /** `Number(goal) || 1`. */
  function GoalOrOne(goal: NumberField): (g: real)
    ensures g != 0.0
    ensures AsNumber(goal) != 0.0 ==> g == AsNumber(goal)
    ensures AsNumber(goal) == 0.0 ==> g == 1.0
  {
    if AsNumber(goal) == 0.0 then 1.0 else AsNumber(goal)
  }

  /** A blank goal and a goal of zero both behave as a goal of 1. */
  lemma MissingGoalIsOne(value: NumberField)
    ensures Percent(value, Blank) == Percent(value, Num(0.0)) == Percent(value, Num(1.0))
  {
  }

  /** Reaching the goal, or going past it, shows 100 percent. */
  lemma GoalMetIsFull(value: real, goal: real)
    requires goal > 0.0 && value >= goal
    ensures Percent(Num(value), Num(goal)) == 100
  {
    assert value / goal >= 1.0 by {
      assert value / goal * goal == value;
    }
  }
}
