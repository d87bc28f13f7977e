/** The workouts page: the form validator, the record `handleSave` builds and saves, the type and
    search filters, the newest-first ordering and the RPE colour bands. */
module WorkoutsPage {
  import opened Wrappers
  import opened Calendar
  import opened Records
  import opened Text
  import opened Sequences
  import opened JsObject
  import Storage

  /** The form state. `date` and `time` are None when their inputs are cleared. */
  datatype WorkoutForm = WorkoutForm(
    date: Option<Day>,
    time: Option<Minutes>,
    workoutType: string,
    duration: NumberField,
    intensity: string,
    feeling: string,
    rpe: NumberField,
    notes: string,
    steps: NumberField,
    distance: NumberField,
    avgHeartRate: NumberField)

  /** The validator's rules stated positively: the form can be saved exactly when all of these hold. */
  predicate FormIsValid(f: WorkoutForm) {
    && f.date.Some? && f.time.Some?
    && AsNumber(f.duration) > 0.0
    && AsNumber(f.steps) >= 0.0 && AsNumber(f.distance) >= 0.0
    && (AsNumber(f.avgHeartRate) == 0.0 || 30.0 <= AsNumber(f.avgHeartRate) <= 220.0)
    && (AsNumber(f.rpe) == 0.0 || 1.0 <= AsNumber(f.rpe) <= 10.0)
  }

  /** The form fields `validateForm` checks. */
  datatype Field = Date | Time | Duration | Steps | Distance | AvgHeartRate | Rpe

  /** The position of a field's check in `validateForm`. */
  function Rank(k: Field): nat {
    match k
    case Date => 0
    case Time => 1
    case Duration => 2
    case Steps => 3
    case Distance => 4
    case AvgHeartRate => 5
    case Rpe => 6
  }

  /** Keys listed in check order: each key's check comes after the previous key's. */
  ghost predicate InCheckOrder(ks: seq<Field>) {
    forall i :: 0 < i < |ks| ==> Rank(ks[i - 1]) < Rank(ks[i])
  }

  /** Keys in check order are listed once each. */
  lemma {:induction false} CheckOrderDistinct(ks: seq<Field>)
    requires InCheckOrder(ks)
    ensures forall i, j :: 0 <= i < j < |ks| ==> Rank(ks[i]) < Rank(ks[j])
  {
    if |ks| > 1 {
      var init := ks[..|ks| - 1];
      assert InCheckOrder(init) by {
        forall i | 0 < i < |init| ensures Rank(init[i - 1]) < Rank(init[i]) {
          assert init[i - 1] == ks[i - 1] && init[i] == ks[i];
        }
      }
      CheckOrderDistinct(init);
      forall i, j | 0 <= i < j < |ks| ensures Rank(ks[i]) < Rank(ks[j]) {
        if j < |ks| - 1 {
          assert ks[i] == init[i] && ks[j] == init[j];
        } else if i < j - 1 {
          assert ks[i] == init[i] && ks[j - 1] == init[j - 1];
        }
      }
    }
  }

  /** Whether the check of one field fails. A zero or blank steps, distance, heart rate or RPE is
      falsy and skips its check; a zero or blank duration fails. */
  predicate CheckFails(f: WorkoutForm, key: Field) {
    match key
    case Date => f.date.None?
    case Time => f.time.None?
    case Duration => AsNumber(f.duration) <= 0.0
    case Steps => AsNumber(f.steps) != 0.0 && AsNumber(f.steps) < 0.0
    case Distance => AsNumber(f.distance) != 0.0 && AsNumber(f.distance) < 0.0
    case AvgHeartRate =>
      AsNumber(f.avgHeartRate) != 0.0 && (AsNumber(f.avgHeartRate) < 30.0 || AsNumber(f.avgHeartRate) > 220.0)
    case Rpe => AsNumber(f.rpe) != 0.0 && (AsNumber(f.rpe) < 1.0 || AsNumber(f.rpe) > 10.0)
  }

  function ErrorMessage(key: Field): string {
    match key
    case Date => "Date is required"
    case Time => "Time is required"
    case Duration => "Duration > 0 required"
    case Steps => "Cannot be negative"
    case Distance => "Cannot be negative"
    case AvgHeartRate => "Invalid BPM"
    case Rpe => "1-10 range"
  }

  /** No check fails exactly when the form meets every rule. */
  lemma NoFailureIsValid(f: WorkoutForm)
    ensures (forall k :: !CheckFails(f, k)) <==> FormIsValid(f)
  {
    if FormIsValid(f) {
      forall k ensures !CheckFails(f, k) {
        match k
        case Date =>
        case Time =>
        case Duration =>
        case Steps =>
        case Distance =>
        case AvgHeartRate =>
        case Rpe =>
      }
    } else {
      assert CheckFails(f, Date) || CheckFails(f, Time) || CheckFails(f, Duration) || CheckFails(f, Steps)
        || CheckFails(f, Distance) || CheckFails(f, AvgHeartRate) || CheckFails(f, Rpe);
    }
  }

  /** An error object as `validateForm` builds it: the listed keys are its keys, each in check
      order, each with its message. */
  ghost predicate WellFormed(errors: Dict<Field, string>) {
    && InCheckOrder(errors.keys)
    && (forall k :: k in errors.vals <==> k in errors.keys)
    && (forall k :: k in errors.vals ==> errors.vals[k] == ErrorMessage(k))
  }

  /** One line of `validateForm`: when the check of `key` fails, record its message. */
  method Check(errors: Dict<Field, string>, key: Field, fails: bool) returns (r: Dict<Field, string>)
    requires WellFormed(errors)
    requires forall k :: k in errors.vals ==> Rank(k) < Rank(key)
    ensures WellFormed(r)
    ensures forall k :: k in r.vals <==> k in errors.vals || (fails && k == key)
    ensures forall k :: k in r.vals ==> Rank(k) <= Rank(key)
  {
    r := errors;
    if fails {
      assert |errors.keys| > 0 ==> errors.keys[|errors.keys| - 1] in errors.vals;
      r := Dict(errors.keys + [key], errors.vals[key := ErrorMessage(key)]);
    }
  }

  /** The field `validateForm` checks at position i. */
  function FieldAt(i: nat): (k: Field)
    requires i < 7
    ensures Rank(k) == i
    ensures forall k' :: Rank(k') == i ==> k' == k
  {
    [Date, Time, Duration, Steps, Distance, AvgHeartRate, Rpe][i]
  }

  /** `validateForm()`: the error object holds a message for exactly the failing checks, under its
      field, in check order, and the form is valid exactly when it is empty. The seven checks of the
      source run one after another; here they run as a loop over their positions. */
  method ValidateForm(f: WorkoutForm) returns (errors: Dict<Field, string>, valid: bool)
    ensures errors.Valid() && InCheckOrder(errors.keys)
    ensures forall k :: k in errors.vals <==> CheckFails(f, k)
    ensures forall k :: k in errors.vals ==> errors.vals[k] == ErrorMessage(k)
    ensures valid <==> errors.keys == []
    ensures valid <==> FormIsValid(f)
  {
    errors := EmptyDict();
    for i := 0 to 7
      invariant WellFormed(errors)
      invariant forall k :: k in errors.vals <==> Rank(k) < i && CheckFails(f, k)
    {
      var key := FieldAt(i);
      errors := Check(errors, key, CheckFails(f, key));
    }
    valid := |errors.keys| == 0;
    NoFailureIsValid(f);
    CheckOrderDistinct(errors.keys);
    if !valid {
      assert errors.keys[0] in errors.vals;
    }
  }

  /** The record `handleSave` builds from a valid form: the editing id or a fresh one, the time
      defaulting to 12:00, feeling to Good, RPE to 5, steps, distance and heart rate to 0. */
  function BuildWorkout(f: WorkoutForm, editingId: Option<WorkoutId>, freshId: WorkoutId, estimatedCalories: int): (w: Workout)
    requires f.date.Some?
    ensures w.id == editingId.GetOr(freshId)
    ensures w.date == f.date.value && w.time == Some(f.time.GetOr(12 * 60))
    ensures w.feeling == (if f.feeling == "" then "Good" else f.feeling)
    ensures w.rpe == (if AsNumber(f.rpe) == 0.0 then 5.0 else AsNumber(f.rpe))
    ensures w.steps == AsNumber(f.steps) && w.distance == AsNumber(f.distance) && w.avgHeartRate == AsNumber(f.avgHeartRate)
    ensures w.duration == AsNumber(f.duration) && w.caloriesBurned == estimatedCalories
    ensures w.workoutType == f.workoutType && w.intensity == f.intensity && w.notes == f.notes
  {
    Workout(
      editingId.GetOr(freshId),
      f.date.value,
      Some(if f.time.Some? then f.time.value else 12 * 60),
      f.workoutType,
      AsNumber(f.duration),
      f.intensity,
      if f.feeling != "" then f.feeling else "Good",
      if AsNumber(f.rpe) != 0.0 then AsNumber(f.rpe) else 5.0,
      estimatedCalories,
      AsNumber(f.steps),
      AsNumber(f.distance),
      AsNumber(f.avgHeartRate),
      f.notes)
  }

  /** A workout built from a valid form passes the form's own checks again when reopened for editing. */
  lemma SavedWorkoutRevalidates(f: WorkoutForm, editingId: Option<WorkoutId>, freshId: WorkoutId, calories: int)
    requires FormIsValid(f)
    ensures var w := BuildWorkout(f, editingId, freshId, calories);
            FormIsValid(FormOf(w)) && BuildWorkout(FormOf(w), Some(w.id), freshId, calories) == w
  {
  }

  /** The form `openModal(w)` fills in from a saved workout. */
  function FormOf(w: Workout): (f: WorkoutForm)
    ensures f.date == Some(w.date) && f.time == w.time
  {
    WorkoutForm(Some(w.date), w.time, w.workoutType, Num(w.duration), w.intensity, w.feeling, Num(w.rpe),
                w.notes, Num(w.steps), Num(w.distance), Num(w.avgHeartRate))
  }

  /** `handleSave`: an invalid form saves nothing; a valid one saves the built record. */
  method HandleSave(store: Storage.Store, session: Option<UserId>, f: WorkoutForm, editingId: Option<WorkoutId>,
                    freshId: WorkoutId, estimatedCalories: int, today: Day) returns (saved: bool)
    requires store.Valid()
    modifies store
    ensures store.Valid()
    ensures saved <==> FormIsValid(f)
    ensures !saved ==> store.workouts == old(store.workouts) && store.streaks == old(store.streaks)
    ensures saved && session.Some? ==>
              store.workouts == Storage.Upsert(old(store.workouts), session.value, Storage.WorkoutKey,
                                               BuildWorkout(f, editingId, freshId, estimatedCalories))
    ensures saved && session.Some? ==>
              store.streaks == Storage.UpdatedStreaks(old(store.streaks), store.workouts, session.value, f.date.value, today)
    ensures session.None? ==> store.workouts == old(store.workouts) && store.streaks == old(store.streaks)
    ensures store.users == old(store.users) && store.dailyStats == old(store.dailyStats)
    ensures store.nextUserId == old(store.nextUserId)
  {
    var errors, valid := ValidateForm(f);
    if !valid {
      return false;
    }
    var w := BuildWorkout(f, editingId, freshId, estimatedCalories);
    store.SaveWorkout(session, w, today);
    saved := true;
  }

  /** The filter of the list: the chosen type ('All' keeps every type) and a case-insensitive search
      in the notes or the type. */
  predicate Matches(w: Workout, filterType: string, searchTerm: string): (b: bool)
    ensures b && filterType != "All" ==> w.workoutType == filterType
    ensures (filterType == "All" || filterType == w.workoutType) && searchTerm == "" ==> b
  {
    (filterType == "All" || w.workoutType == filterType)
    && (Includes(ToLower(w.notes), ToLower(searchTerm)) || Includes(ToLower(w.workoutType), ToLower(searchTerm)))
  }

  /** `filteredWorkouts`. */
  function FilteredWorkouts(ws: seq<Workout>, filterType: string, searchTerm: string): (r: seq<Workout>)
    ensures forall w :: w in r <==> w in ws && Matches(w, filterType, searchTerm)
    ensures forall w :: multiset(r)[w] == if Matches(w, filterType, searchTerm) then multiset(ws)[w] else 0
    ensures Subsequence(r, ws)
  {
    FilterMembers(ws, w => Matches(w, filterType, searchTerm));
    Filter(ws, w => Matches(w, filterType, searchTerm))
  }

  /** With 'All' and an empty search nothing is filtered out. */
  lemma NoFilterKeepsAll(ws: seq<Workout>)
    ensures FilteredWorkouts(ws, "All", "") == ws
  {
    forall i | 0 <= i < |ws| ensures Matches(ws[i], "All", "") {
      assert OccursAt(ToLower(ws[i].notes), ToLower(""), 0);
    }
    FilterKeepsAll(ws, w => Matches(w, "All", ""));
  }

  /** `todayWorkouts`: the filtered workouts dated today. */
  function TodayWorkouts(ws: seq<Workout>, filterType: string, searchTerm: string, today: Day): (r: seq<Workout>)
    ensures forall w :: w in r <==> w in ws && Matches(w, filterType, searchTerm) && w.date == today
    ensures forall w ::
              multiset(r)[w] == if Matches(w, filterType, searchTerm) && w.date == today then multiset(ws)[w] else 0
    ensures Subsequence(r, ws)
  {
    var filtered := FilteredWorkouts(ws, filterType, searchTerm);
    FilterMembers(filtered, (w: Workout) => w.date == today);
    var r := Filter(filtered, (w: Workout) => w.date == today);
    SubsequenceTransitive(r, filtered, ws);
    r
  }

  /** Both lists the page shows keep the newest-first order of the loaded workouts. */
  lemma ShownNewestFirst(ws: seq<Workout>, filterType: string, searchTerm: string, today: Day)
    requires NonIncreasing(ws, Timestamp)
    ensures NonIncreasing(FilteredWorkouts(ws, filterType, searchTerm), Timestamp)
    ensures NonIncreasing(TodayWorkouts(ws, filterType, searchTerm, today), Timestamp)
  {
    SubsequenceNonIncreasing(FilteredWorkouts(ws, filterType, searchTerm), ws, Timestamp);
    SubsequenceNonIncreasing(TodayWorkouts(ws, filterType, searchTerm, today), ws, Timestamp);
  }

  /** `loadWorkouts`: the user's workouts sorted in place, newest first by date and time, a missing
      time counting as 00:00; workouts at the same time keep their store order. */
  method LoadWorkouts(rows: seq<Owned<Workout>>, session: Option<UserId>) returns (sorted: seq<Workout>)
    ensures NonIncreasing(sorted, Timestamp)
    ensures multiset(sorted) == multiset(Storage.GetWorkouts(rows, session))
    ensures SameTies(sorted, Storage.GetWorkouts(rows, session), Timestamp)
  {
    var w := Storage.GetWorkouts(rows, session);
    var a := new Workout[|w|](i requires 0 <= i < |w| => w[i]);
    assert a[..] == w;
    SortByKeyDescending(a, Timestamp);
    sorted := a[..];
  }

  /** The colour band of an RPE value: up to 3, up to 6, up to 8, above 8. */
  function RpeBand(val: real): (b: nat)
    ensures b < 4
    ensures b == 0 <==> val <= 3.0
    ensures b == 1 <==> 3.0 < val <= 6.0
    ensures b == 2 <==> 6.0 < val <= 8.0
    ensures b == 3 <==> val > 8.0
  {
    if val <= 3.0 then 0 else if val <= 6.0 then 1 else if val <= 8.0 then 2 else 3
  }

  /** A higher RPE never falls into a lower band. */
  lemma RpeBandMonotone(a: real, b: real)
    requires a <= b
    ensures RpeBand(a) <= RpeBand(b)
  {
  }

  const RpeColors: seq<string> := [
    "text-green-500 bg-green-500/10 border-green-500/20",
    "text-yellow-500 bg-yellow-500/10 border-yellow-500/20",
    "text-orange-500 bg-orange-500/10 border-orange-500/20",
    "text-red-500 bg-red-500/10 border-red-500/20"]

  /** `getRpeColor(val)`. */
  function RpeColor(val: real): (r: string)
    ensures r == RpeColors[RpeBand(val)]
  {
    if val <= 3.0 then "text-green-500 bg-green-500/10 border-green-500/20"
    else if val <= 6.0 then "text-yellow-500 bg-yellow-500/10 border-yellow-500/20"
    else if val <= 8.0 then "text-orange-500 bg-orange-500/10 border-orange-500/20"
    else "text-red-500 bg-red-500/10 border-red-500/20"
  }

  lemma RpeColorsDistinct(i: nat, j: nat)
    requires i < 4 && j < 4 && i != j
    ensures RpeColors[i] != RpeColors[j]
  {
  }

  /** Two RPE values get the same colour exactly when they are in the same band. */
  lemma RpeColorSeparatesBands(a: real, b: real)
    ensures RpeColor(a) == RpeColor(b) <==> RpeBand(a) == RpeBand(b)
  {
    if RpeBand(a) != RpeBand(b) {
      RpeColorsDistinct(RpeBand(a), RpeBand(b));
    }
  }
}
