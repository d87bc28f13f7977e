/** The entities the client reads and writes: workouts, daily health stats, the streak record, users
    and their profiles, and the routes of the single-page app. */
module Records {
  import opened Wrappers
  import opened Calendar

  type UserId = nat

  /** Workout ids are the `Date.now()` timestamps the form assigns. */
  type WorkoutId = nat

  /** A logged workout. An empty `workoutType`, `intensity`, `feeling` or `notes` stands for a field
      that is missing; a missing numeric field is 0. */
  datatype Workout = Workout(
    id: WorkoutId,
    date: Day,
    time: Option<Minutes>,
    workoutType: string,
    duration: real,
    intensity: string,
    feeling: string,
    rpe: real,
    caloriesBurned: int,
    steps: real,
    distance: real,
    avgHeartRate: real,
    notes: string)

  /** `new Date(`${w.date}T${w.time || '00:00'}`)` in minutes: the order of workouts by date and time. */
  function Timestamp(w: Workout): (t: int)
    ensures w.time.None? ==> t == w.date * MinutesPerDay
    ensures 0 <= w.time.GetOr(0) < MinutesPerDay ==> t / MinutesPerDay == w.date && t % MinutesPerDay == w.time.GetOr(0)
  {
    w.date * MinutesPerDay + w.time.GetOr(0)
  }

  /** `workouts.map(w => w.date)`. */
  function Dates(ws: seq<Workout>): (r: seq<Day>)
    ensures |r| == |ws|
    ensures forall i :: 0 <= i < |ws| ==> r[i] == ws[i].date
  {
    seq(|ws|, i requires 0 <= i < |ws| => ws[i].date)
  }

  /** Sleep and hydration logged for one day. */
  datatype DailyStats = DailyStats(date: Day, waterIntake: int, sleepHours: real)

  /** The persisted streak and points record of one user. */
  datatype StreakInfo = StreakInfo(
    currentStreak: nat,
    longestStreak: nat,
    lastLogDate: Option<Day>,
    totalPoints: int)

  /** The record written for a user without workouts, and returned when none is stored. */
  const NoStreak: StreakInfo := StreakInfo(0, 0, None, 0)

  /** A row of a REST collection: the body the client sent and the `userId` it attaches. */
  datatype Owned<T> = Owned(userId: UserId, item: T)

  /** A numeric form input: the empty string the field holds after being cleared, or a number. */
  datatype NumberField = Blank | Num(value: real)

  /** The number a numeric field compares as: `'' < 1` and `'' > 0` treat the empty string as 0. */
  function AsNumber(f: NumberField): real {
    match f
    case Blank => 0.0
    case Num(x) => x
  }

  /** The body and goal profile a user fills in on the setup page. */
  datatype Profile = Profile(
    name: string,
    age: NumberField,
    gender: string,
    height: NumberField,
    weight: NumberField,
    activityLevel: string,
    goalSteps: NumberField,
    goalCalories: NumberField,
    joinedDate: string)

  /** A user record; an empty `password` is a legacy account without one. */
  datatype User = User(id: UserId, email: string, password: string, profile: Option<Profile>)

  /** The routes of the app's hash router. */
  datatype Route = Root | Setup | ProfileRoute | DashboardRoute | WorkoutsRoute | ReportRoute

  /** `window.location.hash` while a route is shown. */
  function HashOf(r: Route): string {
    match r
    case Root => "#/"
    case Setup => "#/setup"
    case ProfileRoute => "#/profile"
    case DashboardRoute => "#/dashboard"
    case WorkoutsRoute => "#/workouts"
    case ReportRoute => "#/report"
  }
}
