# Fitness tracker core, modelled in Dafny

This project models the logic of a single-page fitness tracker. The tracker is a React front end
over a small REST store holding users, workouts, daily water/sleep statistics and one streak record
per user.

The model covers these parts:

- **Storage service**
  - Logging in and registering.
  - Reading and saving workouts and daily statistics.
  - The streak record: the first-date shortcut in `updateStreak`, and the full recalculation in
    `recalculateStreakFull` (current run, longest run, ten points per distinct logged day).
- **Dashboard**
  - The GitHub-style yearly heat map.
  - The workout-type distribution, the intensity counts and the top five calorie types.
  - The water and sleep buttons, and the goal percentage of a summary card.
- **Workouts page**
  - The form validator and the record saved from the form.
  - The type and text filters, the newest-first loading order and the RPE colour bands.
- **Weekly report**
  - The last-seven-days filter and the ten most recent workouts.
  - The calorie total, the per-day calorie buckets and the chart rows.
  - The days-logged count and the intensity badge colours.
- **Profile setup**
  - The field-change handler and when BMI is computed.
  - The submit checks and the BMI gauge position.
- **Login page**
  - The password strength rule and the submit guards.
  - Where a successful login or registration leads.
- **Routing**
  - The protected-route guard and the login-page guard.

### Conventions

- **Dates.** A date is an integer day number; day 0 is 1970-01-01, a Thursday. `Calendar.DayOfWeek`
  is JavaScript's `getDay` on such a date.
- **Times.** A time is a count of minutes since midnight, and a workout may have none.
  `Records.Timestamp` is the instant that the sort comparators build from `date` and `time`.
- **The REST store.** It is the class `Storage.Store`. Each collection is a sequence of
  `(userId, item)` rows:
  - a GET filters the rows by user;
  - a PUT replaces the row with the same user and key;
  - a POST appends a row.
- **Session and clock.** The session user is an explicit `Option<UserId>` parameter. The clock is an
  explicit `today` (a day number) or `now` (minutes since the epoch) parameter.
- **Plain JavaScript objects used as dictionaries.** These are the reduce accumulators and
  `dailyCalories`. They are `JsObject.Dict` values: the keys in insertion order plus a map, so
  `Object.keys` and `Object.entries` keep the order the page shows.
- **Numeric form inputs.** These are `Records.NumberField` values: either blank or a number. A blank
  input reads as 0 wherever the source uses `Number(x) || 0` or a falsy test.

## Model

| member | source | states |
|---|---|---|
| Storage.QueryValue | services/storage.js:21 | the value the server reads for the e-mail put into the query unencoded: it stops at the first `&` or `#`, each `+` in it reads as a space, and an e-mail without `+`, `&`, `#` or `%` reads back unchanged |
| Storage.EmailQuery | services/storage.js:21 | the e-mail the user lookup asks for is the lower-cased e-mail whenever it has none of `+`, `&`, `#` or `%` |
| Storage.FindUserByEmail | services/storage.js:21-27 | the user found by the e-mail query is in the list and has that e-mail; none is found exactly when no user has it |
| Storage.LoginUser | services/storage.js:19-62 | "User not found" exactly when no user has the e-mail the query reads, the lower-cased e-mail for ordinary addresses; "Invalid password" exactly when the stored password is set and differs; "Invalid credentials" exactly when none is stored but one was typed; otherwise the matched user |
| Storage.NewUser | services/storage.js:64-85 | registration fails with "User already exists" exactly when a user has the e-mail the query reads; otherwise the new user has the lower-cased e-mail, the typed password and no profile |
| Storage.RegisterThenLogin | services/storage.js:19-85 | after registering an e-mail without `+`, `&`, `#` or `%`, logging in with any casing of it and the same password returns the new user |
| Storage.PlusAddressRegistersTwice | services/storage.js:19-85 | an e-mail with a `+` registers, is then not found at login, and registers a second time |
| Storage.FindAfterAppend | services/storage.js:64-85 | an e-mail nobody had is found on the user appended with it |
| Storage.Store.RegisterUser | services/storage.js:64-85 | the store gains exactly the new user, or is unchanged on failure; the other collections are untouched; user ids keep increasing in store order (e-mails are not kept unique, as PlusAddressRegistersTwice shows) |
| Storage.FindRow | services/storage.js:182 | the index found is the first row of that user with that key, or the length when there is none |
| Storage.Lookup | services/storage.js:182 | a row is found exactly when one has that user and key, and what is found is such a row |
| Storage.Upsert | services/storage.js:184-199 | after the PUT-or-POST the saved item is what the key finds; every other user and key finds what it found before; the row count grows only on a POST; keys stay unique |
| Storage.UpsertLookup | services/storage.js:184-199 | replacing the first matching row, or appending when there is none, gives the lookups of Upsert |
| Storage.UpsertIdempotent | services/storage.js:178-202 | saving the same record twice leaves the rows as saving it once |
| Storage.GetWorkouts | services/storage.js:172-176 | no workouts without a session; otherwise the session user's workouts, each as often as its row is stored, in store order |
| Storage.ItemsOf | services/storage.js:172-176 | the items listed are exactly those of that user's rows |
| Storage.ItemsOfCounts | services/storage.js:172-176 | each item is listed as many times as a row of that user holds it |
| Storage.ItemsOfKeepsOrder | services/storage.js:172-176 | the items, taken as rows of that user, are a subsequence of the stored rows |
| Storage.GetDailyStats | services/storage.js:255-261 | the record for that date of the session user, or the zero record for that date when there is none or no session |
| Storage.GetStreakInfo | services/storage.js:290-310 | the session user's streak record, or the empty streak when there is none or no session |
| Storage.UpdatedStreaks | services/storage.js:312-365 | saving on the last logged date leaves the records alone; a first date gets the first-date record; any other date gets the full recalculation over the user's workouts; other users' records are unchanged and keys stay unique |
| Storage.SavedWorkoutIsCounted | services/storage.js:178-202 | once a streak exists, saving a workout on a new date leaves a last date no earlier than it and ten points per distinct workout date, at least ten |
| Storage.EditOntoLastLogDateLeavesStaleRecord | services/storage.js:318-322 | moving a workout onto the last logged date keeps the old points (20) although the recalculation would give 10 |
| Storage.OneRecord | services/storage.js:290-310 | a single stored streak record is what the user reads back |
| Storage.TwoItems | services/storage.js:172-176 | two rows of one user list as those two workouts, in order |
| Storage.Store.constructor | services/storage.js:1-18 | the store starts with no users, workouts, statistics or streaks |
| Storage.Store.RecalculateStreakFull | services/storage.js:367-463 | with a session, the user's streak row becomes the recalculation over their workout dates, written as PUT or POST; nothing else changes |
| Storage.Store.UpdateStreak | services/storage.js:312-365 | with a session, the streak rows become UpdatedStreaks; nothing else changes |
| Storage.Store.SaveWorkout | services/storage.js:178-202 | with a session, the workout is PUT or POSTed and afterwards found by its id, and the streak is updated for its date; without one nothing changes |
| Storage.Store.SaveDailyStats | services/storage.js:263-287 | with a session, the day's record is PUT or POSTed and reads back as saved; other collections are untouched |
| StreakEngine.RunAt | services/storage.js:407-423 | the run ending at a date is at least 1 and no longer than the dates walked so far |
| StreakEngine.ComputeStreak | services/storage.js:367-463 | no dates give the empty streak; points are ten per distinct date; current ≤ longest; the last date is the latest logged date; a last date more than a day before today gives current 0 |
| StreakEngine.LongestRunBounds | services/storage.js:407-423 | the longest streak bounds every run and is reached by one |
| StreakEngine.WalkDates | services/storage.js:407-423 | the loop over the sorted distinct dates ends with the last run and the longest run |
| StreakEngine.RecalculateStreak | services/storage.js:401-439 | the imperative recalculation computes ComputeStreak |
| StreakEngine.PredecessorIsAdjacent | services/storage.js:410-418 | in sorted distinct dates the day before a date can only sit immediately before it |
| StreakEngine.RunIsMaximalBlock | services/storage.js:407-423 | the run at a date covers that many consecutive logged days ending there, and the day before the run was not logged |
| StreakEngine.BlockWithinRun | services/storage.js:407-423 | no block of consecutive logged days ending at a date is longer than the run there |
| StreakEngine.LongestStreakIsLongestBlock | services/storage.js:401-423 | the longest streak is the length of the longest block of consecutive logged days, and such a block exists |
| StreakEngine.CurrentStreakIsBlockAtLastDate | services/storage.js:425-439 | while the last date is today or yesterday, the current streak is the maximal block of consecutive logged days ending at it |
| StreakEngine.SameDatesSameStreak | services/storage.js:401-404 | the streak depends only on the set of dates, not their order or repeats |
| StreakEngine.ExampleThreeDayStreak | services/storage.js:367-463 | three consecutive days ending today give streak 3/3 and 30 points |
| StreakEngine.ExampleGapResets | services/storage.js:410-418 | a gap of several days restarts the run at 1 |
| StreakEngine.ExampleStaleStreak | services/storage.js:425-439 | a last date a week back keeps the longest streak but gives current 0 |
| StreakEngine.FirstDateRecord | services/storage.js:324-328 | the first logged date gives streak 1/1, ten more points and that last date |
| StreakEngine.FirstDateAgreesWithRecompute | services/storage.js:324-345 | the first-date record agrees with the recalculation over that single date exactly when it is today or yesterday |
| Calendar.DayOfWeek | pages/Dashboard.jsx:299-308 | the weekday is 0 (Sunday) to 6 |
| Calendar.YearLength | pages/Dashboard.jsx:290-296 | every year spans 365 or 366 days |
| Calendar.KnownDays | pages/Dashboard.jsx:288-296 | 1970-01-01 is day 0 and a Thursday; 2024 starts on day 19723, a Monday, and has 366 days |
| Dashboard.HeatmapRange | pages/Dashboard.jsx:290-296 | the range starts on the Sunday on or before January 1 and ends on the Saturday on or after December 31; each step of either loop moves the weekday by one, modulo 7 |
| Dashboard.CountByDate | pages/Dashboard.jsx:302-305 | the map has a key exactly for the dates with workouts, and counts the workouts on each |
| Dashboard.CountOn | pages/Dashboard.jsx:311 | a day without an entry in the count map counts zero, otherwise its entry |
| Dashboard.BuildCells | pages/Dashboard.jsx:307-317 | one cell per day of the range, in order, with its count, weekday and whether it lies in the year |
| Dashboard.FlattenSnoc | pages/Dashboard.jsx:319-329 | concatenating the weeks distributes over appending a week |
| Dashboard.ChunkWeeks | pages/Dashboard.jsx:319-329 | the weeks concatenate to the day list; none is empty; each but the last ends on a Saturday; the last does too when the list does |
| Dashboard.GenerateHeatmapData | pages/Dashboard.jsx:288-330 | the weeks run from the Sunday on or before January 1 to the Saturday on or after December 31, one cell per consecutive day, each counting that date's workouts and marked when in the year, seven cells a week |
| Dashboard.CellsOfRange | pages/Dashboard.jsx:288-317 | the day list built over the range meets the heat-map description |
| Dashboard.WeeksOfRange | pages/Dashboard.jsx:319-329 | cutting a Sunday-to-Saturday range after Saturdays gives weeks of seven |
| Dashboard.DayOfWeekOffset | pages/Dashboard.jsx:307-317 | i days after a Sunday is weekday i mod 7 |
| Dashboard.WeeksOfSeven | pages/Dashboard.jsx:319-329 | a partition of whole weeks that starts on Sunday has only seven-day weeks |
| Dashboard.IntensityClass | pages/Dashboard.jsx:352-360 | days outside the year get the transparent class; counts 0 to 4 or more get the five shades |
| Dashboard.ShadeSeparatesCounts | pages/Dashboard.jsx:352-360 | two counts share a shade exactly when they agree once capped at 4 (the five class strings differ), and no in-year day gets the out-of-year class |
| Dashboard.Tally | pages/Dashboard.jsx:236-285 | the reduce lists the initial keys first and then each new non-empty field value in order of first appearance, has a key exactly for the initial keys and the values seen, and holds the initial value plus the amounts of the workouts with that value; the values sum to the initial sum plus all keyed amounts |
| Dashboard.TallyStepKeyed | pages/Dashboard.jsx:236-241 | one reduce step over a keyed workout keeps the tally invariant |
| Dashboard.TallyStepSkipped | pages/Dashboard.jsx:236-241 | a workout with an empty field leaves the accumulator as the invariant requires |
| Dashboard.TallyKeysStep | pages/Dashboard.jsx:236-241 | a keyed step adds the workout's value to the key set |
| Dashboard.TallyValuesStep | pages/Dashboard.jsx:236-241 | a keyed step adds the workout's amount to its own key, starting a new key from zero, and changes no other key |
| Dashboard.SumStep | pages/Dashboard.jsx:236-241 | one reduce step adds its amount to the sum of values |
| Dashboard.SumStepAppend | pages/Dashboard.jsx:236-241 | the same, with the workouts split into the earlier ones and the last |
| Dashboard.KeyOrderStep | pages/Dashboard.jsx:236-257 | writing a key keeps the key list and appends the key exactly when it is seen for the first time |
| Dashboard.FirstSeenSnoc | pages/Dashboard.jsx:236-241 | one more workout appends its value to the first-seen list only when it is non-empty, not initial and not yet listed |
| Dashboard.FirstSeenHas | pages/Dashboard.jsx:236-241 | the first-seen list holds exactly the values seen that are not initial keys |
| Dashboard.FirstSeenDistinct | pages/Dashboard.jsx:236-241 | no value is listed twice |
| Dashboard.FirstSeenPrefix | pages/Dashboard.jsx:236-241 | the values first seen among the first n workouts come before all the others |
| Dashboard.KeySetHasKey | pages/Dashboard.jsx:236-241 | the keys collected are exactly the non-empty values some workout has |
| Dashboard.KeySetSnoc | pages/Dashboard.jsx:236-241 | one more workout adds its non-empty value to the keys collected |
| Dashboard.HasKeyAppend | pages/Dashboard.jsx:236-241 | the keys seen after one more workout are the earlier ones plus its non-empty value |
| Dashboard.TallyOfOutside | pages/Dashboard.jsx:236-241 | a value no workout has tallies nothing |
| Dashboard.TallyOfSnoc | pages/Dashboard.jsx:236-241 | one more workout adds its amount to its own key only |
| Dashboard.TallyTotalSnoc | pages/Dashboard.jsx:236-241 | one more workout adds its amount to the keyed total when its key is non-empty |
| Dashboard.TallyTotalAppend | pages/Dashboard.jsx:236-241 | the same, with the workouts split into the earlier ones and the last |
| Dashboard.CountTotal | pages/Dashboard.jsx:236-241 | the count tally's total is the number of workouts with a non-empty field |
| Dashboard.TypeDistribution | pages/Dashboard.jsx:236-241 | one key per workout type seen, in order of first appearance, holding how many workouts have it (at least one); the counts add up to the number of typed workouts |
| Dashboard.TallyPositive | pages/Dashboard.jsx:236-241 | a type carried by some workout counts at least one |
| Dashboard.TallyNonNegative | pages/Dashboard.jsx:236-241 | counts are never negative |
| Dashboard.IntensityInit | pages/Dashboard.jsx:249-251 | the accumulator starts with Low, Medium, High at zero, in that order |
| Dashboard.IntensityCount | pages/Dashboard.jsx:249-257 | Low, Medium, High come first, then any other intensity seen, in order of first appearance; each key holds the number of workouts of that intensity |
| Dashboard.IntensityData | pages/Dashboard.jsx:259-271 | the pie slices are exactly the levels among Low, Medium, High with a positive count, with those counts, in that order |
| Dashboard.CaloriesByType | pages/Dashboard.jsx:274-285 | at most five (type, calories) pairs, largest first, each type once with its total; a type left out burned no more than any kept; none is left out while fewer than five are shown; among equal totals the types seen first are kept, in order of first appearance |
| Dashboard.TypeTotals | pages/Dashboard.jsx:274-281 | one (type, calorie total) pair per type, in order of first appearance |
| Dashboard.EntriesInFirstSeenOrder | pages/Dashboard.jsx:274-281 | the entries of the calorie tally are those pairs, in that order |
| Dashboard.EntriesOfTotals | pages/Dashboard.jsx:274-282 | the entries of the calorie totals are each type once with its total |
| Dashboard.TopFacts | pages/Dashboard.jsx:282-285 | the first five of the sorted entries keep those facts and contain every larger total |
| Dashboard.DistinctKeys | pages/Dashboard.jsx:282-285 | a sub-multiset of entries with distinct types has distinct types |
| Dashboard.WaterUpdate | pages/Dashboard.jsx:148-155 | the glass count becomes the new count, never below zero; sleep and date unchanged |
| Dashboard.SleepUpdate | pages/Dashboard.jsx:157-164 | sleep moves by the step and is clamped to 0..24; water and date unchanged |
| Dashboard.SleepStepsCancel | pages/Dashboard.jsx:157-164 | a step and its opposite within range return to the starting record |
| Dashboard.HandleWaterUpdate | pages/Dashboard.jsx:148-155 | the new record is shown and, with a session, is PUT or POSTed as today's statistics and reads back; without one nothing changes; workouts, streaks and users untouched |
| Dashboard.HandleSleepUpdate | pages/Dashboard.jsx:157-164 | as for water, with the clamped sleep record |
| Dashboard.Round | pages/Dashboard.jsx:1061 | rounding lands within half of the value, halves upward |
| Dashboard.GoalOrOne | pages/Dashboard.jsx:1060 | the goal divided by is never zero: the number entered, or 1 when it is blank or zero |
| Dashboard.Percent | pages/Dashboard.jsx:1058-1061 | the percentage is the rounded ratio to the goal, capped at 100 |
| Dashboard.MissingGoalIsOne | pages/Dashboard.jsx:1060 | a blank or zero goal counts as a goal of 1 |
| Dashboard.GoalMetIsFull | pages/Dashboard.jsx:1058-1061 | reaching a positive goal shows 100 |
| WorkoutsPage.CheckOrderDistinct | pages/Workouts.jsx:121-134 | errors recorded in check order name each field once |
| WorkoutsPage.NoFailureIsValid | pages/Workouts.jsx:121-134 | no check fails exactly when the form meets all rules |
| WorkoutsPage.Check | pages/Workouts.jsx:123-131 | one check adds its field, with its message, exactly when it fails, keeping check order |
| WorkoutsPage.FieldAt | pages/Workouts.jsx:123-131 | each check position names exactly one field |
| WorkoutsPage.ValidateForm | pages/Workouts.jsx:121-134 | the error object has a message exactly for the failing checks, in check order; the form is valid exactly when it has none and exactly when all rules hold |
| WorkoutsPage.BuildWorkout | pages/Workouts.jsx:144-158 | the saved record keeps the edited id or takes a fresh one; time defaults to 12:00, feeling to "Good", RPE to 5; calories are the estimate; other fields are copied |
| WorkoutsPage.FormOf | pages/Workouts.jsx:97-103 | editing a workout loads its date and time into the form |
| WorkoutsPage.SavedWorkoutRevalidates | pages/Workouts.jsx:97-164 | a saved workout reopened for editing passes validation and saves back to itself |
| WorkoutsPage.HandleSave | pages/Workouts.jsx:136-164 | saving happens exactly when the form validates; an invalid form or a missing session leaves the store alone; otherwise the built workout is PUT or POSTed and the streak records are updated for its date |
| WorkoutsPage.FilteredWorkouts | pages/Workouts.jsx:167-172 | kept exactly the workouts of the chosen type (or All) whose notes or type contain the search text ignoring case, with their multiplicities, in their original order |
| WorkoutsPage.Matches | pages/Workouts.jsx:167-172 | a workout passing a type filter other than All has that type; with the type chosen (or All) and an empty search every workout passes |
| WorkoutsPage.NoFilterKeepsAll | pages/Workouts.jsx:167-172 | type All with an empty search keeps the whole list |
| WorkoutsPage.TodayWorkouts | pages/Workouts.jsx:175-176 | exactly the filtered workouts dated today, with their multiplicities, in their original order |
| WorkoutsPage.ShownNewestFirst | pages/Workouts.jsx:79-87 | both filtered lists keep the newest-first order of the loaded workouts |
| WorkoutsPage.LoadWorkouts | pages/Workouts.jsx:79-87 | the user's workouts, newest first, as a permutation, workouts at the same time keeping their store order |
| WorkoutsPage.RpeBand | pages/Workouts.jsx:191-196 | four bands: exactly up to 3, above 3 up to 6, above 6 up to 8, and above 8 |
| WorkoutsPage.RpeBandMonotone | pages/Workouts.jsx:191-196 | a harder effort never falls in a lower band |
| WorkoutsPage.RpeColor | pages/Workouts.jsx:191-196 | the colour is that of the value's band |
| WorkoutsPage.RpeColorSeparatesBands | pages/Workouts.jsx:191-196 | two values share a colour exactly when they share a band, since the four colour strings differ |
| WeeklyReport.OneWeekAgo | pages/Report.jsx:37-38 | the same time of day, seven calendar days earlier |
| WeeklyReport.InLastWeek | pages/Report.jsx:42 | every date from six days before today's UTC date is in the week, and none before seven days back |
| WeeklyReport.LastWeekBoundary | pages/Report.jsx:37-42 | with t the UTC day of now, the week holds the dates from t-6 on, and t-7 only at exactly midnight UTC |
| WeeklyReport.WeeklyWorkouts | pages/Report.jsx:42 | exactly the workouts within the last week, with their multiplicities, in their stored order |
| WeeklyReport.WeeklyDailyStats | pages/Report.jsx:52 | exactly the daily records within the last week, with their multiplicities, in their stored order |
| WeeklyReport.RecentWorkouts | pages/Report.jsx:45-47 | the ten latest workouts (all when fewer), newest first, and no omitted workout, counting repeated copies, is later than a kept one; among workouts at the same time the earlier stored ones are kept, in stored order |
| WeeklyReport.TotalCalories | pages/Report.jsx:49 | the calories of the week's workouts, not negative when none is |
| WeeklyReport.SumCalories | pages/Report.jsx:49 | the `reduce` total of the calories; non-negative calories sum to a non-negative total |
| WeeklyReport.Window | pages/Report.jsx:60-67 | seven consecutive days ending today |
| WeeklyReport.EmptyBuckets | pages/Report.jsx:60-67 | a bucket at zero for each of the last seven days, oldest first |
| WeeklyReport.BucketStep | pages/Report.jsx:69-73 | adding a workout to its day's bucket, when it has one, keeps each bucket equal to its day's calories |
| WeeklyReport.DailyCalories | pages/Report.jsx:60-73 | the buckets are the last seven days, oldest first, each holding the calories of the week's workouts that day |
| WeeklyReport.WindowAgainstWeek | pages/Report.jsx:37-73 | with today the local day of now: at or east of UTC every chart day is in the week; a weekly workout dated no later than today misses the chart only on the day before its first day, east of UTC or at midnight UTC; a workout dated after today, which the week keeps, is never charted |
| WeeklyReport.BucketsSumToWindowCalories | pages/Report.jsx:60-73 | the buckets add up to the calories dated within the seven days, and the week's total is the buckets plus the calories of workouts dated outside those days; when every workout of the week is inside, the chart adds up to the total |
| WeeklyReport.CaloriesByDays | pages/Report.jsx:49 | the total splits into the calories dated on the given days and those dated on none of them; none is outside when every workout is dated on one of them |
| WeeklyReport.SumOverOfCalories | pages/Report.jsx:69-73 | summing per-day calories over distinct days gives the calories on those days |
| WeeklyReport.CaloriesInNone | pages/Report.jsx:69-73 | no days hold no calories |
| WeeklyReport.CaloriesInSplit | pages/Report.jsx:69-73 | adding a new day adds that day's calories |
| WeeklyReport.WeekdayLabel | pages/Report.jsx:76 | a bar label is one of the seven short weekday names |
| WeeklyReport.WeekdayLabelZone | pages/Report.jsx:75-78 | east of UTC a bar is labelled with its date's weekday, west of UTC with the day before's |
| WeeklyReport.ChartData | pages/Report.jsx:75-78 | one bar per bucket, in ascending date order, labelled by weekday, with the bucket's calories |
| WeeklyReport.ChartOfAscendingKeys | pages/Report.jsx:75-78 | buckets inserted in ascending date order are charted in that order |
| WeeklyReport.ChartOfWindow | pages/Report.jsx:60-78 | the chart has seven bars, one per day of the window, oldest first |
| WeeklyReport.DaysLogged | pages/Report.jsx:55 | the number of daily records of the week, or 1 when there is none |
| WeeklyReport.IntensityColor | pages/Report.jsx:121-126 | the badge colour is that of the RPE band |
| WeeklyReport.SameBandSameBadge | pages/Report.jsx:121-126 | two values share a badge exactly when they share an RPE band (the four badge strings differ), and exactly when they share a workouts-page colour |
| ProfileForm.WithNumeric | pages/ProfileSetup.jsx:62-76 | sets one numeric field and leaves every other field alone |
| ProfileForm.WithText | pages/ProfileSetup.jsx:62-76 | sets one text field and leaves every other field alone |
| ProfileForm.HandleChange | pages/ProfileSetup.jsx:62-76 | a cleared numeric input clears the field; a negative one is ignored; any other number or text is stored |
| ProfileForm.HandleChangeKeepsNoNegatives | pages/ProfileSetup.jsx:62-76 | no change ever makes a numeric field negative, and a change touches only its own field |
| ProfileForm.HandleChangeIdempotent | pages/ProfileSetup.jsx:62-76 | repeating the same change changes nothing more |
| ProfileForm.BmiResult | pages/ProfileSetup.jsx:53-60 | a BMI is shown exactly when height and weight are both positive, and is the calculator's result for them |
| ProfileForm.HandleSubmit | pages/ProfileSetup.jsx:78-92 | a blank name is refused first, then an age, height or weight below 1, and anything else is saved |
| ProfileForm.SavedProfileHasBmi | pages/ProfileSetup.jsx:53-92 | a profile that can be saved always shows a BMI |
| ProfileForm.BmiPosition | pages/ProfileSetup.jsx:96-102 | 0 without a BMI; otherwise BMI 15..40 mapped linearly onto 0..100 and clamped |
| ProfileForm.BmiPositionMonotone | pages/ProfileSetup.jsx:96-102 | a larger BMI never sits further left |
| LoginPage.ValidatePassword | pages/Login.jsx:16-27 | accepted exactly when at least 8 long with an upper-case letter, a digit and a special character; otherwise the first rule broken, in that order |
| LoginPage.ValidatePasswordExamples | pages/Login.jsx:16-27 | a strong password passes, one missing a special character or too short is told which |
| LoginPage.SubmitGuard | pages/Login.jsx:29-48 | a blank e-mail is refused first, then an empty password, then on registration a weak password; otherwise the request goes ahead |
| LoginPage.LoginSkipsStrengthRule | pages/Login.jsx:42-48 | logging in never applies the strength rule |
| LoginPage.Destination | pages/Login.jsx:64-68 | a user with a profile goes to the dashboard, one without to setup |
| LoginPage.HandleSubmit | pages/Login.jsx:29-68 | refused forms touch nothing; a login leads where the user's profile says or fails with the login error, and changes nothing; a registration adds the user, advances the id counter by one and leads to setup, or fails with the registration error and changes nothing |
| AppRoutes.ProtectedRoute | App.jsx:33-46 | signed-out users go to the login page; while the profile loads a spinner shows; a user without a profile is sent to setup unless already there; otherwise the page renders |
| AppRoutes.LoginCheck | App.jsx:66-71 | signed-out users see the login form; signed-in users go to the dashboard or setup by their profile, after the spinner |
| AppRoutes.Guard | App.jsx:80-85 | the login page is guarded by the login check and every other route by the protected route: signed-out users see the login form on the login page and are sent to it from everywhere else; the spinner shows exactly while a signed-in user's profile loads; a page renders only off the login page for a signed-in user |
| AppRoutes.RedirectsSettle | App.jsx:33-71 | a redirect always reaches a route that renders without redirecting again |
| AppRoutes.LoginDestinationAgrees | App.jsx:33-71 | the login page and the login guard send a user to the same place, and that route renders |
| Sequences.UniqueSorted | services/storage.js:401-404 | the sorted distinct dates are strictly increasing and list exactly the dates logged |
| Sequences.InsertDistinct | services/storage.js:401-404 | inserting a date keeps the list strictly increasing and adds it once |
| Sequences.StrictlyIncreasingUnique | services/storage.js:401-404 | two strictly increasing lists with the same members are equal |
| Sequences.UniqueSortedLength | services/storage.js:401-404 | the distinct-date list is as long as the set of dates |
| Sequences.SortByKeyDescending | pages/Workouts.jsx:82-85 | the in-place sort leaves the array in non-increasing key order, as a permutation, and is stable: elements with equal keys keep their order |
| Sequences.TiesAppend | pages/Workouts.jsx:82-85 | the elements of a given key in a concatenation are those of each part, in turn |
| Sequences.TiesPrefix | pages/Report.jsx:45-47 | the elements of a given key among the first n come first among all of that key |
| Sequences.TiesHas | pages/Workouts.jsx:82-85 | the list of a key holds exactly the elements with that key |
| Sequences.SwapKeepsTies | pages/Workouts.jsx:82-85 | swapping neighbours with different keys keeps the order of every key's elements |
| Sequences.StableSortUnique | pages/Workouts.jsx:82-85 | two lists sorted by descending key with the same order within each key are equal, so the sort's result is determined |
| Sequences.LastKeyAgrees | pages/Workouts.jsx:82-85 | a sorted list with the same ties as another ends on a key no larger than the other's last |
| Sequences.LastTiesAgree | pages/Workouts.jsx:82-85 | two lists with the same ties ending on equal keys end on the same element and keep the same ties without it |
| Sequences.InsertLeft | pages/Workouts.jsx:82-85 | one insertion step extends the sorted prefix by one, keeping the elements |
| Sequences.TopByKey | pages/Report.jsx:45-47 | the first k after a descending sort are sorted, drawn from the input (all of it when short), and no omitted element, counting repeated copies, has a larger key than a kept one; the kept elements of each key are the first of that key in the input, in input order |
| Sequences.Filter | pages/Workouts.jsx:167-172 | keeps exactly the elements meeting the test, with their multiplicities, as a subsequence of the input |
| Sequences.SubsequenceSnoc | pages/Workouts.jsx:167-172 | appending an element to the input, and optionally to the kept list, keeps a subsequence |
| Sequences.SubsequenceCons | services/storage.js:172-176 | putting an element in front of the input, and optionally of the kept list, keeps a subsequence |
| Sequences.SubsequenceTransitive | pages/Workouts.jsx:175-176 | a subsequence of a subsequence is a subsequence |
| Sequences.SubsequenceNonIncreasing | pages/Workouts.jsx:79-87 | leaving elements out of a newest-first list keeps it newest first |
| Text.ToLower | pages/Workouts.jsx:167-172 | lower-cases each letter in place |
| Text.ToLowerIdempotent | pages/Workouts.jsx:167-172 | lower-casing twice is lower-casing once |
| Text.Includes | pages/Workouts.jsx:167-172 | true exactly when the text occurs somewhere |
| Text.Trim | pages/Login.jsx:32 | empty exactly when every character is white space; otherwise starts and ends on a non-space |
| Text.TrimRemovesEnds | pages/Login.jsx:32 | the trimmed string is a contiguous part of the input, and what is cut off before and after it is all white space |
| Text.IsBlank | pages/Login.jsx:32 | blank exactly when every character is white space |
| JsObject.Put | pages/Dashboard.jsx:236-241 | a write sets the key's value and appends the key only when it is new |
| JsObject.Entries | pages/Dashboard.jsx:274-281 | the entries follow the key order with their values |
| JsObject.SumValuesAdd | pages/Dashboard.jsx:236-241 | adding an amount to a key adds it to the sum of values |
| Records.Timestamp | pages/Workouts.jsx:82-85 | a workout without a time sorts as midnight; with a time of day, the date is the whole-day part and the time the remainder, so workouts order by date and then by time |
| Records.Dates | services/storage.js:401-403 | the dates of the workouts, position by position |

## Left out

- I/O, the network, `localStorage`, toasts, animations and loading flags are not modelled. The
  session user and the clock are parameters. The 800 ms delay in the login page is not modelled.
- Floating point is modelled with reals. `calculateBMI` and `toFixed` rounding are not modelled: the
  BMI calculator is the parameter `calculate` of ProfileForm.BmiResult. NaN inputs are not modelled.
- `estimateCalories` is not part of this model: the estimate is a parameter of
  WorkoutsPage.BuildWorkout.
- The averages on the report page (`Math.round` of mean sleep and water) are not modelled.
- The month labels of the heat map are not modelled.
- `saveProfile`, `getProfile`, `clearProfile`, `logoutUser` and `deleteWorkout` are not modelled.
  Deleting a workout does not update the streak in the source either.
- Time zones: a date string is read as midnight UTC, and the report's weekday labels use the local
  zone, given as a fixed UTC offset in minutes. Daylight-saving changes are not modelled.
- REST row ids: a user id is a natural number taken from a counter, a new workout id is a parameter,
  and `joinedDate` of a new user is not kept.
- The workout field `type` is called `workoutType`, because `type` is a Dafny keyword.
- Text.ToLower: lower-cases only ASCII letters, while `toLowerCase` also maps other scripts.
- Storage.ItemsOf: its own contract states membership only. The counts and the store order are the
  lemmas Storage.ItemsOfCounts and Storage.ItemsOfKeepsOrder, which Storage.GetWorkouts restates.
- Text.Trim: its own contract states the two ends only. That it removes exactly a whitespace prefix
  and a whitespace suffix is the lemma Text.TrimRemovesEnds.
- LoginPage.ValidatePassword: measures length in characters, while JavaScript counts UTF-16 code units.
- StreakEngine.ComputeStreak: the test of the last logged date against today assumes a time zone at or
  east of UTC. The source reads the date as midnight UTC and then rounds it down to local midnight, so
  west of UTC a streak last logged yesterday already counts as broken. The model compares the day
  numbers directly.
- StreakEngine.ComputeStreak: a last logged date in the future passes the "today or yesterday" test
  and keeps the current streak. The model keeps this as written.
- Storage.UpdatedStreaks: `updateStreak` computes local increments or resets before it recalculates.
  These values are then discarded, so only the record it writes is modelled.
- Storage.EditOntoLastLogDateLeavesStaleRecord: editing a workout onto the date already recorded as
  last logged skips the recalculation. The stored points can then disagree with the workouts. The
  model keeps this as written.
- StreakEngine.FirstDateAgreesWithRecompute: the first-date shortcut writes current streak 1 even
  for a date more than a day ago, where the recalculation would give 0.
- WeeklyReport.WeekdayLabelZone: west of UTC, each chart bar is labelled with the previous day's
  weekday. The model keeps this as written.
- Storage.LoginUser: the source puts the lower-cased e-mail into the lookup query without encoding
  it. The model reads `+` as a space and cuts the value at `&` or `#`, but does not decode `%xx`
  escapes: an e-mail with `%` is matched as typed, where the server would decode it.
- Storage.RegisterThenLogin: promises the round trip only for e-mails without `+`, `&`, `#` or `%`.
  For others the source's login looks up a different e-mail from the one registered.
- Storage.Store.RegisterUser: e-mails are not kept unique, since an e-mail the query reads
  differently is never found and can be registered again.
- WeeklyReport.InLastWeek: the clock `now` is whole minutes, while the source compares milliseconds.
  So "exactly midnight UTC" covers the whole first minute of the day in the model.
- WeeklyReport.LastWeekBoundary: the week includes the date seven days back only when the clock is
  exactly at midnight UTC. The model keeps this as written.
- WeeklyReport.RecentWorkouts: a workout without a time sorts as 00:00, where the source would build
  an invalid date.
- Workouts without a value in an optional numeric field (steps, distance, heart rate) hold 0, which
  every check and default in the source treats like a missing value.
