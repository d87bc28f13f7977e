/** The storage service: REST collections as sequences of rows, the upserts that choose between PUT
    and POST, the read helpers, the login and registration decisions, and the streak updates run after
    a workout is saved. The session is an explicit `Option<UserId>` and the clock an explicit `today`. */
module Storage {
  import opened Wrappers
  import opened Calendar
  import opened Records
  import opened Text
  import opened StreakEngine
  import Sequences

  /** Index of the first row of user u whose item has key k, or |rows| when there is none:
      the row `collection?userId=u` followed by `.find(...)` (or `[0]`) returns. */
  function FindRow<T, K(==)>(rows: seq<Owned<T>>, u: UserId, key: T -> K, k: K): (i: nat)
    ensures i <= |rows|
    ensures i < |rows| ==> rows[i].userId == u && key(rows[i].item) == k
    ensures forall j :: 0 <= j < i ==> !(rows[j].userId == u && key(rows[j].item) == k)
  {
    if rows == [] then 0
    else if rows[0].userId == u && key(rows[0].item) == k then 0
    else FindRow(rows[1..], u, key, k) + 1
  }

  /** The item a read of user u and key k finds, if any. */
  function Lookup<T, K(==)>(rows: seq<Owned<T>>, u: UserId, key: T -> K, k: K): (r: Option<T>)
    ensures r.Some? <==> exists i :: 0 <= i < |rows| && rows[i].userId == u && key(rows[i].item) == k
    ensures r.Some? ==> key(r.value) == k && Owned(u, r.value) in rows
  {
    var i := FindRow(rows, u, key, k);
    if i < |rows| then Some(rows[i].item) else None
  }

  /** No two rows share a user and a key. */
  ghost predicate UniqueRows<T, K>(rows: seq<Owned<T>>, key: T -> K) {
    forall i, j :: 0 <= i < j < |rows| ==>
      !(rows[i].userId == rows[j].userId && key(rows[i].item) == key(rows[j].item))
  }

  /** PUT over the row with the same user and key if one exists, POST a new row at the end otherwise. */
  function Upsert<T, K(==,!new)>(rows: seq<Owned<T>>, u: UserId, key: T -> K, x: T): (r: seq<Owned<T>>)
    ensures Lookup(r, u, key, key(x)) == Some(x)
    ensures forall u': UserId, k': K :: (u', k') != (u, key(x)) ==> Lookup(r, u', key, k') == Lookup(rows, u', key, k')
    ensures |r| == if Lookup(rows, u, key, key(x)).Some? then |rows| else |rows| + 1
    ensures UniqueRows(rows, key) ==> UniqueRows(r, key)
  {
    var i := FindRow(rows, u, key, key(x));
    var r := if i < |rows| then rows[i := Owned(u, x)] else rows + [Owned(u, x)];
    UpsertLookup(rows, u, key, x, i, r);
    r
  }

  lemma UpsertLookup<T, K(!new)>(rows: seq<Owned<T>>, u: UserId, key: T -> K, x: T, i: nat, r: seq<Owned<T>>)
    requires i == FindRow(rows, u, key, key(x))
    requires r == if i < |rows| then rows[i := Owned(u, x)] else rows + [Owned(u, x)]
    ensures Lookup(r, u, key, key(x)) == Some(x)
    ensures forall u': UserId, k': K :: (u', k') != (u, key(x)) ==> Lookup(r, u', key, k') == Lookup(rows, u', key, k')
    ensures UniqueRows(rows, key) ==> UniqueRows(r, key)
  {
    FindRowAgree(rows, r, u, key, key(x), i);
    forall u': UserId, k': K | (u', k') != (u, key(x))
      ensures Lookup(r, u', key, k') == Lookup(rows, u', key, k')
    {
      if i < |rows| {
        FindRowSkip(rows, r, u', key, k');
      } else {
        FindRowAppend(rows, Owned(u, x), u', key, k');
      }
    }
  }

  /** Rows that differ only at positions where neither side matches give the same search result. */
  lemma {:induction false} FindRowSkip<T, K>(a: seq<Owned<T>>, b: seq<Owned<T>>, u: UserId, key: T -> K, k: K)
    requires |a| == |b|
    requires forall j :: 0 <= j < |a| ==>
               (a[j] == b[j] || (!(a[j].userId == u && key(a[j].item) == k) && !(b[j].userId == u && key(b[j].item) == k)))
    ensures FindRow(b, u, key, k) == FindRow(a, u, key, k)
  {
    if a != [] {
      FindRowSkip(a[1..], b[1..], u, key, k);
    }
  }

  /** Searching after a POST: an earlier match still wins, the new row is found only when it matches. */
  lemma {:induction false} FindRowAppend<T, K>(a: seq<Owned<T>>, y: Owned<T>, u: UserId, key: T -> K, k: K)
    ensures FindRow(a + [y], u, key, k) ==
            if FindRow(a, u, key, k) < |a| then FindRow(a, u, key, k)
            else if y.userId == u && key(y.item) == k then |a| else |a| + 1
  {
    if a != [] {
      assert (a + [y])[1..] == a[1..] + [y];
      FindRowAppend(a[1..], y, u, key, k);
    }
  }

  /** Two row lists that agree before n find the same first match when it comes before n; a search
      that fails before n in one fails before n in the other. */
  lemma {:induction false} FindRowAgree<T, K>(a: seq<Owned<T>>, b: seq<Owned<T>>, u: UserId, key: T -> K, k: K, n: nat)
    requires n <= |a| && n <= |b|
    requires forall j :: 0 <= j < n ==> a[j] == b[j]
    ensures FindRow(a, u, key, k) < n ==> FindRow(b, u, key, k) == FindRow(a, u, key, k)
    ensures FindRow(a, u, key, k) >= n ==> FindRow(b, u, key, k) >= n
  {
    if n > 0 && !(a[0].userId == u && key(a[0].item) == k) {
      FindRowAgree(a[1..], b[1..], u, key, k, n - 1);
    }
  }

  /** Upserting the same item twice in a row leaves what the first upsert left. */
  lemma UpsertIdempotent<T, K(!new)>(rows: seq<Owned<T>>, u: UserId, key: T -> K, x: T)
    ensures Upsert(Upsert(rows, u, key, x), u, key, x) == Upsert(rows, u, key, x)
  {
    var r := Upsert(rows, u, key, x);
    var i := FindRow(r, u, key, key(x));
    assert i < |r|;
    var j := FindRow(rows, u, key, key(x));
    FindRowAgree(rows, r, u, key, key(x), j);
    assert r[j] == Owned(u, x);
    assert i == j;
    assert r[i := Owned(u, x)] == r;
  }

  function WorkoutKey(w: Workout): WorkoutId { w.id }
  function StatsKey(s: DailyStats): Day { s.date }
  function StreakKey(s: StreakInfo): () { () }

  /** `getWorkouts()`: the workouts of the session user, each as often as its row occurs and in
      store order; none without a session. */
  function GetWorkouts(rows: seq<Owned<Workout>>, session: Option<UserId>): (r: seq<Workout>)
    ensures session.None? ==> r == []
    ensures session.Some? ==> forall w :: w in r <==> Owned(session.value, w) in rows
    ensures session.Some? ==> forall w :: multiset(r)[w] == multiset(rows)[Owned(session.value, w)]
    ensures session.Some? ==> Sequences.Subsequence(OwnedBy(session.value, r), rows)
  {
    match session
    case None => []
    case Some(u) =>
      ItemsOfCounts(rows, u);
      ItemsOfKeepsOrder(rows, u);
      ItemsOf(rows, u)
  }

  /** The items xs as rows of user u. */
  function OwnedBy<T>(u: UserId, xs: seq<T>): (r: seq<Owned<T>>)
    ensures |r| == |xs| && forall i :: 0 <= i < |xs| ==> r[i] == Owned(u, xs[i])
  {
    seq(|xs|, i requires 0 <= i < |xs| => Owned(u, xs[i]))
  }

  /** The items of the rows of user u, as the server's `?userId=u` filter returns them. */
  function ItemsOf<T(!new)>(rows: seq<Owned<T>>, u: UserId): (r: seq<T>)
    ensures forall x :: x in r <==> Owned(u, x) in rows
  {
    if rows == [] then []
    else (if rows[0].userId == u then [rows[0].item] else []) + ItemsOf(rows[1..], u)
  }

  /** Every row of user u contributes its item once. */
  lemma {:induction false} ItemsOfCounts<T(!new)>(rows: seq<Owned<T>>, u: UserId)
    ensures forall x :: multiset(ItemsOf(rows, u))[x] == multiset(rows)[Owned(u, x)]
  {
    if rows != [] {
      ItemsOfCounts(rows[1..], u);
      assert rows == [rows[0]] + rows[1..];
    }
  }

  /** The items come in the order of their rows in the store. */
  lemma {:induction false} ItemsOfKeepsOrder<T(!new)>(rows: seq<Owned<T>>, u: UserId)
    ensures Sequences.Subsequence(OwnedBy(u, ItemsOf(rows, u)), rows)
  {
    if rows == [] {
      assert Sequences.Embeds([], OwnedBy(u, []), rows);
    } else {
      var rest := ItemsOf(rows[1..], u);
      ItemsOfKeepsOrder(rows[1..], u);
      assert rows == [rows[0]] + rows[1..];
      Sequences.SubsequenceCons(OwnedBy(u, rest), rows[1..], rows[0], rows[0].userId == u);
      var head := if rows[0].userId == u then [rows[0].item] else [];
      assert OwnedBy(u, head + rest) == (if rows[0].userId == u then [rows[0]] else []) + OwnedBy(u, rest);
    }
  }

  /** `getDailyStats(date)`: the stored stats of that date, or an empty record for it. */
  function GetDailyStats(rows: seq<Owned<DailyStats>>, session: Option<UserId>, date: Day): (r: DailyStats)
    ensures r.date == date
    ensures session.None? ==> r == DailyStats(date, 0, 0.0)
    ensures session.Some? ==>
              r == Lookup(rows, session.value, StatsKey, date).GetOr(DailyStats(date, 0, 0.0))
  {
    match session
    case None => DailyStats(date, 0, 0.0)
    case Some(u) => Lookup(rows, u, StatsKey, date).GetOr(DailyStats(date, 0, 0.0))
  }

  /** `getStreakInfo()`: the session user's streak record, or the empty record. */
  function GetStreakInfo(rows: seq<Owned<StreakInfo>>, session: Option<UserId>): (r: StreakInfo)
    ensures session.None? ==> r == NoStreak
    ensures session.Some? && Lookup(rows, session.value, StreakKey, ()).None? ==> r == NoStreak
    ensures session.Some? && Lookup(rows, session.value, StreakKey, ()).Some? ==>
              r == Lookup(rows, session.value, StreakKey, ()).value
  {
    match session
    case None => NoStreak
    case Some(u) => Lookup(rows, u, StreakKey, ()).GetOr(NoStreak)
  }

  /** The errors `loginUser` and `registerUser` throw. */
  datatype AuthError = UserNotFound | InvalidPassword | InvalidCredentials | UserAlreadyExists

  function AuthMessage(e: AuthError): string {
    match e
    case UserNotFound => "User not found"
    case InvalidPassword => "Invalid password"
    case InvalidCredentials => "Invalid credentials"
    case UserAlreadyExists => "User already exists"
  }

  /** The characters a query-string reader does not take literally: `+` reads as a space, `&` and
      `#` end the value, and `%` starts an escape. */
  predicate QuerySafe(s: string) {
    forall i :: 0 <= i < |s| ==> s[i] != '+' && s[i] != '&' && s[i] != '#' && s[i] != '%'
  }

  /** The value the server reads for `email=s` when `s` is put into the URL without encoding: it
      ends at the first `&` or `#`, and each `+` in it reads as a space. */
  function QueryValue(s: string): (r: string)
    ensures |r| <= |s|
    ensures forall i :: 0 <= i < |r| ==> r[i] == if s[i] == '+' then ' ' else s[i]
    ensures |r| < |s| ==> s[|r|] == '&' || s[|r|] == '#'
    ensures forall i :: 0 <= i < |r| ==> s[i] != '&' && s[i] != '#'
    ensures QuerySafe(s) ==> r == s
  {
    if s == [] || s[0] == '&' || s[0] == '#' then []
    else [if s[0] == '+' then ' ' else s[0]] + QueryValue(s[1..])
  }

  /** The e-mail the lookup `/users?email=${email.toLowerCase()}` asks the server for. */
  function EmailQuery(email: string): (r: string)
    ensures QuerySafe(email) ==> r == ToLower(email)
  {
    QueryValue(ToLower(email))
  }

  /** `/users?email=e` followed by `users[0]`. */
  function FindUserByEmail(users: seq<User>, e: string): (r: Option<User>)
    ensures r.Some? ==> r.value in users && r.value.email == e
    ensures r.None? <==> forall v :: v in users ==> v.email != e
  {
    if users == [] then None
    else if users[0].email == e then Some(users[0])
    else FindUserByEmail(users[1..], e)
  }

  /** `loginUser(email, password)`: look the user up by the lower-cased email, then check the password. */
  function LoginUser(users: seq<User>, email: string, password: string): (r: Result<User, AuthError>)
    ensures r == Failure(UserNotFound) <==> FindUserByEmail(users, EmailQuery(email)).None?
    ensures r == Failure(InvalidPassword) <==>
              exists v :: FindUserByEmail(users, EmailQuery(email)) == Some(v) && v.password != "" && v.password != password
    ensures r == Failure(InvalidCredentials) <==>
              exists v :: FindUserByEmail(users, EmailQuery(email)) == Some(v) && v.password == "" && password != ""
    ensures r.Success? ==> FindUserByEmail(users, EmailQuery(email)) == Some(r.value) && r.value.password == password
  {
    match FindUserByEmail(users, EmailQuery(email))
    case None => Failure(UserNotFound)
    case Some(user) =>
      if user.password != "" && user.password != password then Failure(InvalidPassword)
      else if user.password == "" && password != "" then Failure(InvalidCredentials)
      else Success(user)
  }

  /** `registerUser(email, password)`: refuse a taken email, else the record to POST, with a new id
      and no profile. */
  function NewUser(users: seq<User>, id: UserId, email: string, password: string): (r: Result<User, AuthError>)
    ensures r.Failure? <==> exists v :: v in users && v.email == EmailQuery(email)
    ensures r.Failure? ==> r.error == UserAlreadyExists
    ensures r.Success? ==> r.value == User(id, ToLower(email), password, None)
  {
    if FindUserByEmail(users, EmailQuery(email)).Some? then Failure(UserAlreadyExists)
    else Success(User(id, ToLower(email), password, None))
  }

  /** A newly registered user can log in with the same password, whatever the case of the email,
      when the email reads back from the query unchanged. */
  lemma RegisterThenLogin(users: seq<User>, id: UserId, email: string, password: string, email': string)
    requires NewUser(users, id, email, password).Success?
    requires QuerySafe(email) && ToLower(email') == ToLower(email)
    ensures LoginUser(users + [NewUser(users, id, email, password).value], email', password)
            == Success(NewUser(users, id, email, password).value)
  {
    var user := NewUser(users, id, email, password).value;
    FindAfterAppend(users, user, ToLower(email));
  }

  /** An e-mail with a `+` is posted as typed but looked up with a space in its place: it registers,
      cannot log in, and registers a second time. */
  lemma PlusAddressRegistersTwice()
    ensures NewUser([], 1, "a+b@x.com", "Secret1!") == Success(User(1, "a+b@x.com", "Secret1!", None))
    ensures LoginUser([User(1, "a+b@x.com", "Secret1!", None)], "a+b@x.com", "Secret1!") == Failure(UserNotFound)
    ensures NewUser([User(1, "a+b@x.com", "Secret1!", None)], 2, "a+b@x.com", "Secret1!")
            == Success(User(2, "a+b@x.com", "Secret1!", None))
  {
    var e := "a+b@x.com";
    assert ToLower(e) == e;
    assert EmailQuery(e)[1] == ' ';
  }

  lemma {:induction false} FindAfterAppend(users: seq<User>, user: User, e: string)
    requires FindUserByEmail(users, e).None? && user.email == e
    ensures FindUserByEmail(users + [user], e) == Some(user)
  {
    if users != [] {
      assert (users + [user])[1..] == users[1..] + [user];
      FindAfterAppend(users[1..], user, e);
    }
  }

  /** The streak rows after `updateStreak(d)` for user u: nothing changes when d is the record's
      lastLogDate; a record without a lastLogDate gets the direct first-day write; otherwise the
      record is rebuilt from all of the user's workouts. The increments the source computes on its
      local copy before the rebuild are overwritten by it and do not appear. */
  function UpdatedStreaks(streaks: seq<Owned<StreakInfo>>, workouts: seq<Owned<Workout>>, u: UserId, d: Day, today: Day)
    : (r: seq<Owned<StreakInfo>>)
    ensures forall u': UserId :: u' != u ==> Lookup(r, u', StreakKey, ()) == Lookup(streaks, u', StreakKey, ())
    ensures GetStreakInfo(streaks, Some(u)).lastLogDate == Some(d) ==> r == streaks
    ensures GetStreakInfo(streaks, Some(u)).lastLogDate.None? ==>
              GetStreakInfo(r, Some(u)) == FirstDateRecord(GetStreakInfo(streaks, Some(u)), d)
    ensures GetStreakInfo(streaks, Some(u)).lastLogDate.Some? && GetStreakInfo(streaks, Some(u)).lastLogDate != Some(d) ==>
              GetStreakInfo(r, Some(u)) == ComputeStreak(Dates(ItemsOf(workouts, u)), today)
    ensures UniqueRows(streaks, StreakKey) ==> UniqueRows(r, StreakKey)
  {
    var s := GetStreakInfo(streaks, Some(u));
    if s.lastLogDate == Some(d) then streaks
    else if s.lastLogDate.None? then Upsert(streaks, u, StreakKey, FirstDateRecord(s, d))
    else Upsert(streaks, u, StreakKey, ComputeStreak(Dates(ItemsOf(workouts, u)), today))
  }

  /** Saving a workout on a day other than the record's (set) lastLogDate leaves a record that counts
      the saved workout: its date is at most the new lastLogDate and the points are ten per distinct
      day over all of the user's workouts. */
  lemma SavedWorkoutIsCounted(streaks: seq<Owned<StreakInfo>>, workouts: seq<Owned<Workout>>, u: UserId, w: Workout, today: Day)
    requires GetStreakInfo(streaks, Some(u)).lastLogDate.Some?
    requires GetStreakInfo(streaks, Some(u)).lastLogDate != Some(w.date)
    ensures var ws := Upsert(workouts, u, WorkoutKey, w);
            var s := GetStreakInfo(UpdatedStreaks(streaks, ws, u, w.date, today), Some(u));
            s.lastLogDate.Some? && w.date <= s.lastLogDate.value &&
            s.totalPoints == 10 * |set x | x in Dates(ItemsOf(ws, u))| && s.totalPoints >= 10
  {
    var ws := Upsert(workouts, u, WorkoutKey, w);
    assert Owned(u, w) in ws;
    var items := ItemsOf(ws, u);
    assert w in items;
    var i :| 0 <= i < |items| && items[i] == w;
    assert w.date in Dates(items) by { assert Dates(items)[i] == w.date; }
    var days := set x | x in Dates(items);
    assert days == (days - {w.date}) + {w.date};
  }

  /** Moving an existing workout onto the record's lastLogDate skips the rebuild, so the record can
      keep counting a day that no longer has a workout: days 10 and 12 are logged, the workout of
      day 10 is edited onto day 12, and the record still holds 20 points where a rebuild gives 10. */
  lemma EditOntoLastLogDateLeavesStaleRecord(w1: Workout, w2: Workout)
    requires w1.id != w2.id && w1.date == 10 && w2.date == 12
    ensures var before := [Owned(1, w1), Owned(1, w2)];
            var streaks := [Owned(1, ComputeStreak(Dates(ItemsOf(before, 1)), 12))];
            var after := Upsert(before, 1, WorkoutKey, w1.(date := 12));
            GetStreakInfo(UpdatedStreaks(streaks, after, 1, 12, 12), Some(1)).totalPoints == 20 &&
            ComputeStreak(Dates(ItemsOf(after, 1)), 12).totalPoints == 10
  {
    var moved := w1.(date := 12);
    var before := [Owned(1, w1), Owned(1, w2)];
    TwoItems(1, w1, w2);
    assert (set x | x in [10, 12]) == {10, 12};
    var rec := ComputeStreak([10, 12], 12);
    var streaks := [Owned(1, rec)];
    OneRecord(1, rec);
    var after := Upsert(before, 1, WorkoutKey, moved);
    assert after == [Owned(1, moved), Owned(1, w2)] by {
      assert FindRow(before, 1, WorkoutKey, w1.id) == 0;
    }
    TwoItems(1, moved, w2);
    assert (set x | x in [12, 12]) == {12};
  }

  lemma TwoItems(u: UserId, w1: Workout, w2: Workout)
    ensures ItemsOf([Owned(u, w1), Owned(u, w2)], u) == [w1, w2]
    ensures Dates([w1, w2]) == [w1.date, w2.date]
  {
    var rows := [Owned(u, w1), Owned(u, w2)];
    assert rows[1..] == [Owned(u, w2)];
    assert [Owned(u, w2)][1..] == [];
    assert ItemsOf([Owned(u, w2)], u) == [w2];
  }

  lemma OneRecord(u: UserId, s: StreakInfo)
    ensures GetStreakInfo([Owned(u, s)], Some(u)) == s
  {
    assert FindRow([Owned(u, s)], u, StreakKey, ()) == 0;
  }

  /** The data the REST server holds: users, and per-user rows of workouts, daily stats and streak
      records. Row ids are not modelled: a row is addressed by its user and its key. */
  class Store {
    var users: seq<User>
    var nextUserId: UserId
    var workouts: seq<Owned<Workout>>
    var dailyStats: seq<Owned<DailyStats>>
    var streaks: seq<Owned<StreakInfo>>

    /** User ids increase in store order and stay below the next id; each user has at most one
        workout per id, one stats row per date and one streak record. E-mails need not be unique:
        see PlusAddressRegistersTwice. */
    ghost predicate Valid()
      reads this
    {
      && (forall i, j :: 0 <= i < j < |users| ==> users[i].id < users[j].id)
      && (forall i :: 0 <= i < |users| ==> users[i].id < nextUserId)
      && UniqueRows(workouts, WorkoutKey)
      && UniqueRows(dailyStats, StatsKey)
      && UniqueRows(streaks, StreakKey)
    }

    constructor ()
      ensures Valid()
      ensures users == [] && workouts == [] && dailyStats == [] && streaks == []
    {
      users, nextUserId, workouts, dailyStats, streaks := [], 1, [], [], [];
    }

    /** `registerUser`: refuse a taken email, else POST the new user with the next id. */
    method RegisterUser(email: string, password: string) returns (r: Result<User, AuthError>)
      requires Valid()
      modifies this
      ensures Valid()
      ensures r == NewUser(old(users), old(nextUserId), email, password)
      ensures r.Failure? ==> users == old(users) && nextUserId == old(nextUserId)
      ensures r.Success? ==> users == old(users) + [r.value] && nextUserId == old(nextUserId) + 1
      ensures workouts == old(workouts) && dailyStats == old(dailyStats) && streaks == old(streaks)
    {
      r := NewUser(users, nextUserId, email, password);
      if r.Success? {
        users := users + [r.value];
        nextUserId := nextUserId + 1;
      }
    }

    /** `recalculateStreakFull`: rebuild the session user's record from all of their workouts. */
    method RecalculateStreakFull(session: Option<UserId>, today: Day)
      requires Valid()
      modifies this
      ensures Valid()
      ensures session.None? ==> streaks == old(streaks)
      ensures session.Some? ==>
                streaks == Upsert(old(streaks), session.value, StreakKey, ComputeStreak(Dates(ItemsOf(workouts, session.value)), today))
      ensures users == old(users) && nextUserId == old(nextUserId)
      ensures workouts == old(workouts) && dailyStats == old(dailyStats)
    {
      if session.None? {
        return;
      }
      var u := session.value;
      var ws := GetWorkouts(workouts, session);
      var info := RecalculateStreak(Dates(ws), today);
      streaks := Upsert(streaks, u, StreakKey, info);
    }

    /** `updateStreak(d)`, run after a workout of day d is saved. */
    method UpdateStreak(session: Option<UserId>, d: Day, today: Day)
      requires Valid()
      modifies this
      ensures Valid()
      ensures session.None? ==> streaks == old(streaks)
      ensures session.Some? ==> streaks == UpdatedStreaks(old(streaks), workouts, session.value, d, today)
      ensures users == old(users) && nextUserId == old(nextUserId)
      ensures workouts == old(workouts) && dailyStats == old(dailyStats)
    {
      if session.None? {
        return;
      }
      var u := session.value;
      var streak := GetStreakInfo(streaks, session);
      if streak.lastLogDate == Some(d) {
        return;
      }
      if streak.lastLogDate.None? {
        streaks := Upsert(streaks, u, StreakKey, FirstDateRecord(streak, d));
      } else {
        RecalculateStreakFull(session, today);
      }
    }

    /** `saveWorkout(w)`: PUT over the session user's workout with the same id, or POST it, then
        update the streak for its date. */
    method SaveWorkout(session: Option<UserId>, w: Workout, today: Day)
      requires Valid()
      modifies this
      ensures Valid()
      ensures session.None? ==> workouts == old(workouts) && streaks == old(streaks)
      ensures session.Some? ==> workouts == Upsert(old(workouts), session.value, WorkoutKey, w)
      ensures session.Some? ==> streaks == UpdatedStreaks(old(streaks), workouts, session.value, w.date, today)
      ensures session.Some? ==> Lookup(workouts, session.value, WorkoutKey, w.id) == Some(w)
      ensures users == old(users) && nextUserId == old(nextUserId) && dailyStats == old(dailyStats)
    {
      if session.None? {
        return;
      }
      workouts := Upsert(workouts, session.value, WorkoutKey, w);
      UpdateStreak(session, w.date, today);
    }

    /** `saveDailyStats(st)`: PUT over the session user's row of the same date, or POST it. */
    method SaveDailyStats(session: Option<UserId>, st: DailyStats)
      requires Valid()
      modifies this
      ensures Valid()
      ensures session.None? ==> dailyStats == old(dailyStats)
      ensures session.Some? ==> dailyStats == Upsert(old(dailyStats), session.value, StatsKey, st)
      ensures session.Some? ==> GetDailyStats(dailyStats, session, st.date) == st
      ensures users == old(users) && nextUserId == old(nextUserId)
      ensures workouts == old(workouts) && streaks == old(streaks)
    {
      if session.None? {
        return;
      }
      dailyStats := Upsert(dailyStats, session.value, StatsKey, st);
    }
  }
}
