/** The login page: the password-strength rule for new accounts, the order of the submit checks and
    where a signed-in user is sent. */
module LoginPage {
  import opened Wrappers
  import opened Records
  import opened Text
  import Storage

  /** The characters of the class `[!@#$%^&*(),.?":{}|<>]`. */
  const SpecialChars: string := "!@#$%^&*(),.?\":{}|<>"

  /** `/[A-Z]/.test(s)`. */
  predicate HasUpperCase(s: string) {
    exists i | 0 <= i < |s| :: 'A' <= s[i] <= 'Z'
  }

  /** `/[0-9]/.test(s)`. */
  predicate HasNumber(s: string) {
    exists i | 0 <= i < |s| :: '0' <= s[i] <= '9'
  }

  /** `/[!@#$%^&*(),.?":{}|<>]/.test(s)`. */
  predicate HasSpecialChar(s: string) {
    exists i | 0 <= i < |s| :: s[i] in SpecialChars
  }

  const MinLength: nat := 8

  /** Why a password is refused, in the order the rule checks. */
  datatype Weakness = TooShort | NoUpperCase | NoNumber | NoSpecialChar

  function WeaknessMessage(w: Weakness): string {
    match w
    case TooShort => "Password must be at least 8 characters"
    case NoUpperCase => "Password must contain at least one uppercase letter"
    case NoNumber => "Password must contain at least one number"
    case NoSpecialChar => "Password must contain at least one special character"
  }

  /** `validatePassword(pass)`: the first rule the password breaks, in the order length, uppercase
      letter, digit, special character, or None when it keeps them all. */
  function ValidatePassword(pass: string): (r: Option<Weakness>)
    ensures r.None? <==> |pass| >= MinLength && HasUpperCase(pass) && HasNumber(pass) && HasSpecialChar(pass)
    ensures r == Some(TooShort) <==> |pass| < MinLength
    ensures r == Some(NoUpperCase) <==> |pass| >= MinLength && !HasUpperCase(pass)
    ensures r == Some(NoNumber) <==> |pass| >= MinLength && HasUpperCase(pass) && !HasNumber(pass)
    ensures r == Some(NoSpecialChar) <==>
              |pass| >= MinLength && HasUpperCase(pass) && HasNumber(pass) && !HasSpecialChar(pass)
  {
    if |pass| < MinLength then Some(TooShort)
    else if !HasUpperCase(pass) then Some(NoUpperCase)
    else if !HasNumber(pass) then Some(NoNumber)
    else if !HasSpecialChar(pass) then Some(NoSpecialChar)
    else None
  }

  /** A sample password meeting the rule and one refused only for its missing special character. */
  lemma ValidatePasswordExamples()
    ensures ValidatePassword("Abcdefg1!") == None
    ensures ValidatePassword("Abcdefg12") == Some(NoSpecialChar)
    ensures ValidatePassword("Ab1!") == Some(TooShort)
  {
    var good := "Abcdefg1!";
    assert 'A' <= good[0] <= 'Z' && '0' <= good[7] <= '9' && good[8] in SpecialChars;
    var noSpecial := "Abcdefg12";
    assert 'A' <= noSpecial[0] <= 'Z' && '0' <= noSpecial[7] <= '9';
    assert forall i | 0 <= i < |noSpecial| :: noSpecial[i] !in SpecialChars;
  }

  /** Why `handleSubmit` stops before contacting the store. */
  datatype Rejection = EmailMissing | PasswordMissing | WeakPassword(weakness: Weakness)

  function RejectionMessage(r: Rejection): string {
    match r
    case EmailMissing => "Please enter your email"
    case PasswordMissing => "Please enter your password"
    case WeakPassword(w) => WeaknessMessage(w)
  }

  /** The guard returns of `handleSubmit`: a blank email first, then an empty password, then, only
      when registering, the strength rule. */
  function SubmitGuard(email: string, password: string, isLogin: bool): (r: Option<Rejection>)
    ensures IsBlank(email) ==> r == Some(EmailMissing)
    ensures !IsBlank(email) && password == "" ==> r == Some(PasswordMissing)
    ensures r.None? <==> !IsBlank(email) && password != "" && (isLogin || ValidatePassword(password).None?)
    ensures r.Some? && r.value.WeakPassword? ==> !isLogin && ValidatePassword(password) == Some(r.value.weakness)
  {
    if IsBlank(email) then Some(EmailMissing)
    else if password == "" then Some(PasswordMissing)
    else if !isLogin && ValidatePassword(password).Some? then Some(WeakPassword(ValidatePassword(password).value))
    else None
  }

  /** Signing in does not apply the strength rule: any non-empty password gets past the guard. */
  lemma LoginSkipsStrengthRule(email: string, password: string)
    requires !IsBlank(email) && password != ""
    ensures SubmitGuard(email, password, true) == None
  {
  }

  /** Where a signed-in user is sent: the dashboard once a profile exists, the setup page before. */
  function Destination(user: User): (r: Route)
    ensures r == DashboardRoute <==> user.profile.Some?
    ensures r == Setup <==> user.profile.None?
  {
    if user.profile.Some? then DashboardRoute else Setup
  }

  /** The end of `handleSubmit`. */
  datatype Outcome = Rejected(rejection: Rejection) | AuthFailed(error: Storage.AuthError) | Navigate(to: Route)

  /** `handleSubmit`: the guard, then `loginUser` or `registerUser`, then the destination. Only a
      registration that passes every check changes the store. */
  method HandleSubmit(store: Storage.Store, email: string, password: string, isLogin: bool) returns (o: Outcome)
    requires store.Valid()
    modifies store
    ensures store.Valid()
    ensures SubmitGuard(email, password, isLogin).Some? ==>
              o == Rejected(SubmitGuard(email, password, isLogin).value) && store.users == old(store.users)
    ensures SubmitGuard(email, password, isLogin).None? && isLogin ==>
              store.users == old(store.users) &&
              o == match Storage.LoginUser(old(store.users), email, password)
                   case Success(u) => Navigate(Destination(u))
                   case Failure(e) => AuthFailed(e)
    ensures SubmitGuard(email, password, isLogin).None? && !isLogin ==>
              o == match Storage.NewUser(old(store.users), old(store.nextUserId), email, password)
                   case Success(u) => Navigate(Setup)
                   case Failure(e) => AuthFailed(e)
    ensures SubmitGuard(email, password, isLogin).None? && !isLogin ==>
              store.users == match Storage.NewUser(old(store.users), old(store.nextUserId), email, password)
                             case Success(u) => old(store.users) + [u]
                             case Failure(_) => old(store.users)
    ensures store.nextUserId == old(store.nextUserId) +
              if SubmitGuard(email, password, isLogin).None? && !isLogin &&
                 Storage.NewUser(old(store.users), old(store.nextUserId), email, password).Success? then 1 else 0
    ensures store.workouts == old(store.workouts) && store.dailyStats == old(store.dailyStats)
    ensures store.streaks == old(store.streaks)
  {
    var guard := SubmitGuard(email, password, isLogin);
    if guard.Some? {
      return Rejected(guard.value);
    }
    var r: Result<User, Storage.AuthError>;
    if isLogin {
      r := Storage.LoginUser(store.users, email, password);
    } else {
      r := store.RegisterUser(email, password);
    }
    match r
    case Success(u) => o := Navigate(Destination(u));
    case Failure(e) => o := AuthFailed(e);
  }
}
