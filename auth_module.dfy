/** The auth module: a per-email failed-attempt counter and lockout record, and a
    session table with a current-session pointer. Clock readings and generated
    tokens are parameters. */
module Auth {
  import opened Wrappers
  import opened Json
  import opened ModuleTypes
  import opened Base
  import Text

  datatype Credentials = Credentials(email: string, password: string)

  /** A session; the two times are clock readings in milliseconds. */
  datatype Session = Session(userId: string, token: string, expiresAt: int, createdAt: nat)

  datatype AuthUser = AuthUser(id: string, email: string)

  /** `AuthResponse`: `{success: true, user, token, session}` or `{success: false, error}`. */
  datatype AuthResponse =
    | Success(user: AuthUser, token: string, session: Session)
    | Failure(error: string)

  const LockedMessage := "Account temporarily locked. Please try again later."
  const TooManyAttemptsMessage := "Account locked due to too many failed attempts"
  const MissingCredentialsMessage := "Email and password are required"
  const InvalidCredentialsMessage := "Invalid credentials"

  /** The shortest password the mock authentication accepts. */
  const MinPasswordLength := 6

  /** The settings the module reads are plain names, so `getConfig('settings.' + name)`
      looks each up directly in the settings object. */
  lemma SettingNamesArePlain()
    ensures '.' !in "maxLoginAttempts" && '.' !in "sessionTimeout" && '.' !in "tokenRefreshInterval"
  {
  }

  /** `Date.now() - lockoutTime < lockoutDuration * 1000`, where an absent or zero
      lockout time means no lockout and a duration that is not a number compares false. */
  predicate LockedOut(lockouts: map<string, nat>, email: string, lockoutDuration: Option<Value>, now: nat) {
    && email in lockouts && lockouts[email] != 0
    && ToNumber(lockoutDuration).Some?
    && now - lockouts[email] < ToNumber(lockoutDuration).value * 1000
  }

  /** A lockout recorded at a non-zero time with a positive duration is in force at
      that time and for `duration` seconds after it, and over from then on. */
  lemma LockoutWindow(lockouts: map<string, nat>, email: string, d: int, at: nat, now: nat)
    requires at != 0 && d > 0 && at <= now
    ensures LockedOut(lockouts[email := at], email, Some(Num(d)), now) <==> now < at + d * 1000
  {
  }

  /** `attempts >= maxAttempts` with the number coercion of `>=`: NaN compares false. */
  predicate AttemptsExhausted(attempts: nat, maxAttempts: Option<Value>) {
    ToNumber(maxAttempts).Some? && attempts >= ToNumber(maxAttempts).value
  }

  /** The attempt count for `email`: `loginAttempts.get(email) || 0`. */
  function AttemptsOf(loginAttempts: map<string, nat>, email: string): (n: nat)
    ensures email !in loginAttempts ==> n == 0
    ensures email in loginAttempts ==> n == loginAttempts[email]
  {
    if email in loginAttempts then loginAttempts[email] else 0
  }

  /** The module's mutable state: the session table, the current session, and the
      per-email attempt counts and lockout times. */
  datatype AuthState = AuthState(
    sessions: map<string, Session>,
    currentSession: Option<Session>,
    loginAttempts: map<string, nat>,
    lockouts: map<string, nat>)

  /** The current session is the one stored under its user id. */
  predicate SessionStored(s: AuthState) {
    s.currentSession.Some? ==>
      s.currentSession.value.userId in s.sessions && s.sessions[s.currentSession.value.userId] == s.currentSession.value
  }

  /** No recorded attempt count exceeds the limit `m`. */
  predicate AttemptsAtMost(s: AuthState, m: int) {
    forall e | e in s.loginAttempts :: s.loginAttempts[e] <= m
  }

  /** The largest time value a `Date` holds, in milliseconds either side of the epoch;
      beyond it the date is invalid and `toISOString` throws. */
  const MaxTimeValue := 8_640_000_000_000_000

  predicate ValidTime(t: int) {
    -MaxTimeValue <= t <= MaxTimeValue
  }

  /** `new Date(base + timeout * 1000)` as `toISOString` accepts it: `None` when the
      timeout is NaN or the time falls outside the range of dates. */
  function Expiry(base: nat, timeout: Option<int>): Option<int> {
    if timeout.Some? && ValidTime(base + timeout.value * 1000) then Some(base + timeout.value * 1000) else None
  }

  /** The session `login` creates at clock reading `later`, expiring at `expiresAt`. */
  function NewSession(token: string, later: nat, expiresAt: int): Session {
    Session("user_" + Text.NatToString(later), token, expiresAt, later)
  }

  /** `login(credentials)` on the state `s` under configuration `c`: the new state and
      the outcome. `now` is the clock before the simulated wait, `later` after it. */
  function LoginStep(s: AuthState, c: ModuleConfig, credentials: Credentials, now: nat, later: nat, token: string)
    : (AuthState, Outcome<AuthResponse>)
  {
    var email := credentials.email;
    var attempts := AttemptsOf(s.loginAttempts, email);
    if LockedOut(s.lockouts, email, Setting(c, "lockoutDuration"), now) then
      (s, Resolved(Failure(LockedMessage)))
    else if AttemptsExhausted(attempts, Setting(c, "maxLoginAttempts")) then
      (s.(lockouts := s.lockouts[email := now]), Resolved(Failure(TooManyAttemptsMessage)))
    else if email == "" || credentials.password == "" then
      (s, Resolved(Failure(MissingCredentialsMessage)))
    else if Text.Utf16Length(credentials.password) < MinPasswordLength then
      (s.(loginAttempts := s.loginAttempts[email := attempts + 1]), Resolved(Failure(InvalidCredentialsMessage)))
    else
      var cleared := s.(loginAttempts := s.loginAttempts - {email}, lockouts := s.lockouts - {email});
      var expiry := Expiry(later, ToNumber(Setting(c, "sessionTimeout")));
      if expiry.None? then (cleared, Rejected)
      else
        var session := NewSession(token, later, expiry.value);
        (cleared.(sessions := s.sessions[session.userId := session], currentSession := Some(session)),
         Resolved(Success(AuthUser(session.userId, email), token, session)))
  }

  /** A login succeeds exactly when the account is not locked, the attempts are not
      exhausted, both credentials are given, the password is at least six UTF-16 code
      units long and `sessionTimeout` is a number that gives a valid expiry date; the new session is then the current one and the
      email's attempts and lockout are forgotten. */
  lemma LoginSucceedsWhen(s: AuthState, c: ModuleConfig, credentials: Credentials, now: nat, later: nat, token: string)
    ensures var (s', r) := LoginStep(s, c, credentials, now, later, token);
            var email := credentials.email;
            (r.Resolved? && r.value.Success?)
            <==> && !LockedOut(s.lockouts, email, Setting(c, "lockoutDuration"), now)
                 && !AttemptsExhausted(AttemptsOf(s.loginAttempts, email), Setting(c, "maxLoginAttempts"))
                 && email != "" && credentials.password != ""
                 && Text.Utf16Length(credentials.password) >= MinPasswordLength
                 && ToNumber(Setting(c, "sessionTimeout")).Some?
                 && ValidTime(later + ToNumber(Setting(c, "sessionTimeout")).value * 1000)
    ensures var (s', r) := LoginStep(s, c, credentials, now, later, token);
            r.Resolved? && r.value.Success? ==>
              && r.value.token == token && r.value.user.email == credentials.email
              && s'.currentSession == Some(r.value.session)
              && s'.sessions == s.sessions[r.value.session.userId := r.value.session]
              && credentials.email !in s'.loginAttempts && credentials.email !in s'.lockouts
              && r.value.session.expiresAt == later + ToNumber(Setting(c, "sessionTimeout")).value * 1000
  {
  }

  /** A failed or rejected login leaves the sessions alone; only a wrong password
      counts an attempt, and only exhausted attempts record a lockout, at `now`. */
  lemma LoginFailureKeepsSessions(s: AuthState, c: ModuleConfig, credentials: Credentials, now: nat, later: nat, token: string)
    ensures var (s', r) := LoginStep(s, c, credentials, now, later, token);
            !(r.Resolved? && r.value.Success?) ==>
              s'.sessions == s.sessions && s'.currentSession == s.currentSession
    ensures var (s', r) := LoginStep(s, c, credentials, now, later, token);
            r == Resolved(Failure(InvalidCredentialsMessage)) ==>
              s'.loginAttempts == s.loginAttempts[credentials.email := AttemptsOf(s.loginAttempts, credentials.email) + 1]
              && s'.lockouts == s.lockouts
    ensures var (s', r) := LoginStep(s, c, credentials, now, later, token);
            r == Resolved(Failure(TooManyAttemptsMessage)) ==>
              s'.lockouts == s.lockouts[credentials.email := now] && s'.loginAttempts == s.loginAttempts
  {
  }

  /** Each check of `login`, in order, with the response it gives and what it does to
      the state: a locked-out email and missing credentials change nothing, exhausted
      attempts record a lockout at `now`, a short password counts one attempt, and a
      long enough password clears the email's counters before the session is built. */
  lemma LoginOutcomes(s: AuthState, c: ModuleConfig, credentials: Credentials, now: nat, later: nat, token: string)
    ensures LockedOut(s.lockouts, credentials.email, Setting(c, "lockoutDuration"), now) ==>
              LoginStep(s, c, credentials, now, later, token) == (s, Resolved(Failure(LockedMessage)))
    ensures && !LockedOut(s.lockouts, credentials.email, Setting(c, "lockoutDuration"), now)
            && AttemptsExhausted(AttemptsOf(s.loginAttempts, credentials.email), Setting(c, "maxLoginAttempts")) ==>
              LoginStep(s, c, credentials, now, later, token)
              == (s.(lockouts := s.lockouts[credentials.email := now]), Resolved(Failure(TooManyAttemptsMessage)))
    ensures && !LockedOut(s.lockouts, credentials.email, Setting(c, "lockoutDuration"), now)
            && !AttemptsExhausted(AttemptsOf(s.loginAttempts, credentials.email), Setting(c, "maxLoginAttempts"))
            && (credentials.email == "" || credentials.password == "") ==>
              LoginStep(s, c, credentials, now, later, token) == (s, Resolved(Failure(MissingCredentialsMessage)))
    ensures && !LockedOut(s.lockouts, credentials.email, Setting(c, "lockoutDuration"), now)
            && !AttemptsExhausted(AttemptsOf(s.loginAttempts, credentials.email), Setting(c, "maxLoginAttempts"))
            && credentials.email != "" && credentials.password != ""
            && Text.Utf16Length(credentials.password) < MinPasswordLength ==>
              LoginStep(s, c, credentials, now, later, token)
              == (s.(loginAttempts := s.loginAttempts[credentials.email := AttemptsOf(s.loginAttempts, credentials.email) + 1]),
                  Resolved(Failure(InvalidCredentialsMessage)))
    ensures && !LockedOut(s.lockouts, credentials.email, Setting(c, "lockoutDuration"), now)
            && !AttemptsExhausted(AttemptsOf(s.loginAttempts, credentials.email), Setting(c, "maxLoginAttempts"))
            && credentials.email != "" && credentials.password != ""
            && Text.Utf16Length(credentials.password) >= MinPasswordLength ==>
              && LoginStep(s, c, credentials, now, later, token).0.loginAttempts == s.loginAttempts - {credentials.email}
              && LoginStep(s, c, credentials, now, later, token).0.lockouts == s.lockouts - {credentials.email}
              && (LoginStep(s, c, credentials, now, later, token).1 == Rejected
                  <==> Expiry(later, ToNumber(Setting(c, "sessionTimeout"))).None?)
  {
  }

  /** Login keeps the current session stored, and never counts past a numeric
      `maxLoginAttempts`: a wrong password is only counted below the limit. */
  lemma LoginKeepsInvariants(s: AuthState, c: ModuleConfig, credentials: Credentials, now: nat, later: nat, token: string)
    ensures SessionStored(s) ==> SessionStored(LoginStep(s, c, credentials, now, later, token).0)
    ensures var limit := ToNumber(Setting(c, "maxLoginAttempts"));
            limit.Some? && AttemptsAtMost(s, limit.value) ==>
              AttemptsAtMost(LoginStep(s, c, credentials, now, later, token).0, limit.value)
  {
    var limit := ToNumber(Setting(c, "maxLoginAttempts"));
    var s' := LoginStep(s, c, credentials, now, later, token).0;
    if limit.Some? && AttemptsAtMost(s, limit.value) {
      forall e | e in s'.loginAttempts ensures s'.loginAttempts[e] <= limit.value {
        if e != credentials.email { assert e in s.loginAttempts; }
      }
    }
  }

  /** `refreshToken()` on the state `s`: the new state and the outcome. */
  function RefreshStep(s: AuthState, c: ModuleConfig, newToken: string, now: nat): (AuthState, Outcome<Option<string>>) {
    if s.currentSession.None? then (s, Resolved(None))
    else if !TruthyOpt(Setting(c, "tokenRefreshInterval")) then (s, Resolved(Some(s.currentSession.value.token)))
    else
      var expiry := Expiry(now, ToNumber(Setting(c, "sessionTimeout")));
      var current := s.currentSession.value;
      var renewed := if expiry.None? then current.(token := newToken)
                     else current.(token := newToken, expiresAt := expiry.value);
      (s.(currentSession := Some(renewed), sessions := s.sessions[current.userId := renewed]),
       if expiry.None? then Rejected else Resolved(Some(newToken)))
  }

  /** Refreshing never touches attempts or lockouts, keeps the current session stored
      and the session table's keys, and renews only the current session's token. */
  lemma RefreshKeepsInvariants(s: AuthState, c: ModuleConfig, newToken: string, now: nat)
    requires SessionStored(s)
    ensures var (s', r) := RefreshStep(s, c, newToken, now);
            && SessionStored(s')
            && s'.loginAttempts == s.loginAttempts && s'.lockouts == s.lockouts
            && s'.sessions.Keys == s.sessions.Keys
            && (s.currentSession.None? ==> r == Resolved(None) && s' == s)
            && (r == Resolved(Some(newToken)) && TruthyOpt(Setting(c, "tokenRefreshInterval")) ==>
                  s'.currentSession.value.token == newToken
                  && s'.currentSession.value.userId == s.currentSession.value.userId)
            && (forall k | k in s.sessions && (s.currentSession.None? || k != s.currentSession.value.userId) ::
                  s'.sessions[k] == s.sessions[k])
  {
  }

  /** What `refreshToken` yields in each case: null without a session and the current
      token when `tokenRefreshInterval` is falsy, both changing nothing; otherwise the
      session is renewed with the new token and the expiry `now + sessionTimeout * 1000`,
      and when that expiry is not a valid date the promise rejects after the token has
      been replaced. */
  lemma RefreshOutcomes(s: AuthState, c: ModuleConfig, newToken: string, now: nat)
    ensures s.currentSession.None? ==> RefreshStep(s, c, newToken, now) == (s, Resolved(None))
    ensures s.currentSession.Some? && !TruthyOpt(Setting(c, "tokenRefreshInterval")) ==>
              RefreshStep(s, c, newToken, now) == (s, Resolved(Some(s.currentSession.value.token)))
    ensures s.currentSession.Some? && TruthyOpt(Setting(c, "tokenRefreshInterval")) ==>
              var current := s.currentSession.value;
              var timeout := ToNumber(Setting(c, "sessionTimeout"));
              var (s', r) := RefreshStep(s, c, newToken, now);
              && s'.loginAttempts == s.loginAttempts && s'.lockouts == s.lockouts
              && s'.currentSession.Some? && s'.sessions == s.sessions[current.userId := s'.currentSession.value]
              && s'.currentSession.value.token == newToken
              && s'.currentSession.value.userId == current.userId
              && s'.currentSession.value.createdAt == current.createdAt
              && (timeout.Some? && ValidTime(now + timeout.value * 1000) ==>
                    r == Resolved(Some(newToken)) && s'.currentSession.value.expiresAt == now + timeout.value * 1000)
              && (!(timeout.Some? && ValidTime(now + timeout.value * 1000)) ==>
                    r == Rejected && s'.currentSession.value.expiresAt == current.expiresAt)
  {
  }

  class AuthModule {
    const base: BaseModule
    var sessions: map<string, Session>
    var currentSession: Option<Session>
    var loginAttempts: map<string, nat>
    var lockouts: map<string, nat>

    /** The state held in the fields. */
    function State(): AuthState
      reads this
    {
      AuthState(sessions, currentSession, loginAttempts, lockouts)
    }

    /** The current session is the object stored under its user id, so a change made
        through one is seen through the other. */
    ghost predicate Valid()
      reads this
    {
      SessionStored(State())
    }

    constructor (definition: Definition)
      ensures base.definition == definition && fresh(base)
      ensures sessions == map[] && currentSession == None
      ensures loginAttempts == map[] && lockouts == map[]
      ensures Valid()
    {
      base := new BaseModule(definition);
      sessions := map[];
      currentSession := None;
      loginAttempts := map[];
      lockouts := map[];
    }

    /** `isAvailable()` asks the registry whether the user module is available; that
        answer is the parameter. */
    function IsAvailable(userModuleAvailable: bool): (r: bool)
      ensures r == userModuleAvailable
    {
      userModuleAvailable
    }

    /** `initialize()` throws exactly when the user module is not available, and
        changes nothing either way. */
    method Initialize(userModuleAvailable: bool) returns (ok: bool)
      ensures ok == userModuleAvailable
    {
      base.Initialize();
      ok := IsAvailable(userModuleAvailable);
    }

    /** `isUserLockedOut(email)` at clock reading `now`. */
    function IsUserLockedOut(email: string, now: nat): (r: bool)
      reads this, base.definition
      ensures r <==> LockedOut(lockouts, email, Setting(base.definition.config, "lockoutDuration"), now)
    {
      var lockoutTime := if email in lockouts then lockouts[email] else 0;
      if lockoutTime == 0 then false
      else
        var lockoutDuration := ToNumber(SettingValue(base.definition.config, "lockoutDuration"));
        lockoutDuration.Some? && now - lockoutTime < lockoutDuration.value * 1000
    }

    /** `lockoutUser(email)` at clock reading `now`. */
    method LockoutUser(email: string, now: nat)
      modifies this
      ensures lockouts == old(lockouts)[email := now]
      ensures sessions == old(sessions) && currentSession == old(currentSession)
      ensures loginAttempts == old(loginAttempts)
    {
      lockouts := lockouts[email := now];
    }

    /** `login(credentials)`. `now` is the clock before the simulated one-second wait,
        `later` the clock after it, and `token` what `generateToken` returns. The
        promise rejects when `sessionTimeout` is not a number, or puts the expiry
        outside the range of dates, because `toISOString` then throws. */
    method Login(credentials: Credentials, now: nat, later: nat, token: string)
      returns (r: Outcome<AuthResponse>)
      requires Valid()
      modifies this
      ensures Valid()
      ensures (State(), r) == LoginStep(old(State()), base.definition.config, credentials, now, later, token)
    {
      LoginKeepsInvariants(State(), base.definition.config, credentials, now, later, token);
      SettingNamesArePlain();
      if IsUserLockedOut(credentials.email, now) {
        return Resolved(Failure(LockedMessage));
      }

      var attempts := AttemptsOf(loginAttempts, credentials.email);
      var maxAttempts := base.GetSetting("maxLoginAttempts");
      if AttemptsExhausted(attempts, maxAttempts) {
        LockoutUser(credentials.email, now);
        return Resolved(Failure(TooManyAttemptsMessage));
      }

      if credentials.email == "" || credentials.password == "" {
        return Resolved(Failure(MissingCredentialsMessage));
      }

      if Text.Utf16Length(credentials.password) < MinPasswordLength {
        loginAttempts := loginAttempts[credentials.email := attempts + 1];
        return Resolved(Failure(InvalidCredentialsMessage));
      }

      loginAttempts := loginAttempts - {credentials.email};
      lockouts := lockouts - {credentials.email};

      var sessionTimeout := base.GetSetting("sessionTimeout");
      var expiry := Expiry(later, ToNumber(sessionTimeout));
      if expiry.None? {
        return Rejected;
      }
      var session := Session("user_" + Text.NatToString(later), token, expiry.value, later);
      sessions := sessions[session.userId := session];
      currentSession := Some(session);
      return Resolved(Success(AuthUser(session.userId, credentials.email), session.token, session));
    }

    /** `logout()`: always true; the current session, if any, is removed and cleared. */
    method Logout() returns (r: bool)
      requires Valid()
      modifies this
      ensures Valid()
      ensures r
      ensures currentSession == None
      ensures sessions == if old(currentSession).Some? then old(sessions) - {old(currentSession).value.userId}
                          else old(sessions)
      ensures loginAttempts == old(loginAttempts) && lockouts == old(lockouts)
    {
      if currentSession.Some? {
        sessions := sessions - {currentSession.value.userId};
        currentSession := None;
      }
      return true;
    }

    function GetCurrentSession(): Option<Session>
      reads this
    {
      currentSession
    }

    /** `refreshToken()` at clock reading `now`, with `newToken` the generated token.
        Without a session it yields null; with a falsy `tokenRefreshInterval` it yields
        the current token. Otherwise the token is replaced in the session object (and
        so in the session table); when `sessionTimeout` is not a number, or the expiry
        falls outside the range of dates, it cannot be written and the promise rejects with the token already replaced. */
    method RefreshToken(newToken: string, now: nat) returns (r: Outcome<Option<string>>)
      requires Valid()
      modifies this
      ensures Valid()
      ensures (State(), r) == RefreshStep(old(State()), base.definition.config, newToken, now)
    {
      SettingNamesArePlain();
      if currentSession.None? {
        return Resolved(None);
      }
      var tokenRefreshInterval := base.GetSetting("tokenRefreshInterval");
      if !TruthyOpt(tokenRefreshInterval) {
        return Resolved(Some(currentSession.value.token));
      }
      var session := currentSession.value.(token := newToken);
      currentSession := Some(session);
      sessions := sessions[session.userId := session];
      var sessionTimeout := base.GetSetting("sessionTimeout");
      var expiry := Expiry(now, ToNumber(sessionTimeout));
      if expiry.None? {
        return Rejected;
      }
      session := session.(expiresAt := expiry.value);
      currentSession := Some(session);
      sessions := sessions[session.userId := session];
      assert sessions == old(sessions)[session.userId := session];
      return Resolved(Some(newToken));
    }

    function IsBiometricAuthAvailable(): (r: Option<Value>)
      reads base.definition
      ensures r == FlagValue(Feature(base.definition.config, "biometricAuth"))
    {
      FeatureValue(base.definition.config, "biometricAuth")
    }

    function IsTwoFactorAuthEnabled(): (r: Option<Value>)
      reads base.definition
      ensures r == FlagValue(Feature(base.definition.config, "twoFactorAuth"))
    {
      FeatureValue(base.definition.config, "twoFactorAuth")
    }

    function IsSocialLoginEnabled(): (r: Option<Value>)
      reads base.definition
      ensures r == FlagValue(Feature(base.definition.config, "socialLogin"))
    {
      FeatureValue(base.definition.config, "socialLogin")
    }
  }
}
