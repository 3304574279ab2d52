/** The user module: an in-memory user table with a current-user pointer, and the
    password policy check. Clock readings and generated ids are parameters. */
module Users {
  import opened Wrappers
  import opened Json
  import opened ModuleTypes
  import opened Base
  import Text

  /** A stored user; the two timestamps are clock readings in milliseconds. */
  datatype User = User(
    id: string,
    first_name: string,
    last_name: string,
    username: Option<string>,
    email: string,
    created_at: nat,
    updated_at: nat)

  datatype CreateUserData = CreateUserData(
    first_name: string,
    last_name: string,
    username: Option<string>,
    email: string,
    password: string)

  /** The fields `updateUser` may overwrite; an absent field is left as it was. */
  datatype UpdateUserData = UpdateUserData(
    first_name: Option<string>,
    last_name: Option<string>,
    username: Option<string>)

  datatype UserStats = UserStats(
    totalAccounts: int,
    totalTransactions: int,
    monthlyBudget: int,
    netWorth: int)

  const DemoUserId := "user_1"

  /** The demo user `initialize` creates. */
  function DemoUser(now: nat): User {
    User(DemoUserId, "Demo", "User", None, "demo@accountant.app", now, now)
  }

  /** `initialize` inserts the demo user when the `autoCreateDemoUser` setting is truthy. */
  predicate DemoRequested(c: ModuleConfig) {
    TruthyOpt(Setting(c, "autoCreateDemoUser"))
  }

  /** `{...user, ...updates, updated_at: now}`. */
  function Overwrite(u: User, updates: UpdateUserData, now: nat): (r: User)
    ensures r.id == u.id && r.email == u.email && r.created_at == u.created_at
    ensures r.first_name == updates.first_name.GetOr(u.first_name)
    ensures r.last_name == updates.last_name.GetOr(u.last_name)
    ensures r.username == (if updates.username.Some? then updates.username else u.username)
    ensures r.updated_at == now
  {
    u.(first_name := updates.first_name.GetOr(u.first_name),
       last_name := updates.last_name.GetOr(u.last_name),
       username := if updates.username.Some? then updates.username else u.username,
       updated_at := now)
  }

  // ---- password policy

  /** The checks of `validatePassword`, in the order it runs them. */
  datatype PasswordRule = MinLength(n: int, shown: string) | Uppercase | Lowercase | Digit | SpecialChar

  predicate IsUpper(c: char) { 'A' <= c <= 'Z' }
  predicate IsLower(c: char) { 'a' <= c <= 'z' }
  predicate IsSpecial(c: char) { c in "!@#$%^&*(),.?\":{}|<>" }

  predicate HasChar(s: string, p: char -> bool) {
    exists i :: 0 <= i < |s| && p(s[i])
  }

  /** A password breaks a rule. Its length is `password.length`, in UTF-16 code units. */
  predicate Violates(password: string, rule: PasswordRule) {
    match rule
    case MinLength(n, _) => Text.Utf16Length(password) < n
    case Uppercase => !HasChar(password, IsUpper)
    case Lowercase => !HasChar(password, IsLower)
    case Digit => !HasChar(password, Text.IsDigit)
    case SpecialChar => !HasChar(password, IsSpecial)
  }

  /** How a template literal `${v}` writes a value. */
  function Show(v: Value): string {
    match v
    case Null => "null"
    case Bool(b) => if b then "true" else "false"
    case Num(n) => Text.IntToString(n)
    case Str(s) => s
    case Obj(_) => "[object Object]"
  }

  /** The rules a policy object switches on, in checking order. `minLength` takes part
      only when it is a number (a comparison with NaN is false). */
  function EnabledRules(policy: Value): seq<PasswordRule> {
    var minLength := Member(policy, "minLength");
    RuleIf(ToNumber(minLength).Some?, MinLength(ToNumber(minLength).GetOr(0), Show(minLength.GetOr(Null))))
    + (RuleIf(TruthyOpt(Member(policy, "requireUppercase")), Uppercase)
    + (RuleIf(TruthyOpt(Member(policy, "requireLowercase")), Lowercase)
    + (RuleIf(TruthyOpt(Member(policy, "requireNumbers")), Digit)
    + RuleIf(TruthyOpt(Member(policy, "requireSpecialChars")), SpecialChar))))
  }

  function RuleIf(on: bool, rule: PasswordRule): (rules: seq<PasswordRule>)
    ensures |rules| <= 1
  {
    if on then [rule] else []
  }

  /** The first rule of `rules` the password breaks. */
  function FirstViolation(password: string, rules: seq<PasswordRule>): Option<PasswordRule>
    decreases |rules|
  {
    if |rules| == 0 then None
    else if Violates(password, rules[0]) then Some(rules[0])
    else FirstViolation(password, rules[1..])
  }

  /** `FirstViolation` finds nothing exactly when every rule holds, and otherwise a
      broken rule all of whose predecessors hold. */
  lemma {:induction false} FirstViolationMeans(password: string, rules: seq<PasswordRule>)
    ensures FirstViolation(password, rules).None? <==> forall i :: 0 <= i < |rules| ==> !Violates(password, rules[i])
    ensures FirstViolation(password, rules).Some? ==>
              exists i :: 0 <= i < |rules| && rules[i] == FirstViolation(password, rules).value
                          && Violates(password, rules[i])
                          && forall j :: 0 <= j < i ==> !Violates(password, rules[j])
    decreases |rules|
  {
    if |rules| > 0 && !Violates(password, rules[0]) {
      var rest := rules[1..];
      FirstViolationMeans(password, rest);
      var r := FirstViolation(password, rest);
      if r.Some? {
        var i :| 0 <= i < |rest| && rest[i] == r.value && Violates(password, rest[i])
                 && forall j :: 0 <= j < i ==> !Violates(password, rest[j]);
        assert rules[i + 1] == r.value;
        forall j | 0 <= j < i + 1 ensures !Violates(password, rules[j]) {
          if j > 0 { assert rules[j] == rest[j - 1]; }
        }
      } else {
        forall i | 0 <= i < |rules| ensures !Violates(password, rules[i]) {
          if i > 0 { assert rules[i] == rest[i - 1]; }
        }
      }
    } else if |rules| > 0 {
      assert rules[0] == FirstViolation(password, rules).value;
    }
  }

  /** The message `validatePassword` returns for a broken rule. */
  function RuleMessage(rule: PasswordRule): string {
    match rule
    case MinLength(_, shown) => "Password must be at least " + shown + " characters"
    case Uppercase => "Password must contain uppercase letters"
    case Lowercase => "Password must contain lowercase letters"
    case Digit => "Password must contain numbers"
    case SpecialChar => "Password must contain special characters"
  }

  /** Checking an optional first rule, then the rest. */
  lemma FirstViolationStep(password: string, head: seq<PasswordRule>, rest: seq<PasswordRule>)
    requires |head| <= 1
    ensures FirstViolation(password, head + rest)
            == if |head| == 1 && Violates(password, head[0]) then Some(head[0]) else FirstViolation(password, rest)
  {
    if |head| == 1 {
      assert (head + rest)[0] == head[0];
      assert (head + rest)[1..] == rest;
    } else {
      assert head + rest == rest;
    }
  }

  /** `validatePassword(password)` given the `settings.passwordPolicy` value: the early
      returns of the source. Reading a field of an undefined or null policy throws. */
  function CheckPassword(password: string, policy: Option<Value>): (r: Outcome<Option<string>>)
    ensures r.Rejected? <==> policy.None? || policy.value.Null?
  {
    if policy.None? || policy.value.Null? then Rejected
    else
      var p := policy.value;
      var minLength := ToNumber(Member(p, "minLength"));
      if minLength.Some? && Text.Utf16Length(password) < minLength.value then
        Resolved(Some(RuleMessage(MinLength(minLength.value, Show(Member(p, "minLength").GetOr(Null))))))
      else if TruthyOpt(Member(p, "requireUppercase")) && !HasChar(password, IsUpper) then
        Resolved(Some(RuleMessage(Uppercase)))
      else if TruthyOpt(Member(p, "requireLowercase")) && !HasChar(password, IsLower) then
        Resolved(Some(RuleMessage(Lowercase)))
      else if TruthyOpt(Member(p, "requireNumbers")) && !HasChar(password, Text.IsDigit) then
        Resolved(Some(RuleMessage(Digit)))
      else if TruthyOpt(Member(p, "requireSpecialChars")) && !HasChar(password, IsSpecial) then
        Resolved(Some(RuleMessage(SpecialChar)))
      else
        Resolved(None)
  }

  /** The message for a policy is the message of the first rule the policy enables and
      the password breaks, or none when it meets them all. */
  lemma CheckPasswordReportsFirstViolation(password: string, policy: Value)
    requires !policy.Null?
    ensures CheckPassword(password, Some(policy))
            == Resolved(match FirstViolation(password, EnabledRules(policy))
                        case None => None
                        case Some(rule) => Some(RuleMessage(rule)))
  {
    var minLength := Member(policy, "minLength");
    var r1 := RuleIf(ToNumber(minLength).Some?, MinLength(ToNumber(minLength).GetOr(0), Show(minLength.GetOr(Null))));
    var r2 := RuleIf(TruthyOpt(Member(policy, "requireUppercase")), Uppercase);
    var r3 := RuleIf(TruthyOpt(Member(policy, "requireLowercase")), Lowercase);
    var r4 := RuleIf(TruthyOpt(Member(policy, "requireNumbers")), Digit);
    var r5 := RuleIf(TruthyOpt(Member(policy, "requireSpecialChars")), SpecialChar);
    assert EnabledRules(policy) == r1 + (r2 + (r3 + (r4 + r5)));
    FirstViolationStep(password, r1, r2 + (r3 + (r4 + r5)));
    FirstViolationStep(password, r2, r3 + (r4 + r5));
    FirstViolationStep(password, r3, r4 + r5);
    FirstViolationStep(password, r4, r5);
    FirstViolationStep(password, r5, []);
    assert r5 + [] == r5;
  }

  /** A password is accepted exactly when it meets every rule the policy enables. */
  lemma CheckPasswordAccepts(password: string, policy: Value)
    requires !policy.Null?
    ensures CheckPassword(password, Some(policy)) == Resolved(None)
            <==> forall i :: 0 <= i < |EnabledRules(policy)| ==> !Violates(password, EnabledRules(policy)[i])
  {
    CheckPasswordReportsFirstViolation(password, policy);
    FirstViolationMeans(password, EnabledRules(policy));
  }

  class UserModule {
    const base: BaseModule
    var currentUser: Option<User>
    var users: map<string, User>

    /** Users are stored under their own id, and the current user is one of them. */
    ghost predicate Valid()
      reads this
    {
      && (forall k | k in users :: users[k].id == k)
      && (currentUser.Some? ==> currentUser.value.id in users)
    }

    constructor (definition: Definition)
      ensures base.definition == definition && fresh(base)
      ensures users == map[] && currentUser == None
      ensures Valid()
    {
      base := new BaseModule(definition);
      users := map[];
      currentUser := None;
    }

    /** `initialize()`: destructuring the settings throws when they are missing;
        otherwise the demo user is inserted and made current when requested. */
    method Initialize(now: nat) returns (ok: bool)
      modifies this
      ensures old(Valid()) ==> Valid()
      ensures ok == base.definition.config.settings.Some?
      ensures ok && DemoRequested(base.definition.config) ==>
                users == old(users)[DemoUserId := DemoUser(now)] && currentUser == Some(DemoUser(now))
      ensures !(ok && DemoRequested(base.definition.config)) ==>
                users == old(users) && currentUser == old(currentUser)
    {
      base.Initialize();
      var settings := base.GetSettings();
      if settings.None? || settings.value.Null? {
        ok := false;
        return;
      }
      ok := true;
      var autoCreateDemoUser := Member(settings.value, "autoCreateDemoUser");
      if TruthyOpt(autoCreateDemoUser) {
        InitializeDefaultUser(now);
      }
    }

    method InitializeDefaultUser(now: nat)
      modifies this
      ensures old(Valid()) ==> Valid()
      ensures users == old(users)[DemoUserId := DemoUser(now)] && currentUser == Some(DemoUser(now))
    {
      var defaultUser := DemoUser(now);
      users := users[defaultUser.id := defaultUser];
      currentUser := Some(defaultUser);
    }

    /** `createUser(data)` with the generated `id` and the clock reading `now`. It
        rejects, changing nothing, when the settings are missing. */
    method CreateUser(data: CreateUserData, id: string, now: nat) returns (r: Outcome<User>)
      requires Valid()
      modifies this
      ensures Valid()
      ensures r.Rejected? <==> base.definition.config.settings.None?
      ensures r.Rejected? ==> users == old(users) && currentUser == old(currentUser)
      ensures r.Resolved? ==>
                && r.value == User(id, data.first_name, data.last_name, None, data.email, now, now)
                && users == old(users)[id := r.value]
                && currentUser == (if old(currentUser).None? then Some(r.value) else old(currentUser))
    {
      var settings := base.GetSettings();
      if settings.None? || settings.value.Null? {
        return Rejected;
      }
      var user := User(id, data.first_name, data.last_name, None, data.email, now, now);
      users := users[id := user];
      currentUser := if currentUser.None? then Some(user) else currentUser;
      return Resolved(user);
    }

    /** `getUser(id)`: the stored user, or null. */
    function GetUser(id: string): (r: Option<User>)
      reads this
      ensures r.Some? <==> id in users
      ensures r.Some? ==> r.value == users[id]
    {
      if id in users then Some(users[id]) else None
    }

    function GetCurrentUser(): Option<User>
      reads this
    {
      currentUser
    }

    /** `updateUser(id, updates)` at clock reading `now`. */
    method UpdateUser(id: string, updates: UpdateUserData, now: nat) returns (r: Option<User>)
      requires Valid()
      modifies this
      ensures Valid()
      ensures r.None? <==> id !in old(users)
      ensures r.None? ==> users == old(users) && currentUser == old(currentUser)
      ensures r.Some? ==>
                && r.value == Overwrite(old(users)[id], updates, now)
                && users == old(users)[id := r.value]
                && currentUser == (if old(currentUser).Some? && old(currentUser).value.id == id
                                   then Some(r.value) else old(currentUser))
    {
      if id !in users {
        return None;
      }
      var updatedUser := Overwrite(users[id], updates, now);
      users := users[id := updatedUser];
      if currentUser.Some? && currentUser.value.id == id {
        currentUser := Some(updatedUser);
      }
      return Some(updatedUser);
    }

    /** `deleteUser(id)`: true iff the id was present; the current user is cleared when
        it has that id. */
    method DeleteUser(id: string) returns (deleted: bool)
      requires Valid()
      modifies this
      ensures Valid()
      ensures deleted <==> id in old(users)
      ensures users == old(users) - {id}
      ensures currentUser == (if old(currentUser).Some? && old(currentUser).value.id == id
                              then None else old(currentUser))
    {
      if currentUser.Some? && currentUser.value.id == id {
        currentUser := None;
      }
      deleted := id in users;
      users := users - {id};
    }

    /** `getUserStats(id)`: null for an unknown id, fixed figures otherwise. */
    function GetUserStats(id: string): (r: Option<UserStats>)
      reads this
      ensures r.None? <==> id !in users
      ensures r.Some? ==> r.value == UserStats(3, 47, 500000, 1500000)
    {
      if GetUser(id).None? then None else Some(UserStats(3, 47, 500000, 1500000))
    }

    /** `validatePassword(password)` against this module's `settings.passwordPolicy`. */
    function ValidatePassword(password: string): (r: Outcome<Option<string>>)
      reads base.definition
      ensures r == CheckPassword(password, Setting(base.definition.config, "passwordPolicy"))
    {
      CheckPassword(password, SettingValue(base.definition.config, "passwordPolicy"))
    }

    /** `enabled && users.size >= 0`, which is just `enabled`. */
    function IsAvailable(): (r: bool)
      reads this, base.definition
      ensures r == base.definition.config.enabled
    {
      base.definition.config.enabled && |users| >= 0
    }

    function IsBiometricAuthEnabled(): (r: Option<Value>)
      reads base.definition
      ensures r == FlagValue(Feature(base.definition.config, "biometricAuth"))
    {
      FeatureValue(base.definition.config, "biometricAuth")
    }

    function IsSocialLoginEnabled(): (r: Option<Value>)
      reads base.definition
      ensures r == FlagValue(Feature(base.definition.config, "socialLogin"))
    {
      FeatureValue(base.definition.config, "socialLogin")
    }

    function IsTwoFactorAuthEnabled(): (r: Option<Value>)
      reads base.definition
      ensures r == FlagValue(Feature(base.definition.config, "twoFactorAuth"))
    {
      FeatureValue(base.definition.config, "twoFactorAuth")
    }
  }
}
