/** `AutoModuleRegistry`: discovery, loading, prioritised initialisation, queries and
    cleanup over the table of module instances (in insertion order) and the enable
    map. The table of definitions always holds each instance's own definition object
    under the same key, so it is read off the instances. */
module Registry {
  import opened Wrappers
  import opened Json
  import opened ModuleTypes
  import opened Base
  import opened Merge
  import opened Loader
  import opened Priority
  import Users
  import Auth

  /** A registered module instance: one of this repository's two modules, or a
      third-party module built on `BaseModule` whose behaviour is given. */
  datatype Instance =
    | UserInstance(user: Users.UserModule)
    | AuthInstance(auth: Auth.AuthModule)
    | ForeignInstance(base: BaseModule, behaviour: Behaviour)
  {
    /** `module.definition`: the definition object the instance was built with. */
    function Definition(): Definition {
      match this
      case UserInstance(u) => u.base.definition
      case AuthInstance(a) => a.base.definition
      case ForeignInstance(b, _) => b.definition
    }

    function Constructor(): ModuleConstructor {
      match this
      case UserInstance(_) => UserModuleConstructor
      case AuthInstance(_) => AuthModuleConstructor
      case ForeignInstance(_, behaviour) => ForeignConstructor(behaviour)
    }
  }

  /** `getModuleState(name)`: an instance's own state, or 'not-loaded'. */
  datatype ReportedState = State(state: ModuleState) | NotLoaded

  /** `module.isAvailable()` for a module of the given kind and configuration.
      `userAvailable` is what the auth module's registry lookup answers. */
  predicate Available(kind: ModuleConstructor, c: ModuleConfig, userAvailable: bool) {
    match kind
    case UserModuleConstructor => c.enabled
    case AuthModuleConstructor => userAvailable
    case ForeignConstructor(b) => c.enabled && b.dependencyAvailable
  }

  /** `module.initialize()` throws. */
  predicate InitializeThrows(kind: ModuleConstructor, c: ModuleConfig, userAvailable: bool) {
    match kind
    case UserModuleConstructor => c.settings.None?
    case AuthModuleConstructor => !userAvailable
    case ForeignConstructor(b) => b.initializeThrows
  }

  /** `initializeModules` calls `initialize` on the module. */
  predicate Attempted(kind: ModuleConstructor, c: ModuleConfig, userAvailable: bool) {
    c.enabled && Available(kind, c, userAvailable)
  }

  predicate InitializeSucceeds(kind: ModuleConstructor, c: ModuleConfig, userAvailable: bool) {
    Attempted(kind, c, userAvailable) && !InitializeThrows(kind, c, userAvailable)
  }

  /** The configuration a module ends `initializeModules` with: demoted to disabled
      exactly when it was attempted and threw. */
  function AfterInitialize(kind: ModuleConstructor, c: ModuleConfig, userAvailable: bool): (r: ModuleConfig)
    ensures r.settings == c.settings && r.features == c.features
    ensures r.enabled <==> InitializeSucceeds(kind, c, userAvailable) || (c.enabled && !Attempted(kind, c, userAvailable))
  {
    if Attempted(kind, c, userAvailable) && InitializeThrows(kind, c, userAvailable) then c.(enabled := false) else c
  }

  /** Initialisation never enables a module, and the auth module, which is attempted
      only when its dependency is there, is never demoted. */
  lemma AfterInitializeNeverEnables(kind: ModuleConstructor, c: ModuleConfig, userAvailable: bool)
    ensures AfterInitialize(kind, c, userAvailable).enabled ==> c.enabled
    ensures AfterInitialize(AuthModuleConstructor, c, userAvailable) == c
  {
  }

  /** A user module whose `initialize` succeeds and whose settings ask for the demo user. */
  predicate DemoCreated(c: ModuleConfig, userAvailable: bool) {
    InitializeSucceeds(UserModuleConstructor, c, userAvailable) && Users.DemoRequested(c)
  }

  /** A user module's table of users and its current user. */
  datatype UserState = UserState(users: map<string, Users.User>, currentUser: Option<Users.User>)

  /** `initializeDefaultUser()`: the demo user is stored and made current. */
  function WithDemoUser(s: UserState, now: nat): (r: UserState)
    ensures r.users.Keys == s.users.Keys + {Users.DemoUserId}
    ensures r.users[Users.DemoUserId] == Users.DemoUser(now) && r.currentUser == Some(Users.DemoUser(now))
    ensures forall id | id in s.users && id != Users.DemoUserId :: r.users[id] == s.users[id]
  {
    UserState(s.users[Users.DemoUserId := Users.DemoUser(now)], Some(Users.DemoUser(now)))
  }

  /** The configurations once the modules of `visited` have been through
      `initializeModules`; the others are as they were. */
  function ConfigsAfter(kinds: map<string, ModuleConstructor>, configs: map<string, ModuleConfig>,
                        visited: seq<string>, userAvailable: bool): (r: map<string, ModuleConfig>)
    ensures r.Keys == configs.Keys
  {
    map k | k in configs :: if k in visited && k in kinds then AfterInitialize(kinds[k], configs[k], userAvailable)
                            else configs[k]
  }

  /** The user modules once the modules of `visited` have been through
      `initializeModules`: those whose initialisation asked for it hold the demo user. */
  function UserStatesAfter(states: map<string, UserState>, configs: map<string, ModuleConfig>,
                           visited: seq<string>, userAvailable: bool, now: nat): (r: map<string, UserState>)
    ensures r.Keys == states.Keys
  {
    map k | k in states :: if k in visited && k in configs && DemoCreated(configs[k], userAvailable)
                           then WithDemoUser(states[k], now) else states[k]
  }

  lemma ConfigsAfterNone(kinds: map<string, ModuleConstructor>, configs: map<string, ModuleConfig>, userAvailable: bool)
    ensures ConfigsAfter(kinds, configs, [], userAvailable) == configs
  {
  }

  lemma UserStatesAfterNone(states: map<string, UserState>, configs: map<string, ModuleConfig>,
                            userAvailable: bool, now: nat)
    ensures UserStatesAfter(states, configs, [], userAvailable, now) == states
  {
  }

  lemma ConfigsAfterSnoc(kinds: map<string, ModuleConstructor>, configs: map<string, ModuleConfig>,
                         visited: seq<string>, name: string, userAvailable: bool)
    requires name in kinds && name in configs && name !in visited
    ensures ConfigsAfter(kinds, configs, visited + [name], userAvailable)
            == ConfigsAfter(kinds, configs, visited, userAvailable)[name := AfterInitialize(kinds[name], configs[name], userAvailable)]
  {
  }

  lemma UserStatesAfterSnoc(states: map<string, UserState>, configs: map<string, ModuleConfig>,
                            visited: seq<string>, name: string, userAvailable: bool, now: nat)
    requires name in configs && name !in visited
    ensures UserStatesAfter(states, configs, visited + [name], userAvailable, now)
            == UserStateStep(UserStatesAfter(states, configs, visited, userAvailable, now), name, configs[name], userAvailable, now)
  {
    var after := UserStatesAfter(states, configs, visited + [name], userAvailable, now);
    var before := UserStatesAfter(states, configs, visited, userAvailable, now);
    var step := UserStateStep(before, name, configs[name], userAvailable, now);
    assert after.Keys == step.Keys;
    forall k | k in after ensures after[k] == step[k] {
      assert k in visited + [name] <==> k in visited || k == name;
    }
  }

  /** One module's step on the user modules: the one under `name` gains the demo user
      when its initialisation asked for it. */
  function UserStateStep(states: map<string, UserState>, name: string, c: ModuleConfig,
                         userAvailable: bool, now: nat): map<string, UserState> {
    if name in states && DemoCreated(c, userAvailable) then states[name := WithDemoUser(states[name], now)] else states
  }

  /** Does a module of this kind have a `cleanup`, and does it throw? Both modules of
      this repository inherit the base `cleanup`, which succeeds. */
  predicate HasCleanup(kind: ModuleConstructor) {
    !(kind.ForeignConstructor? && kind.behaviour.cleanup.NoCleanup?)
  }

  predicate CleanupThrowsFor(kind: ModuleConstructor) {
    kind.ForeignConstructor? && kind.behaviour.cleanup.CleanupThrows?
  }

  /** A module whose `cleanup` fails (`failing`) or succeeds (`!failing`). */
  predicate CleansUp(kinds: map<string, ModuleConstructor>, k: string, failing: bool) {
    k in kinds && HasCleanup(kinds[k]) && CleanupThrowsFor(kinds[k]) == failing
  }

  /** The ids of `ids` whose module's `cleanup` fails or succeeds, in order. */
  function CleanedIds(ids: seq<string>, kinds: map<string, ModuleConstructor>, failing: bool): seq<string>
    decreases |ids|
  {
    if |ids| == 0 then []
    else
      var last := ids[|ids| - 1];
      CleanedIds(ids[..|ids| - 1], kinds, failing) + (if CleansUp(kinds, last, failing) then [last] else [])
  }

  /** `cleanupAll` reports exactly the modules whose cleanup ran to the given end. */
  lemma {:induction false} CleanedIdsMembers(ids: seq<string>, kinds: map<string, ModuleConstructor>, failing: bool)
    ensures forall k :: k in CleanedIds(ids, kinds, failing) <==> k in ids && CleansUp(kinds, k, failing)
    decreases |ids|
  {
    if |ids| > 0 {
      CleanedIdsMembers(ids[..|ids| - 1], kinds, failing);
      assert ids == ids[..|ids| - 1] + [ids[|ids| - 1]];
    }
  }

  /** One more id visited: it is appended exactly when its cleanup is of the kind asked for. */
  lemma CleanedIdsSnoc(ids: seq<string>, i: nat, kinds: map<string, ModuleConstructor>, failing: bool)
    requires i < |ids|
    ensures CleanedIds(ids[..i + 1], kinds, failing)
            == CleanedIds(ids[..i], kinds, failing) + (if CleansUp(kinds, ids[i], failing) then [ids[i]] else [])
  {
    assert ids[..i + 1][..i] == ids[..i];
  }

  /** A module `initializeModules` calls `initialize` on and that does not throw. */
  predicate Succeeds(kinds: map<string, ModuleConstructor>, configs: map<string, ModuleConfig>,
                     k: string, userAvailable: bool) {
    k in kinds && k in configs && InitializeSucceeds(kinds[k], configs[k], userAvailable)
  }

  /** The ids of `ids` (visited in that order) whose module `initialize` succeeded on. */
  function InitializedIds(ids: seq<string>, kinds: map<string, ModuleConstructor>,
                          configs: map<string, ModuleConfig>, userAvailable: bool): seq<string>
    decreases |ids|
  {
    if |ids| == 0 then []
    else
      var last := ids[|ids| - 1];
      InitializedIds(ids[..|ids| - 1], kinds, configs, userAvailable)
      + (if Succeeds(kinds, configs, last, userAvailable) then [last] else [])
  }

  lemma {:induction false} InitializedIdsMembers(ids: seq<string>, kinds: map<string, ModuleConstructor>,
                                                 configs: map<string, ModuleConfig>, userAvailable: bool)
    ensures forall k :: k in InitializedIds(ids, kinds, configs, userAvailable)
                        <==> k in ids && Succeeds(kinds, configs, k, userAvailable)
    decreases |ids|
  {
    if |ids| > 0 {
      InitializedIdsMembers(ids[..|ids| - 1], kinds, configs, userAvailable);
      assert ids == ids[..|ids| - 1] + [ids[|ids| - 1]];
    }
  }

  /** Every module `initialize` succeeded on ends the visit enabled. */
  lemma InitializedEndEnabled(ids: seq<string>, kinds: map<string, ModuleConstructor>,
                              configs: map<string, ModuleConfig>, userAvailable: bool)
    ensures forall k | k in InitializedIds(ids, kinds, configs, userAvailable) ::
              k in ConfigsAfter(kinds, configs, ids, userAvailable) && ConfigsAfter(kinds, configs, ids, userAvailable)[k].enabled
  {
    InitializedIdsMembers(ids, kinds, configs, userAvailable);
  }

  /** One more id visited: it is appended exactly when its `initialize` succeeded. */
  lemma InitializedIdsSnoc(ids: seq<string>, x: string, kinds: map<string, ModuleConstructor>,
                           configs: map<string, ModuleConfig>, userAvailable: bool)
    ensures InitializedIds(ids + [x], kinds, configs, userAvailable)
            == InitializedIds(ids, kinds, configs, userAvailable)
               + (if Succeeds(kinds, configs, x, userAvailable) then [x] else [])
  {
    assert (ids + [x])[..|ids|] == ids;
  }

  /** The ids of a list of entries, in order. */
  function Ids(s: seq<Entry>): (r: seq<string>)
    ensures |r| == |s| && forall i :: 0 <= i < |s| ==> r[i] == s[i].id
  {
    seq(|s|, i requires 0 <= i < |s| => s[i].id)
  }

  /** Visiting the next id of a list without repetitions: it has not been visited. */
  lemma VisitNext(ids: seq<string>, i: nat)
    requires Distinct(ids) && i < |ids|
    ensures ids[i] !in ids[..i] && ids[..i + 1] == ids[..i] + [ids[i]]
  {
    forall j | 0 <= j < i ensures ids[..i][j] != ids[i] { assert ids[j] != ids[i]; }
  }

  /** No id is registered twice, so each is visited once: the entries of distinct
      ids stay distinct under any permutation. */
  lemma PermutationKeepsIdsDistinct(a: seq<Entry>, b: seq<Entry>)
    requires multiset(a) == multiset(b)
    requires Distinct(Ids(a))
    ensures Distinct(Ids(b))
  {
    forall i, j | 0 <= i < j < |b| ensures Ids(b)[i] != Ids(b)[j] {
      if b[i].id == b[j].id {
        assert b[i] in multiset(a) && b[j] in multiset(a);
        var x :| 0 <= x < |a| && a[x] == b[i];
        var y :| 0 <= y < |a| && a[y] == b[j];
        assert Ids(a)[x] == Ids(a)[y];
        assert x == y;
        TwiceInMultiset(b, i, j);
        DistinctOnce(a, x);
        assert false;
      }
    }
  }

  lemma TwiceInMultiset(b: seq<Entry>, i: nat, j: nat)
    requires i < j < |b| && b[i] == b[j]
    ensures multiset(b)[b[i]] >= 2
  {
    var s := b[..j];
    assert s[i] == b[i];
    assert b == s + [b[j]] + b[j + 1..];
    assert multiset(b) == multiset(s) + multiset{b[j]} + multiset(b[j + 1..]);
  }

  lemma DistinctOnce(a: seq<Entry>, x: nat)
    requires Distinct(Ids(a)) && x < |a|
    ensures multiset(a)[a[x]] == 1
  {
    var l := a[..x];
    var r := a[x + 1..];
    assert a == l + [a[x]] + r;
    assert a[x] !in l by {
      forall i | 0 <= i < |l| ensures l[i] != a[x] { assert Ids(a)[i] != Ids(a)[x]; }
    }
    assert a[x] !in r by {
      forall i | 0 <= i < |r| ensures r[i] != a[x] {
        assert r[i] == a[x + 1 + i];
        assert Ids(a)[x] != Ids(a)[x + 1 + i];
      }
    }
    assert multiset(a) == multiset(l) + multiset{a[x]} + multiset(r);
  }

  /** Whether `loadModule(id)` registers something: the directory exists and the index
      lists at least one constructor. */
  predicate Loads(fs: FileSystem, bundle: Bundle, id: string) {
    ModuleExists(fs, id) && IndexArtifact(fs, bundle, id).Some? && |IndexArtifact(fs, bundle, id).value| > 0
  }

  /** Whether the written `loadModule(id)` registers something: as `Loads`, but with the
      index found only when both of its files are there. */
  predicate LoadsAsWritten(fs: FileSystem, bundle: Bundle, id: string) {
    ModuleExists(fs, id) && IndexArtifactAsWritten(fs, bundle, id).Some? && |IndexArtifactAsWritten(fs, bundle, id).value| > 0
  }

  /** Every module the written registry loads, the corrected one loads with the same
      constructors; a module shipping only `index.ts` is loaded by the corrected
      registry alone. */
  lemma LoadsAsWrittenLoadsLess(fs: FileSystem, bundle: Bundle, id: string)
    ensures LoadsAsWritten(fs, bundle, id) ==>
              Loads(fs, bundle, id) && IndexArtifact(fs, bundle, id) == IndexArtifactAsWritten(fs, bundle, id)
    ensures "user" in bundle.indexes && |bundle.indexes["user"]| > 0 ==>
              Loads(TypeScriptOnlyModule(), bundle, "user") && !LoadsAsWritten(TypeScriptOnlyModule(), bundle, "user")
  {
    IndexArtifactAsWrittenFindsLess(fs, bundle, id);
    IndexArtifactAsWrittenFindsLess(TypeScriptOnlyModule(), bundle, "user");
    var ts := TypeScriptOnlyModule();
    assert ModulePath(ts, "user", "") == "file:///doc/@/modules/user";
  }

  /** A permutation of a list of entries lists the same ids. */
  lemma PermutationKeepsIds(a: seq<Entry>, b: seq<Entry>)
    requires multiset(a) == multiset(b)
    ensures forall k :: k in Ids(a) <==> k in Ids(b)
  {
    forall k ensures k in Ids(a) ==> k in Ids(b) {
      if k in Ids(a) {
        var x :| 0 <= x < |a| && Ids(a)[x] == k;
        assert a[x] in multiset(b);
        var y :| 0 <= y < |b| && b[y] == a[x];
        assert Ids(b)[y] == k;
      }
    }
    forall k ensures k in Ids(b) ==> k in Ids(a) {
      if k in Ids(b) {
        var y :| 0 <= y < |b| && Ids(b)[y] == k;
        assert b[y] in multiset(a);
        var x :| 0 <= x < |a| && a[x] == b[y];
        assert Ids(a)[x] == k;
      }
    }
  }

  /** Every entry of a permutation of the registry's entries names a registered module. */
  lemma EntriesOfSortedAreRegistered(entries: seq<Entry>, sorted: seq<Entry>)
    requires multiset(entries) == multiset(sorted)
    ensures forall e | e in sorted :: e in entries
  {
    forall e | e in sorted ensures e in entries {
      assert e in multiset(sorted);
    }
  }

  /** One step of `initializeModules` on one instance: `initialize` runs when the module
      is enabled and available, and a module whose `initialize` throws is demoted. */
  method InitializeInstance(inst: Instance, userAvailable: bool, now: nat) returns (ok: bool)
    modifies inst.Definition(), if inst.UserInstance? then {inst.user} else {}
    ensures ok == InitializeSucceeds(inst.Constructor(), old(inst.Definition().config), userAvailable)
    ensures inst.Definition().config == AfterInitialize(inst.Constructor(), old(inst.Definition().config), userAvailable)
    ensures inst.UserInstance? ==>
              UserStateOf(inst.user)
              == if ok && Users.DemoRequested(old(inst.Definition().config)) then WithDemoUser(old(UserStateOf(inst.user)), now)
                 else old(UserStateOf(inst.user))
  {
    var definition := inst.Definition();
    var available: bool;
    match inst {
      case UserInstance(u) => available := u.IsAvailable();
      case AuthInstance(a) => available := a.IsAvailable(userAvailable);
      case ForeignInstance(b, behaviour) => available := b.IsAvailable() && behaviour.dependencyAvailable;
    }
    ok := false;
    if definition.config.enabled && available {
      match inst {
        case UserInstance(u) => ok := u.Initialize(now);
        case AuthInstance(a) => ok := a.Initialize(userAvailable);
        case ForeignInstance(b, behaviour) => b.Initialize(); ok := !behaviour.initializeThrows;
      }
      if !ok {
        definition.config := definition.config.(enabled := false);
      }
    }
  }

  /** The kind of each instance of a table of modules. */
  function KindsOf(modules: map<string, Instance>): (m: map<string, ModuleConstructor>)
    ensures m.Keys == modules.Keys
    ensures forall k | k in modules :: m[k] == modules[k].Constructor()
  {
    map k | k in modules :: modules[k].Constructor()
  }

  /** The loop of `cleanupAll`: each module of `ids` is cleaned up in turn, and the ids
      it succeeded and failed on are collected. */
  method CleanupEach(ids: seq<string>, modules: map<string, Instance>) returns (cleaned: seq<string>, failed: seq<string>)
    requires forall i | 0 <= i < |ids| :: ids[i] in modules
    ensures cleaned == CleanedIds(ids, KindsOf(modules), false)
    ensures failed == CleanedIds(ids, KindsOf(modules), true)
  {
    var kinds := KindsOf(modules);
    cleaned := [];
    failed := [];
    var i := 0;
    while i < |ids|
      invariant 0 <= i <= |ids|
      invariant cleaned == CleanedIds(ids[..i], kinds, false)
      invariant failed == CleanedIds(ids[..i], kinds, true)
    {
      var name := ids[i];
      CleanedIdsSnoc(ids, i, kinds, false);
      CleanedIdsSnoc(ids, i, kinds, true);
      match modules[name] {
        case UserInstance(u) => u.base.Cleanup();
        case AuthInstance(a) => a.base.Cleanup();
        case ForeignInstance(_, _) =>
      }
      if CleansUp(kinds, name, true) {
        failed := failed + [name];
      } else if CleansUp(kinds, name, false) {
        cleaned := cleaned + [name];
      }
      i := i + 1;
    }
    assert ids[..i] == ids;
  }

  /** Each instance of a table is recorded under its own id: its definition object in
      `definitionOwner` and, for a user module, its module object in `userOwner`, so
      no two ids share either. */
  ghost predicate Owned(modules: map<string, Instance>, definitionOwner: map<Definition, string>,
                        userOwner: map<Users.UserModule, string>) {
    DefinitionsOwned(modules, definitionOwner) && UsersOwned(modules, userOwner)
  }

  ghost predicate DefinitionsOwned(modules: map<string, Instance>, definitionOwner: map<Definition, string>) {
    forall k | k in modules ::
      modules[k].Definition() in definitionOwner && definitionOwner[modules[k].Definition()] == k
  }

  ghost predicate UsersOwned(modules: map<string, Instance>, userOwner: map<Users.UserModule, string>) {
    forall k | k in modules && modules[k].UserInstance? ::
      modules[k].user in userOwner && userOwner[modules[k].user] == k
  }

  /** When every other owned definition still holds its configuration in `before`,
      the configurations differ from `before` at most under `name`. */
  lemma ConfigsOfStep(modules: map<string, Instance>, definitionOwner: map<Definition, string>, name: string,
                      before: map<string, ModuleConfig>)
    requires name in modules && modules[name].Definition() in definitionOwner
    requires forall k :: k in before <==> k in modules && modules[k].Definition() in definitionOwner
    requires forall k | k in before && k != name :: modules[k].Definition().config == before[k]
    ensures ConfigsOf(modules, definitionOwner) == before[name := modules[name].Definition().config]
  {
  }

  /** When every other owned user module still holds its state in `before`, the
      states differ from `before` at most under `name`. */
  lemma UserStatesOfStep(modules: map<string, Instance>, userOwner: map<Users.UserModule, string>, name: string,
                         before: map<string, UserState>)
    requires name in modules && (modules[name].UserInstance? ==> modules[name].user in userOwner)
    requires forall k :: k in before <==> k in modules && modules[k].UserInstance? && modules[k].user in userOwner
    requires forall k | k in before && k != name :: UserStateOf(modules[k].user) == before[k]
    ensures UserStatesOf(modules, userOwner)
            == if modules[name].UserInstance? then before[name := UserStateOf(modules[name].user)] else before
  {
    if !modules[name].UserInstance? {
      assert UserStatesOf(modules, userOwner) == before;
    }
  }

  /** The current configuration of every instance of a table. */
  ghost function ConfigsOf(modules: map<string, Instance>, definitionOwner: map<Definition, string>): (m: map<string, ModuleConfig>)
    reads definitionOwner.Keys
    ensures forall k :: k in m <==> k in modules && modules[k].Definition() in definitionOwner
  {
    map k | k in modules && modules[k].Definition() in definitionOwner :: modules[k].Definition().config
  }

  /** The user table and current user of every user module of a table. */
  ghost function UserStatesOf(modules: map<string, Instance>, userOwner: map<Users.UserModule, string>): (m: map<string, UserState>)
    reads userOwner.Keys
    ensures forall k :: k in m <==> k in modules && modules[k].UserInstance? && modules[k].user in userOwner
  {
    map k | k in modules && modules[k].UserInstance? && modules[k].user in userOwner :: UserStateOf(modules[k].user)
  }

  ghost function UserStateOf(u: Users.UserModule): UserState
    reads u
  {
    UserState(u.users, u.currentUser)
  }

  /** `order` lists every key of the table once and nothing else: `position` says
      where each key stands. */
  ghost predicate Indexed(modules: map<string, Instance>, order: seq<string>, position: map<string, nat>) {
    && (forall i | 0 <= i < |order| :: order[i] in modules && order[i] in position && position[order[i]] == i)
    && (forall k | k in modules :: k in position && position[k] < |order| && order[position[k]] == k)
  }

  /** An indexed order has no repeated id. */
  lemma IndexedDistinct(modules: map<string, Instance>, order: seq<string>, position: map<string, nat>)
    requires Indexed(modules, order, position)
    ensures Distinct(order)
  {
    forall i, j | 0 <= i < j < |order| ensures order[i] != order[j] {
      assert position[order[i]] == i && position[order[j]] == j;
    }
  }

  /** `module.definition.manifest.priority || 100`. */
  function PriorityIn(modules: map<string, Instance>, k: string): int
    requires k in modules
  {
    EffectivePriority(modules[k].Definition().manifest.priority)
  }

  /** The ids of `order` with their effective priorities, in that order. */
  function EntriesOf(modules: map<string, Instance>, order: seq<string>): (s: seq<Entry>)
    ensures Ids(s) == order
    ensures forall i | 0 <= i < |s| :: s[i].id in modules ==> s[i].priority == PriorityIn(modules, s[i].id)
  {
    seq(|order|, i requires 0 <= i < |order| =>
                   Entry(order[i], if order[i] in modules then PriorityIn(modules, order[i]) else 100))
  }

  /** `order` sorted stably by priority. */
  function SortedIds(modules: map<string, Instance>, order: seq<string>): seq<string> {
    Ids(SortByPriority(EntriesOf(modules, order)))
  }

  /** Sorting an indexed order visits every registered id exactly once. */
  lemma SortedIdsRegistered(modules: map<string, Instance>, order: seq<string>, position: map<string, nat>)
    requires Indexed(modules, order, position)
    ensures Distinct(SortedIds(modules, order))
    ensures forall j | 0 <= j < |SortedIds(modules, order)| :: SortedIds(modules, order)[j] in modules
    ensures forall k | k in modules :: k in SortedIds(modules, order)
  {
    var entries := EntriesOf(modules, order);
    var sorted := SortByPriority(entries);
    IndexedDistinct(modules, order, position);
    SortByPrioritySortsAndPermutes(entries);
    PermutationKeepsIdsDistinct(entries, sorted);
    PermutationKeepsIds(entries, sorted);
    SortedEntriesRegistered(modules, order, position);
    forall k | k in modules ensures k in Ids(entries) { assert Ids(entries)[position[k]] == k; }
  }

  /** Sorting an indexed order visits ids in order of non-decreasing priority. */
  lemma SortedIdsByPriority(modules: map<string, Instance>, order: seq<string>, position: map<string, nat>)
    requires Indexed(modules, order, position)
    ensures forall i, j | 0 <= i < j < |SortedIds(modules, order)| ::
              SortedIds(modules, order)[i] in modules && SortedIds(modules, order)[j] in modules
              && PriorityIn(modules, SortedIds(modules, order)[i]) <= PriorityIn(modules, SortedIds(modules, order)[j])
  {
    var sorted := SortByPriority(EntriesOf(modules, order));
    SortByPrioritySortsAndPermutes(EntriesOf(modules, order));
    SortedEntriesRegistered(modules, order, position);
    assert SortedIds(modules, order) == Ids(sorted);
    forall i, j | 0 <= i < j < |sorted|
      ensures Ids(sorted)[i] in modules && Ids(sorted)[j] in modules
      ensures PriorityIn(modules, Ids(sorted)[i]) <= PriorityIn(modules, Ids(sorted)[j])
    {
      assert sorted[i].priority <= sorted[j].priority;
    }
  }

  /** Each entry of the sorted order names a registered id and carries its priority. */
  lemma SortedEntriesRegistered(modules: map<string, Instance>, order: seq<string>, position: map<string, nat>)
    requires Indexed(modules, order, position)
    ensures forall j | 0 <= j < |SortByPriority(EntriesOf(modules, order))| ::
              var e := SortByPriority(EntriesOf(modules, order))[j];
              e.id in modules && e.priority == PriorityIn(modules, e.id)
  {
    var entries := EntriesOf(modules, order);
    var sorted := SortByPriority(entries);
    SortByPrioritySortsAndPermutes(entries);
    EntriesOfSortedAreRegistered(entries, sorted);
    forall j | 0 <= j < |sorted| ensures sorted[j].id in modules && sorted[j].priority == PriorityIn(modules, sorted[j].id) {
      assert sorted[j] in entries;
      var x :| 0 <= x < |entries| && entries[x] == sorted[j];
      assert Ids(entries)[x] == order[x];
    }
  }

  /** The empty table is indexed and owns nothing. */
  lemma EmptyTableValid()
    ensures Indexed(map[], [], map[]) && Owned(map[], map[], map[])
  {
  }

  /** Setting a key keeps the tables indexed: a new key is placed at the end of the
      order, an existing one keeps its place. */
  lemma IndexedInsert(modules: map<string, Instance>, order: seq<string>, position: map<string, nat>,
                      id: string, inst: Instance)
    requires Indexed(modules, order, position)
    ensures Indexed(modules[id := inst],
                    if id in modules then order else order + [id],
                    if id in modules then position else position[id := |order|])
  {
    if id !in modules {
      var order' := order + [id];
      var position' := position[id := |order|];
      forall i | 0 <= i < |order'|
        ensures order'[i] in modules[id := inst] && order'[i] in position' && position'[order'[i]] == i
      {
        if i < |order| {
          assert order'[i] == order[i];
        }
      }
    }
  }

  /** Registering an instance whose objects are not yet owned keeps every object
      owned by its own id. */
  lemma OwnedInsert(modules: map<string, Instance>, definitionOwner: map<Definition, string>,
                    userOwner: map<Users.UserModule, string>, id: string, inst: Instance)
    requires Owned(modules, definitionOwner, userOwner)
    requires inst.Definition() !in definitionOwner
    requires inst.UserInstance? ==> inst.user !in userOwner
    ensures Owned(modules[id := inst], definitionOwner[inst.Definition() := id],
                  if inst.UserInstance? then userOwner[inst.user := id] else userOwner)
  {
  }

  /** One step of `initializeModules` on the module registered under `name`, from the
      configurations `configs` and user states `states`; no other module of the table
      changes. */
  method InitializeOne(name: string, modules: map<string, Instance>, ghost definitionOwner: map<Definition, string>,
                       ghost userOwner: map<Users.UserModule, string>, userAvailable: bool, now: nat,
                       ghost configs: map<string, ModuleConfig>, ghost states: map<string, UserState>) returns (ok: bool)
    requires Owned(modules, definitionOwner, userOwner) && name in modules
    requires ConfigsOf(modules, definitionOwner) == configs && UserStatesOf(modules, userOwner) == states
    modifies definitionOwner.Keys, userOwner.Keys
    ensures ok == InitializeSucceeds(modules[name].Constructor(), configs[name], userAvailable)
    ensures ConfigsOf(modules, definitionOwner)
            == configs[name := AfterInitialize(modules[name].Constructor(), configs[name], userAvailable)]
    ensures UserStatesOf(modules, userOwner) == UserStateStep(states, name, configs[name], userAvailable, now)
  {
    var inst := modules[name];
    ok := InitializeInstance(inst, userAvailable, now);
    ConfigsOfStep(modules, definitionOwner, name, configs);
    UserStatesOfStep(modules, userOwner, name, states);
    if inst.UserInstance? {
      assert states[name] == old(UserStateOf(inst.user));
      if !DemoCreated(configs[name], userAvailable) {
        assert states[name := states[name]] == states;
      }
    }
  }

  /** Visiting the `i`-th of distinct ids extends each record of the visit by that
      module's own step, and finds its configuration as it was. */
  lemma VisitStep(ids: seq<string>, i: nat, kinds: map<string, ModuleConstructor>, configs: map<string, ModuleConfig>,
                  states: map<string, UserState>, userAvailable: bool, now: nat)
    requires Distinct(ids) && i < |ids| && ids[i] in kinds && ids[i] in configs
    ensures ConfigsAfter(kinds, configs, ids[..i], userAvailable)[ids[i]] == configs[ids[i]]
    ensures InitializedIds(ids[..i + 1], kinds, configs, userAvailable)
            == InitializedIds(ids[..i], kinds, configs, userAvailable)
               + (if Succeeds(kinds, configs, ids[i], userAvailable) then [ids[i]] else [])
    ensures ConfigsAfter(kinds, configs, ids[..i + 1], userAvailable)
            == ConfigsAfter(kinds, configs, ids[..i], userAvailable)[ids[i] := AfterInitialize(kinds[ids[i]], configs[ids[i]], userAvailable)]
    ensures UserStatesAfter(states, configs, ids[..i + 1], userAvailable, now)
            == UserStateStep(UserStatesAfter(states, configs, ids[..i], userAvailable, now), ids[i], configs[ids[i]], userAvailable, now)
  {
    VisitNext(ids, i);
    InitializedIdsSnoc(ids[..i], ids[i], kinds, configs, userAvailable);
    ConfigsAfterSnoc(kinds, configs, ids[..i], ids[i], userAvailable);
    UserStatesAfterSnoc(states, configs, ids[..i], ids[i], userAvailable, now);
  }

  /** The loop of `initializeModules`: each module of `ids` has its step in turn. */
  method InitializeEach(ids: seq<string>, modules: map<string, Instance>, ghost definitionOwner: map<Definition, string>,
                        ghost userOwner: map<Users.UserModule, string>, userAvailable: bool, now: nat)
    returns (initialized: seq<string>)
    requires Owned(modules, definitionOwner, userOwner)
    requires Distinct(ids) && forall i | 0 <= i < |ids| :: ids[i] in modules
    modifies definitionOwner.Keys, userOwner.Keys
    ensures initialized == InitializedIds(ids, KindsOf(modules), old(ConfigsOf(modules, definitionOwner)), userAvailable)
    ensures ConfigsOf(modules, definitionOwner)
            == ConfigsAfter(KindsOf(modules), old(ConfigsOf(modules, definitionOwner)), ids, userAvailable)
    ensures UserStatesOf(modules, userOwner)
            == UserStatesAfter(old(UserStatesOf(modules, userOwner)), old(ConfigsOf(modules, definitionOwner)), ids, userAvailable, now)
  {
    ghost var configs := ConfigsOf(modules, definitionOwner);
    ghost var states := UserStatesOf(modules, userOwner);
    var kinds := KindsOf(modules);
    initialized := [];
    ConfigsAfterNone(kinds, configs, userAvailable);
    UserStatesAfterNone(states, configs, userAvailable, now);
    var i := 0;
    while i < |ids|
      invariant 0 <= i <= |ids|
      invariant initialized == InitializedIds(ids[..i], kinds, configs, userAvailable)
      invariant ConfigsOf(modules, definitionOwner) == ConfigsAfter(kinds, configs, ids[..i], userAvailable)
      invariant UserStatesOf(modules, userOwner) == UserStatesAfter(states, configs, ids[..i], userAvailable, now)
    {
      var ok := InitializeAt(ids, i, modules, definitionOwner, userOwner, userAvailable, now, kinds, configs, states);
      if ok {
        initialized := initialized + [ids[i]];
      }
      i := i + 1;
    }
    assert ids[..i] == ids;
  }

  /** The `i`-th step of the loop of `initializeModules`: it extends each record of the
      visit of `ids[..i]` by the step of `ids[i]`. */
  method InitializeAt(ids: seq<string>, i: nat, modules: map<string, Instance>, ghost definitionOwner: map<Definition, string>,
                      ghost userOwner: map<Users.UserModule, string>, userAvailable: bool, now: nat,
                      ghost kinds: map<string, ModuleConstructor>, ghost configs: map<string, ModuleConfig>,
                      ghost states: map<string, UserState>) returns (ok: bool)
    requires Owned(modules, definitionOwner, userOwner)
    requires Distinct(ids) && i < |ids| && ids[i] in modules && ids[i] in configs
    requires ids[i] in kinds && kinds[ids[i]] == modules[ids[i]].Constructor()
    requires ConfigsOf(modules, definitionOwner) == ConfigsAfter(kinds, configs, ids[..i], userAvailable)
    requires UserStatesOf(modules, userOwner) == UserStatesAfter(states, configs, ids[..i], userAvailable, now)
    modifies definitionOwner.Keys, userOwner.Keys
    ensures InitializedIds(ids[..i + 1], kinds, configs, userAvailable)
            == InitializedIds(ids[..i], kinds, configs, userAvailable) + (if ok then [ids[i]] else [])
    ensures ConfigsOf(modules, definitionOwner) == ConfigsAfter(kinds, configs, ids[..i + 1], userAvailable)
    ensures UserStatesOf(modules, userOwner) == UserStatesAfter(states, configs, ids[..i + 1], userAvailable, now)
  {
    VisitStep(ids, i, kinds, configs, states, userAvailable, now);
    ok := InitializeOne(ids[i], modules, definitionOwner, userOwner, userAvailable, now,
                        ConfigsAfter(kinds, configs, ids[..i], userAvailable),
                        UserStatesAfter(states, configs, ids[..i], userAvailable, now));
  }

  /** Replacing the entry of `id` a second time leaves the map one replacement away
      from the original. */
  lemma ReplaceAgain<V>(original: map<string, V>, previous: map<string, V>, current: map<string, V>, id: string)
    requires id in previous && previous == original[id := previous[id]]
    requires id in current && current == previous[id := current[id]]
    ensures current == original[id := current[id]]
  {
  }

  /** An instance built since the pre-state: its definition object is new and holds
      `current`, and a user module starts with no users and no current user. */
  twostate predicate FreshInstance(new inst: Instance, current: ModuleDefinition)
    reads InstanceObjects(inst)
  {
    && fresh(inst.Definition()) && inst.Definition().Current() == current
    && (inst.UserInstance? ==> fresh(inst.user) && inst.user.users == map[] && inst.user.currentUser == None)
    && (inst.AuthInstance? ==> fresh(inst.auth))
  }

  /** The objects an instance's state lives in that a fresh instance has just built. */
  function InstanceObjects(inst: Instance): set<object> {
    {inst.Definition()} + if inst.UserInstance? then {inst.user} else {}
  }

  class AutoModuleRegistry {
    var modules: map<string, Instance>
    /** The insertion order of the keys. */
    var order: seq<string>
    var globalConfig: GlobalConfig
    var moduleRegistry: EnableMap

    /** The id each definition object and user module object is registered under. */
    ghost var definitionOwner: map<Definition, string>
    ghost var userOwner: map<Users.UserModule, string>
    /** Where each id stands in `order`. */
    ghost var position: map<string, nat>

    /** The kind of every registered module. */
    function Kinds(): (m: map<string, ModuleConstructor>)
      reads this
      ensures m.Keys == modules.Keys
    {
      KindsOf(modules)
    }

    /** The current configuration of every registered module. */
    ghost function Configs(): (m: map<string, ModuleConfig>)
      reads this, definitionOwner.Keys
      requires Valid()
      ensures m.Keys == modules.Keys
    {
      ConfigsOf(modules, definitionOwner)
    }

    /** The keys are kept in `order`, and no two ids share a definition or a user
        module object. */
    ghost predicate Valid()
      reads this
    {
      Indexed(modules, order, position) && Owned(modules, definitionOwner, userOwner)
    }

    constructor ()
      ensures modules == map[] && order == []
      ensures globalConfig == GlobalConfig(None, None) && moduleRegistry == EnableMap([], map[])
      ensures Valid()
    {
      modules := map[];
      order := [];
      globalConfig := GlobalConfig(None, None);
      moduleRegistry := EnableMap([], map[]);
      definitionOwner := map[];
      userOwner := map[];
      position := map[];
    }

    /** Every object the owner maps gained since the pre-state was allocated since. */
    twostate predicate OwnersGrowFresh()
      reads this
    {
      && (forall d | d in definitionOwner && d !in old(definitionOwner) :: fresh(d))
      && (forall u | u in userOwner && u !in old(userOwner) :: fresh(u))
    }

    /** Loading `kind` under `id` with a definition holding `current` replaced the entry
        of `id` by a fresh instance of that kind, kept every other entry, and placed a
        new key at the end of the order. */
    twostate predicate Loaded(id: string, kind: ModuleConstructor, current: ModuleDefinition)
      reads this, if id in modules then InstanceObjects(modules[id]) else {}
    {
      && id in modules && modules == old(modules)[id := modules[id]]
      && order == (if id in old(modules) then old(order) else old(order) + [id])
      && modules[id].Constructor() == kind
      && FreshInstance(modules[id], current)
    }

    /** `loadModuleRegistry()`: the file's contents, or `{user: false, auth: false}`
        when it cannot be loaded. */
    method LoadModuleRegistry(file: Option<ModuleRegistry>)
      modifies this
      ensures moduleRegistry == if file.Some? then file.value else FallbackRegistry()
      ensures modules == old(modules) && order == old(order)
      ensures globalConfig == old(globalConfig)
      ensures definitionOwner == old(definitionOwner) && userOwner == old(userOwner)
      ensures position == old(position)
    {
      moduleRegistry := if file.Some? then file.value else FallbackRegistry();
    }

    /** `loadGlobalConfig()`: the file's contents, or `{moduleDefaults: {enabled: true}}`. */
    method LoadGlobalConfig(file: Option<GlobalConfig>)
      modifies this
      ensures globalConfig == if file.Some? then file.value else FallbackGlobalConfig
      ensures modules == old(modules) && order == old(order)
      ensures moduleRegistry == old(moduleRegistry)
      ensures definitionOwner == old(definitionOwner) && userOwner == old(userOwner)
      ensures position == old(position)
    {
      globalConfig := if file.Some? then file.value else FallbackGlobalConfig;
    }

    /** `new ModuleConstructor(definition)`. */
    static method NewInstance(kind: ModuleConstructor, definition: Definition) returns (inst: Instance)
      ensures inst.Definition() == definition && inst.Constructor() == kind
      ensures inst.UserInstance? ==> fresh(inst.user) && inst.user.Valid()
                                     && inst.user.users == map[] && inst.user.currentUser == None
      ensures inst.AuthInstance? ==> fresh(inst.auth) && inst.auth.Valid()
      ensures inst.ForeignInstance? ==> fresh(inst.base)
    {
      match kind
      case UserModuleConstructor =>
        var u := new Users.UserModule(definition);
        inst := UserInstance(u);
      case AuthModuleConstructor =>
        var a := new Auth.AuthModule(definition);
        inst := AuthInstance(a);
      case ForeignConstructor(behaviour) =>
        var b := new BaseModule(definition);
        inst := ForeignInstance(b, behaviour);
    }

    /** `modules.set(id, instance)` together with `moduleDefinitions.set(id, definition)`:
        a new key goes to the end of the order, an existing one keeps its place. */
    method Register(id: string, inst: Instance)
      requires Valid()
      requires inst.Definition() !in definitionOwner
      requires inst.UserInstance? ==> inst.user !in userOwner
      modifies this
      ensures Valid()
      ensures modules == old(modules)[id := inst]
      ensures order == if id in old(modules) then old(order) else old(order) + [id]
      ensures globalConfig == old(globalConfig) && moduleRegistry == old(moduleRegistry)
      ensures definitionOwner == old(definitionOwner)[inst.Definition() := id]
      ensures userOwner == if inst.UserInstance? then old(userOwner)[inst.user := id] else old(userOwner)
    {
      IndexedInsert(modules, order, position, id, inst);
      OwnedInsert(modules, definitionOwner, userOwner, id, inst);
      if id !in modules {
        position := position[id := |order|];
        order := order + [id];
      }
      modules := modules[id := inst];
      definitionOwner := definitionOwner[inst.Definition() := id];
      if inst.UserInstance? {
        userOwner := userOwner[inst.user := id];
      }
    }

    /** One constructor of `loadModule(id)`: a fresh definition holding `current`, a
        fresh instance built on it, and the instance registered under `id`. */
    method LoadInstance(id: string, kind: ModuleConstructor, current: ModuleDefinition)
      requires Valid()
      modifies this
      ensures Valid()
      ensures globalConfig == old(globalConfig) && moduleRegistry == old(moduleRegistry)
      ensures Loaded(id, kind, current)
      ensures modules.Keys == old(modules).Keys + {id}
      ensures OwnersGrowFresh()
    {
      var definition := new Definition(current);
      var moduleInstance := NewInstance(kind, definition);
      Register(id, moduleInstance);
    }

    /** The constructor loop of `loadModule(id)`: each constructor in turn builds a
        fresh definition and instance and registers it under `id`, so the last one
        stays. */
    method LoadEach(id: string, constructors: seq<ModuleConstructor>, current: ModuleDefinition)
      requires Valid() && |constructors| > 0
      modifies this
      ensures Valid()
      ensures globalConfig == old(globalConfig) && moduleRegistry == old(moduleRegistry)
      ensures Loaded(id, constructors[|constructors| - 1], current)
      ensures modules.Keys == old(modules).Keys + {id}
      ensures OwnersGrowFresh()
    {
      ghost var loadedOrder := if id in modules then order else order + [id];
      LoadInstance(id, constructors[0], current);
      var i := 1;
      while i < |constructors|
        invariant 1 <= i <= |constructors|
        invariant Valid()
        invariant globalConfig == old(globalConfig) && moduleRegistry == old(moduleRegistry)
        invariant id in modules && modules == old(modules)[id := modules[id]]
        invariant order == loadedOrder
        invariant modules[id].Constructor() == constructors[i - 1]
        invariant FreshInstance(modules[id], current)
        invariant OwnersGrowFresh()
      {
        ghost var previous := modules;
        LoadInstance(id, constructors[i], current);
        ReplaceAgain(old(modules), previous, modules, id);
        i := i + 1;
      }
    }

    /** `loadModule(id)`: nothing happens unless the module directory exists and its
        index lists constructors; then every constructor is loaded in turn, and a key
        already present keeps its place in the order. */
    method LoadModule(id: string, fs: FileSystem, bundle: Bundle)
      requires Valid()
      modifies this
      ensures Valid()
      ensures globalConfig == old(globalConfig) && moduleRegistry == old(moduleRegistry)
      ensures !Loads(fs, bundle, id) ==>
                modules == old(modules) && order == old(order)
      ensures Loads(fs, bundle, id) ==>
                var constructors := IndexArtifact(fs, bundle, id).value;
                Loaded(id, constructors[|constructors| - 1],
                       BuildDefinition(id, ManifestArtifact(fs, bundle, id), ConfigArtifact(fs, bundle, id), globalConfig, moduleRegistry))
      ensures modules.Keys == if Loads(fs, bundle, id) then old(modules).Keys + {id} else old(modules).Keys
      ensures OwnersGrowFresh()
    {
      var moduleExists := ModuleHas(fs, id, []);
      if !moduleExists {
        return;
      }
      var manifest := SafeStaticImportManifest(fs, bundle, id);
      var config := SafeStaticImportConfig(fs, bundle, id);
      var moduleIndex := SafeStaticImportIndex(fs, bundle, id);
      if moduleIndex.None? || |moduleIndex.value| == 0 {
        return;
      }
      LoadEach(id, moduleIndex.value, BuildDefinition(id, manifest, config, globalConfig, moduleRegistry));
    }

    /** The `try { loadModule(id) } catch` of `discoverAndInitialize`: a module that
        fails to load does not stop the others. Nothing escapes `loadModule` in this
        model, so the step registers what `loadModule` registers. */
    method TryLoadModule(id: string, fs: FileSystem, bundle: Bundle)
      requires Valid()
      modifies this
      ensures Valid()
      ensures globalConfig == old(globalConfig) && moduleRegistry == old(moduleRegistry)
      ensures modules.Keys == if Loads(fs, bundle, id) then old(modules).Keys + {id} else old(modules).Keys
      ensures OwnersGrowFresh()
    {
      LoadModule(id, fs, bundle);
    }

    /** The loop of `discoverAndInitialize` over the enabled ids: `loadModule` on each in
        turn. Every id that loads is registered, and nothing else is added. */
    method LoadEnabled(ids: seq<string>, fs: FileSystem, bundle: Bundle)
      requires Valid()
      modifies this
      ensures Valid()
      ensures globalConfig == old(globalConfig) && moduleRegistry == old(moduleRegistry)
      ensures old(modules).Keys <= modules.Keys
      ensures forall k | k in modules :: k in old(modules) || k in ids
      ensures forall j | 0 <= j < |ids| && Loads(fs, bundle, ids[j]) :: ids[j] in modules
      ensures OwnersGrowFresh()
    {
      ghost var added: set<string> := {};
      var j := 0;
      while j < |ids|
        invariant 0 <= j <= |ids|
        invariant Valid()
        invariant globalConfig == old(globalConfig) && moduleRegistry == old(moduleRegistry)
        invariant modules.Keys == old(modules).Keys + added
        invariant forall k | k in added :: k in ids
        invariant forall x | 0 <= x < j && Loads(fs, bundle, ids[x]) :: ids[x] in added
        invariant OwnersGrowFresh()
      {
        TryLoadModule(ids[j], fs, bundle);
        if Loads(fs, bundle, ids[j]) {
          added := added + {ids[j]};
        }
        j := j + 1;
      }
    }

    /** `discoverAndInitialize()`: the enable map and the global configuration are
        read (each file's contents or its fallback), every enabled id is loaded, and
        the loaded modules are initialised. Every enabled module that loads is
        registered, nothing that is not enabled is added, and every module whose
        `initialize` succeeded ends enabled. */
    method DiscoverAndInitialize(registryFile: Option<ModuleRegistry>, globalFile: Option<GlobalConfig>,
                                 fs: FileSystem, bundle: Bundle, userAvailable: bool, now: nat)
      returns (visited: seq<string>, initialized: seq<string>)
      requires Valid()
      modifies this, definitionOwner.Keys, userOwner.Keys
      ensures Valid()
      ensures moduleRegistry == if registryFile.Some? then registryFile.value else FallbackRegistry()
      ensures globalConfig == if globalFile.Some? then globalFile.value else FallbackGlobalConfig
      ensures forall k | k in old(modules) :: k in modules
      ensures forall k | k in modules :: k in old(modules) || k in EnabledIds(moduleRegistry)
      ensures forall k | k in EnabledIds(moduleRegistry) && Loads(fs, bundle, k) :: k in modules
      ensures visited == VisitOrder()
      ensures forall k | k in initialized :: k in modules && Configs()[k].enabled
    {
      LoadModuleRegistry(registryFile);
      LoadGlobalConfig(globalFile);
      var enabledModules := GetEnabledModules();
      LoadEnabled(enabledModules, fs, bundle);
      ghost var configs := Configs();
      visited, initialized := InitializeModules(userAvailable, now);
      InitializedEndEnabled(visited, Kinds(), configs, userAvailable);
    }

    /** No id appears twice in the insertion order. */
    lemma OrderDistinct()
      requires Valid()
      ensures Distinct(order)
    {
      IndexedDistinct(modules, order, position);
    }

    /** `module.definition.manifest.priority || 100` for a registered module. */
    function PriorityOf(k: string): int
      reads this
      requires k in modules
    {
      PriorityIn(modules, k)
    }

    /** The order `initializeModules` visits modules in: the registered ids sorted
        stably by priority. Every registered id is visited once, and in order of
        non-decreasing priority. */
    function VisitOrder(): (ids: seq<string>)
      reads this
      requires Valid()
      ensures Distinct(ids)
      ensures forall j | 0 <= j < |ids| :: ids[j] in modules
      ensures forall k | k in modules :: k in ids
      ensures forall i, j | 0 <= i < j < |ids| :: PriorityOf(ids[i]) <= PriorityOf(ids[j])
    {
      SortedIdsRegistered(modules, order, position);
      SortedIdsByPriority(modules, order, position);
      SortedIds(modules, order)
    }

    /** The user table and current user of every registered user module. */
    ghost function UserStates(): (m: map<string, UserState>)
      reads this, userOwner.Keys
      requires Valid()
      ensures forall k :: k in m <==> k in modules && modules[k].UserInstance?
    {
      UserStatesOf(modules, userOwner)
    }

    /** `initializeModules()`. Modules are visited in the stable priority order; each
        enabled and available one is initialised, and one whose `initialize` throws is
        demoted to disabled. `now` is the clock the user module's demo user reads. */
    method InitializeModules(userAvailable: bool, now: nat) returns (visited: seq<string>, initialized: seq<string>)
      requires Valid()
      modifies definitionOwner.Keys, userOwner.Keys
      ensures Valid()
      ensures visited == VisitOrder()
      ensures initialized == InitializedIds(visited, Kinds(), old(Configs()), userAvailable)
      ensures Configs() == ConfigsAfter(Kinds(), old(Configs()), visited, userAvailable)
      ensures UserStates() == UserStatesAfter(old(UserStates()), old(Configs()), visited, userAvailable, now)
    {
      visited := VisitOrder();
      initialized := InitializeEach(visited, modules, definitionOwner, userOwner, userAvailable, now);
    }

    /** `getModule(name)`. */
    function GetModule(name: string): (r: Option<Instance>)
      reads this
      ensures r.Some? <==> name in modules
      ensures r.Some? ==> r.value == modules[name]
    {
      if name in modules then Some(modules[name]) else None
    }

    /** `isModuleAvailable(name)`: registered, enabled and reporting itself available. */
    function IsModuleAvailable(name: string, userAvailable: bool): (r: bool)
      reads this, definitionOwner.Keys, userOwner.Keys
      requires Valid()
      ensures r <==> name in modules && Configs()[name].enabled
                     && Available(Kinds()[name], Configs()[name], userAvailable)
    {
      if name !in modules then false
      else
        var m := modules[name];
        var enabled := m.Definition().config.enabled;
        match m
        case UserInstance(u) => enabled && u.IsAvailable()
        case AuthInstance(a) => enabled && a.IsAvailable(userAvailable)
        case ForeignInstance(b, behaviour) => enabled && b.IsAvailable() && behaviour.dependencyAvailable
    }

    /** `getModuleState(name)`. */
    function GetModuleState(name: string): (r: ReportedState)
      reads this, definitionOwner.Keys
      requires Valid()
      ensures name in modules ==> r == State(if Configs()[name].enabled then Enabled else Disabled)
      ensures name !in modules && name in moduleRegistry.flags ==>
                r == if Truthy(moduleRegistry.flags[name]) then NotLoaded else State(Disabled)
      ensures name !in modules && name !in moduleRegistry.flags ==>
                r == if name in ObjectPrototypeMembers then NotLoaded else State(Disabled)
    {
      if name in modules then
        var m := modules[name];
        match m
        case UserInstance(u) => State(u.base.GetState())
        case AuthInstance(a) => State(a.base.GetState())
        case ForeignInstance(b, _) => State(b.GetState())
      else if EntryTruthy(moduleRegistry, name) then NotLoaded
      else State(Disabled)
    }

    function GetModuleRegistry(): EnableMap
      reads this
    {
      moduleRegistry
    }

    /** `getEnabledModules()`: the ids with a truthy registry value, in key order. */
    function GetEnabledModules(): (r: seq<string>)
      reads this
      ensures forall id :: id in r <==> id in moduleRegistry.order && id in moduleRegistry.flags && Truthy(moduleRegistry.flags[id])
      ensures Distinct(moduleRegistry.order) ==> Distinct(r)
    {
      EnabledIdsMembers(moduleRegistry);
      EnabledIds(moduleRegistry)
    }

    /** `getAllModules()`: the instances in insertion order. */
    function GetAllModules(): (r: seq<Instance>)
      reads this
      requires forall i | 0 <= i < |order| :: order[i] in modules
      ensures |r| == |order| && forall i :: 0 <= i < |r| ==> r[i] == modules[order[i]]
    {
      var o := order;
      var ms := modules;
      seq(|o|, i requires 0 <= i < |o| && o[i] in ms => ms[o[i]])
    }

    /** `getAllModuleDefinitions()`: the definitions in insertion order, each the
        definition object its instance was built with. */
    function GetAllModuleDefinitions(): (r: seq<Definition>)
      reads this
      requires forall i | 0 <= i < |order| :: order[i] in modules
      ensures |r| == |order| && forall i :: 0 <= i < |r| ==> r[i] == modules[order[i]].Definition()
    {
      var o := order;
      var ms := modules;
      seq(|o|, i requires 0 <= i < |o| && o[i] in ms => ms[o[i]].Definition())
    }

    /** `cleanupAll()`: `cleanup` is called on every module that has one, in insertion
        order, a failure does not stop the rest, and both tables end empty. */
    method CleanupAll() returns (cleaned: seq<string>, failed: seq<string>)
      requires Valid()
      modifies this
      ensures Valid()
      ensures cleaned == CleanedIds(old(order), old(Kinds()), false)
      ensures failed == CleanedIds(old(order), old(Kinds()), true)
      ensures modules == map[] && order == []
      ensures globalConfig == old(globalConfig) && moduleRegistry == old(moduleRegistry)
    {
      assert forall i | 0 <= i < |order| :: order[i] in modules;
      cleaned, failed := CleanupEach(order, modules);
      EmptyTableValid();
      modules := map[];
      order := [];
      definitionOwner := map[];
      userOwner := map[];
      position := map[];
    }
  }
}
