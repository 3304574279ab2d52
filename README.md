# react-native-modules: the module registry and its module contract, in Dafny

The repository is a React Native app built from pluggable modules. Its core is
`AutoModuleRegistry`, which works in four steps:

- It reads an enable map (`modules/modules.json`) and a global configuration
  (`modules/config/modules.json`).
- For every enabled id it looks for a module directory. It imports the module's
  manifest, configuration and index, and merges them into a module definition.
- It builds each constructor the index lists and registers the instance under the id.
- It initialises the registered modules in priority order, demoting any module
  whose `initialize` throws.

Every module extends `BaseModule`, which makes three things out of the
definition's `config`:

- availability and state, from `config.enabled`;
- dot-path configuration reads (`getConfig("a.b.c")`);
- shallow configuration updates.

Two concrete modules are modelled:

- The user module: an in-memory user table with a current-user pointer, and an
  ordered password-policy check.
- The auth module: a per-email failed-attempt counter with lockouts, and a
  session table with a current-session pointer.

The Dafny modules follow the source files.

| Dafny module | file | source |
|---|---|---|
| `ModuleTypes` | `types.dfy` | `modules/core/types.ts` |
| `Base` | `base_module.dfy` | `modules/core/BaseModule.ts` |
| `Merge` | `merge.dfy` | `buildModuleDefinition` and the fallbacks in `modules/core/AutoModuleRegistry.ts` |
| `Loader` | `loader.dfy` | `modulePath`, `moduleExists`, `moduleHas` and `safeStaticImport`, over a file-system snapshot and an import table |
| `Priority` | `priority.dfy` | the stable priority sort of `initializeModules` |
| `Registry` | `registry.dfy` | the `AutoModuleRegistry` class |
| `Users` | `user_module.dfy` | `modules/user/UserModule.ts` |
| `Auth` | `auth_module.dfy` | `modules/auth/AuthModule.ts` |

`Wrappers`, `Text` and `Json` are shared groundwork:

- `Option`, and `Outcome` for a promise that resolves or rejects;
- `split` and its inverse `Join`, and number formatting;
- the UTF-16 length that JavaScript's `.length` reports;
- JavaScript values with their truthiness, `?.[k]` on the own keys of objects, the members every object inherits, and `Number(...)` coercion.

Mutable objects are Dafny classes:

- the shared definition object;
- the base module;
- the two modules;
- the registry.

Their methods are proved against specification functions. For example,
`Auth.AuthModule.Login` is proved equal to the pure `Auth.LoginStep`, and the
lemmas then state what `LoginStep` means. Clocks, generated ids and tokens are
method parameters.

## Model

| member | source | states |
|---|---|---|
| Text.Split | modules/core/BaseModule.ts:32 | `key.split('.')` gives at least one part; no part holds the separator; joining the parts gives the string back |
| Text.SplitJoin | modules/core/BaseModule.ts:32 | splitting a join of separator-free parts gives the parts back |
| Text.SplitWithoutSeparator | modules/core/BaseModule.ts:32 | a key without a dot splits into itself, so it is a one-segment walk |
| Text.SplitAtFirstSeparator | modules/core/BaseModule.ts:32 | the first dot ends the first segment |
| Text.Capitalize | modules/core/AutoModuleRegistry.ts:244 | `charAt(0).toUpperCase() + slice(1)`: same length, first letter upper-cased, rest unchanged, unchanged when it does not start with a lower-case letter |
| Text.ParseNatToString | modules/auth/AuthModule.ts:76 | the decimal rendering used for generated user ids reads back as the number |
| Text.NatToStringInjective | modules/auth/AuthModule.ts:76 | distinct clock readings give distinct `user_<time>` session ids |
| Text.Utf16Length | modules/user/UserModule.ts:171 | `password.length` counts UTF-16 code units: between one and two per character, and 0 only for the empty string |
| Text.Utf16LengthOfPlaneZero | modules/auth/AuthModule.ts:61 | the UTF-16 length equals the number of characters exactly when no character lies outside the Basic Multilingual Plane |
| Text.ThreeEmojiAreSixUnits | modules/auth/AuthModule.ts:61 | three emoji are three characters but six code units, so they pass the six-unit minimum |
| Json.DigAppend | modules/core/BaseModule.ts:34-38 | walking `p + q` is walking `p` then `q`; a walk that stopped stays stopped |
| Json.DigStopsAtMissingSegment | modules/core/BaseModule.ts:35-37 | as soon as one segment is missing the walk yields undefined, whatever follows |
| Json.DigFoundMeansObjects | modules/core/BaseModule.ts:34-38 | a walk that finds a value went through an object holding each segment |
| Json.ToNumber | modules/auth/AuthModule.ts:40-42 | the coercion of `<`, `>=` and `*`: undefined is NaN, null is 0, a number is itself |
| Base.LookupSetting | modules/core/BaseModule.ts:27-41 | `getConfig("settings.<name>")` is the setting itself, or undefined when the settings or the key are missing |
| Base.LookupFeature | modules/core/BaseModule.ts:27-41 | `getConfig("features.<name>")` is the flag itself, or undefined when missing |
| Base.SectionValue | modules/core/BaseModule.ts:27-41 | a key without a dot reads one property of the configuration object |
| Base.SettingsValue | modules/core/BaseModule.ts:27-41 | `getConfig('settings')` is the settings object, or undefined when there are none |
| Base.SettingValue | modules/core/BaseModule.ts:27-41 | `getConfig('settings.' + name)` equals the setting itself |
| Base.FeatureValue | modules/core/BaseModule.ts:27-41 | `getConfig('features.' + name)` equals the flag itself |
| Base.ApplyPartial | modules/core/BaseModule.ts:43-49 | every key the partial configuration supplies replaces the old value, a supplied `settings` replaces the whole map, absent keys stay |
| Base.ApplyPartialIsSpread | modules/core/BaseModule.ts:44-47 | the update is exactly the object spread `{...config, ...partial}` of the configuration objects |
| Base.BaseModule.constructor | modules/core/BaseModule.ts:6-8 | the module keeps the definition object it is given |
| Base.BaseModule.Initialize | modules/core/BaseModule.ts:10-12 | the base `initialize` changes no state |
| Base.BaseModule.Cleanup | modules/core/BaseModule.ts:22-24 | the base `cleanup` changes no state |
| Base.BaseModule.GetState | modules/core/BaseModule.ts:18-20 | 'enabled' iff `config.enabled`, 'disabled' iff not; never 'loading' or 'error' |
| Base.AvailableIffEnabledState | modules/core/BaseModule.ts:14-20 | `isAvailable()` holds exactly when `getState()` is 'enabled' |
| Base.BaseModule.GetConfig | modules/core/BaseModule.ts:27-41 | the loop's result is the whole configuration for an empty key, otherwise the walk along the dot-separated segments |
| Base.BaseModule.GetSettings | modules/core/BaseModule.ts:27-41 | `getConfig('settings')` through the loop is the settings object or undefined |
| Base.BaseModule.GetSetting | modules/core/BaseModule.ts:27-41 | `getConfig('settings.' + name)` through the loop is the setting itself |
| Base.BaseModule.UpdateConfig | modules/core/BaseModule.ts:43-49 | the definition's configuration becomes the shallow merge of the old one with the partial one; the manifest is a constant field and cannot change |
| Base.BaseModule.GetModuleId | modules/core/BaseModule.ts:56-58 | the id is the manifest's id |
| Base.BaseModule.GetVersion | modules/core/BaseModule.ts:60-62 | the version is the manifest's version |
| ModuleTypes.Definition.constructor | modules/core/types.ts:28-31 | a definition object holds exactly the (manifest, config) pair it is built from |
| Merge.FallbackRegistry | modules/core/AutoModuleRegistry.ts:52-55 | a missing enable map is `{user: false, auth: false}` |
| Merge.TruthyKeysMembers | modules/core/AutoModuleRegistry.ts:28 | the filter keeps exactly the listed keys whose value is truthy |
| Merge.TruthyKeysDistinct | modules/core/AutoModuleRegistry.ts:28 | filtering distinct keys lists each kept key once |
| Merge.EnabledIdsMembers | modules/core/AutoModuleRegistry.ts:320-322 | the enabled ids are exactly the keys with a truthy value, each once |
| Merge.DefaultManifest | modules/core/AutoModuleRegistry.ts:241-248 | the default manifest: the id, the capitalised id, "Auto-discovered <id> module", version "1.0.0", no optional field |
| Merge.ManifestPatchWins | modules/core/AutoModuleRegistry.ts:241-248 | every field the discovered manifest supplies overrides the default, every other field keeps it |
| Merge.EmptyManifestKeepsDefault | modules/core/AutoModuleRegistry.ts:241-248 | an empty discovered manifest leaves the default as it is |
| Merge.Spread3 | modules/core/AutoModuleRegistry.ts:251-260 | the three-way spread holds every key of the three sources; the later source wins on a shared key |
| Merge.GlobalModuleConfig | modules/core/AutoModuleRegistry.ts:238 | a module without a per-module entry gets an empty override |
| Merge.BuildDefinition | modules/core/AutoModuleRegistry.ts:233-263 | the manifest is the default overridden by the discovered one; `enabled` holds iff the enable map has exactly `true` for the id; settings and features are always present |
| Merge.BuildDefinitionMerge | modules/core/AutoModuleRegistry.ts:250-260 | merged settings and features hold every key of the defaults, the per-module override and the module's own config; the module's own config wins over the override, which wins over the defaults |
| Merge.MissingSourcesActAsEmpty | modules/core/AutoModuleRegistry.ts:238-239 | a missing `moduleDefaults` or a missing `modules[id]` acts as an empty source |
| Merge.FallbackDefinition | modules/core/AutoModuleRegistry.ts:52-68 | under both fallback files no module is enabled and only the module's own config contributes settings and features |
| Loader.ModulePath | modules/core/AutoModuleRegistry.ts:182-195 | the path is empty exactly when there is no base directory |
| Loader.FilePathExtendsDirectory | modules/core/AutoModuleRegistry.ts:182-195 | a file path is the module directory's path followed by `/fileName` |
| Loader.ModuleHas | modules/core/AutoModuleRegistry.ts:123-157 | false when the directory is missing; otherwise true iff every listed file exists, so true for an empty list |
| Loader.ModuleHasAllAppend | modules/core/AutoModuleRegistry.ts:123-157 | an empty list needs only the directory; a concatenated list needs both parts |
| Loader.IndexWithOneExtensionIsMissedAsWritten | modules/core/AutoModuleRegistry.ts:212 | as written, a module with only `index.ts` has no index; the corrected test finds it |
| Loader.ArtifactPresentMeans | modules/core/AutoModuleRegistry.ts:197-231 | the corrected test finds an index iff the directory exists and `index.js` or `index.ts` does; other artifacts are checked as written; it accepts all the written test accepts |
| Loader.SafeStaticImportManifest | modules/core/AutoModuleRegistry.ts:197-231 | the manifest when `module.json` is there and imports, else `{}` |
| Loader.SafeStaticImportConfig | modules/core/AutoModuleRegistry.ts:197-231 | the module config when `config/<id>.json` is there and imports, else `{}` |
| Loader.IndexArtifactAsWrittenFindsLess | modules/core/AutoModuleRegistry.ts:210-231 | every index the written test finds the corrected one finds too, with the same constructors; with only `index.ts` the written test finds none and the corrected one finds the index |
| Loader.SafeStaticImportIndexAsWritten | modules/core/AutoModuleRegistry.ts:197-231 | as written: the constructor list only when both `index.js` and `index.ts` exist and the import yields one |
| Loader.SafeStaticImportIndex | modules/core/AutoModuleRegistry.ts:197-231 | the constructor list when an index file is there and imports, else none; nothing without the directory |
| Loader.ShippedIndexes | modules/user/index.ts:10-12 | the user and auth indexes each list their own module's constructor (also modules/auth/index.ts:9-11) |
| Priority.EffectivePriority | modules/core/AutoModuleRegistry.ts:270-273 | the `or 100` default: unset and 0 both count as 100, other values are themselves |
| Priority.SortByPrioritySortsAndPermutes | modules/core/AutoModuleRegistry.ts:269-274 | the sorted order is non-decreasing in priority and a permutation of the modules |
| Priority.SortByPriorityIsStable | modules/core/AutoModuleRegistry.ts:269-274 | entries of equal priority keep their insertion order |
| Priority.InsertSorted | modules/core/AutoModuleRegistry.ts:269-274 | inserting into a sorted order keeps it sorted |
| Priority.InsertPermutes | modules/core/AutoModuleRegistry.ts:269-274 | inserting adds exactly the one entry |
| Priority.InsertWithPriority | modules/core/AutoModuleRegistry.ts:269-274 | an inserted entry joins its priority class ahead of that class, moving only past entries of smaller priority |
| Registry.LoadsAsWrittenLoadsLess | modules/core/AutoModuleRegistry.ts:72-113 | every module the written `loadModule` registers the corrected one registers from the same index; a module with only `index.ts` is registered by the corrected one alone |
| Registry.AfterInitialize | modules/core/AutoModuleRegistry.ts:276-289 | a visited module ends enabled iff its `initialize` succeeded or it was enabled but not attempted; settings and features are kept |
| Registry.AfterInitializeNeverEnables | modules/core/AutoModuleRegistry.ts:276-289 | initialisation never enables a module, and never demotes the auth module, which is attempted only when its dependency is there |
| Registry.WithDemoUser | modules/user/UserModule.ts:25-54 | the demo user is added under `user_1` and made current, and every other user is kept |
| Registry.InitializeInstance | modules/core/AutoModuleRegistry.ts:276-289 | `initialize` runs only when the module is enabled and available; a module whose `initialize` throws ends disabled; a user module gains the demo user exactly when its `initialize` succeeded and asked for one |
| Registry.InitializeOne | modules/core/AutoModuleRegistry.ts:277-288 | one step changes only the configuration and user table of the module it visits |
| Registry.InitializeAt | modules/core/AutoModuleRegistry.ts:276-289 | the `i`-th step extends the record of the visit so far by that module's step |
| Registry.InitializeEach | modules/core/AutoModuleRegistry.ts:276-289 | after the loop every module is visited: the configurations and user tables are those of the step-by-step specification, and the ids that initialised are those whose `initialize` succeeded, in order |
| Registry.InitializedIdsMembers | modules/core/AutoModuleRegistry.ts:276-289 | an id is listed as initialised iff it was visited and its `initialize` succeeded |
| Registry.InitializedEndEnabled | modules/core/AutoModuleRegistry.ts:276-289 | every module whose `initialize` succeeded ends enabled |
| Registry.CleanupEach | modules/core/AutoModuleRegistry.ts:326-336 | the loop calls every `cleanup` in turn and reports which succeeded and which failed |
| Registry.CleanedIdsMembers | modules/core/AutoModuleRegistry.ts:326-336 | an id is reported under an outcome iff its module has a `cleanup` with that outcome |
| Registry.PermutationKeepsIdsDistinct | modules/core/AutoModuleRegistry.ts:269-274 | sorting never visits an id twice |
| Registry.IndexedDistinct | modules/core/AutoModuleRegistry.ts:102-103 | the registry's key order has no repeated id |
| Registry.SortedIdsRegistered | modules/core/AutoModuleRegistry.ts:269-289 | the sorted order visits every registered id exactly once |
| Registry.SortedIdsByPriority | modules/core/AutoModuleRegistry.ts:269-274 | the sorted order visits ids in non-decreasing effective priority |
| Registry.IndexedInsert | modules/core/AutoModuleRegistry.ts:102-103 | `Map.set` puts a new key at the end of the order and leaves an existing key in its place |
| Registry.OwnedInsert | modules/core/AutoModuleRegistry.ts:95-103 | registering a new instance keeps every definition object owned by its own id |
| Registry.AutoModuleRegistry.constructor | modules/core/AutoModuleRegistry.ts:12-17 | the registry starts with no modules, an empty enable map and an empty global configuration |
| Registry.AutoModuleRegistry.LoadModuleRegistry | modules/core/AutoModuleRegistry.ts:44-57 | the enable map is the file's contents, or `{user: false, auth: false}` when it cannot be loaded; nothing else changes |
| Registry.AutoModuleRegistry.LoadGlobalConfig | modules/core/AutoModuleRegistry.ts:59-70 | the global configuration is the file's contents, or `{moduleDefaults: {enabled: true}}`; nothing else changes |
| Registry.AutoModuleRegistry.NewInstance | modules/core/AutoModuleRegistry.ts:101 | `new ModuleConstructor(definition)` builds a fresh module of that kind on that definition object; a fresh user module has no users |
| Registry.AutoModuleRegistry.Register | modules/core/AutoModuleRegistry.ts:102-103 | the instance is stored under the id, a new key goes to the end of the order, and the definition table stays the table of the instances' own definitions |
| Registry.AutoModuleRegistry.LoadInstance | modules/core/AutoModuleRegistry.ts:94-104 | one constructor: a fresh definition and a fresh instance replace the id's entry; every other entry is kept |
| Registry.AutoModuleRegistry.LoadEach | modules/core/AutoModuleRegistry.ts:91-106 | after the constructor loop the id holds a fresh instance of the last constructor; every other entry is kept |
| Registry.AutoModuleRegistry.LoadModule | modules/core/AutoModuleRegistry.ts:72-113 | a missing directory or an index without constructors changes nothing; otherwise the id holds a fresh instance of the last constructor, built on the merged definition, and nothing else changes |
| Registry.AutoModuleRegistry.TryLoadModule | modules/core/AutoModuleRegistry.ts:32-38 | a failed load does not stop discovery; the id is registered exactly when it loads |
| Registry.AutoModuleRegistry.LoadEnabled | modules/core/AutoModuleRegistry.ts:32-38 | every enabled id that loads is registered and no other id is added |
| Registry.AutoModuleRegistry.DiscoverAndInitialize | modules/core/AutoModuleRegistry.ts:19-42 | the enable map and global configuration are the files or their fallbacks; only enabled ids are added; every enabled id that loads is registered; modules are visited in priority order; every module whose `initialize` succeeded ends enabled |
| Registry.AutoModuleRegistry.OrderDistinct | modules/core/AutoModuleRegistry.ts:102-103 | no id appears twice in the insertion order |
| Registry.AutoModuleRegistry.VisitOrder | modules/core/AutoModuleRegistry.ts:269-274 | the registered ids, each once, in non-decreasing effective priority |
| Registry.AutoModuleRegistry.InitializeModules | modules/core/AutoModuleRegistry.ts:265-292 | modules are visited in the stable priority order; the new configurations and user tables are those of the step-by-step specification, in which only modules whose `initialize` throws are demoted |
| Registry.AutoModuleRegistry.GetModule | modules/core/AutoModuleRegistry.ts:294-296 | the registered instance, or undefined when there is none |
| Registry.AutoModuleRegistry.IsModuleAvailable | modules/core/AutoModuleRegistry.ts:298-301 | true iff an instance is registered, enabled and reports itself available |
| Registry.AutoModuleRegistry.GetModuleState | modules/core/AutoModuleRegistry.ts:311-314 | a loaded module's own state; otherwise 'not-loaded' if the enable map's own value is truthy, or, without an own value, if the name is a member every object inherits (`constructor`, `toString`, ...); else 'disabled' |
| Merge.InheritedEntryIsTruthy | modules/core/AutoModuleRegistry.ts:313 | on an empty enable map `constructor` reads as truthy and `user` as falsy |
| Registry.AutoModuleRegistry.GetEnabledModules | modules/core/AutoModuleRegistry.ts:320-322 | exactly the ids with a truthy enable value, each once |
| Registry.AutoModuleRegistry.GetAllModules | modules/core/AutoModuleRegistry.ts:303-305 | the instances in insertion order |
| Registry.AutoModuleRegistry.GetAllModuleDefinitions | modules/core/AutoModuleRegistry.ts:307-309 | the definitions in insertion order, each the same object its instance holds |
| Registry.AutoModuleRegistry.CleanupAll | modules/core/AutoModuleRegistry.ts:324-340 | `cleanup` runs on every module that has one, in insertion order; failures do not stop the rest; both tables end empty |
| Users.Overwrite | modules/user/UserModule.ts:107-111 | only the supplied fields are overwritten and `updated_at` is refreshed; id, email and `created_at` are kept |
| Users.FirstViolationMeans | modules/user/UserModule.ts:168-192 | no violation is found iff every rule holds; otherwise the rule found is broken and all rules before it hold |
| Users.CheckPassword | modules/user/UserModule.ts:168-192 | the check rejects exactly when the policy is missing or null |
| Users.CheckPasswordReportsFirstViolation | modules/user/UserModule.ts:168-192 | the message is that of the first enabled rule the password breaks, in the order length, uppercase, lowercase, digit, special character; none when it meets them all |
| Users.CheckPasswordAccepts | modules/user/UserModule.ts:168-192 | a password is accepted exactly when it meets every rule the policy enables |
| Users.UserModule.constructor | modules/user/UserModule.ts:5-11 | a new user module has no users and no current user |
| Users.UserModule.Initialize | modules/user/UserModule.ts:13-23 | it fails exactly when the settings are missing; otherwise the demo user is inserted and made current iff `autoCreateDemoUser` is truthy, and nothing changes otherwise |
| Users.UserModule.InitializeDefaultUser | modules/user/UserModule.ts:25-54 | the demo user `user_1` is stored and made current |
| Users.UserModule.CreateUser | modules/user/UserModule.ts:57-93 | exactly one user is added, with the given names and email and `created_at == updated_at`; it becomes current only if none was; it rejects, changing nothing, without settings |
| Users.UserModule.GetUser | modules/user/UserModule.ts:95-97 | the stored user, or null when the id is absent |
| Users.UserModule.UpdateUser | modules/user/UserModule.ts:103-120 | an unknown id gives null and changes nothing; otherwise the stored user is overwritten with the supplied fields, and the current user is refreshed when it has that id |
| Users.UserModule.DeleteUser | modules/user/UserModule.ts:122-127 | true iff the id was present; afterwards it is absent and every other user is kept; the current user is cleared iff it had that id |
| Users.UserModule.GetUserStats | modules/user/UserModule.ts:142-153 | null for an unknown id, the fixed figures otherwise |
| Users.UserModule.ValidatePassword | modules/user/UserModule.ts:168-192 | the policy check applied to the module's `settings.passwordPolicy` |
| Users.UserModule.IsAvailable | modules/user/UserModule.ts:194-196 | equals `config.enabled`, since `users.size >= 0` always holds |
| Users.UserModule.IsBiometricAuthEnabled | modules/user/UserModule.ts:156-158 | the `biometricAuth` flag, or undefined |
| Users.UserModule.IsSocialLoginEnabled | modules/user/UserModule.ts:160-162 | the `socialLogin` flag, or undefined |
| Users.UserModule.IsTwoFactorAuthEnabled | modules/user/UserModule.ts:164-166 | the `twoFactorAuth` flag, or undefined |
| Auth.LockoutWindow | modules/auth/AuthModule.ts:199-205 | a lockout recorded at a non-zero time with a positive duration holds for exactly `duration` seconds |
| Auth.AttemptsOf | modules/auth/AuthModule.ts:39 | the stored count, or 0 when none is stored |
| Auth.LoginSucceedsWhen | modules/auth/AuthModule.ts:29-92 | a login succeeds iff the account is not locked, attempts are not exhausted, both credentials are given, the password is at least 6 UTF-16 code units long and `sessionTimeout` is a number giving an expiry inside the range of dates; the new session is then current and stored under its user id, and the email's attempts and lockout are deleted |
| Auth.LoginFailureKeepsSessions | modules/auth/AuthModule.ts:30-67 | a failed login leaves the sessions alone; a short password adds exactly 1 to the email's attempts; exhausted attempts record a lockout at `now` |
| Auth.LoginOutcomes | modules/auth/AuthModule.ts:30-92 | each check in order: a locked-out email gets the lockout message and nothing changes; exhausted attempts record a lockout at `now`; missing credentials change nothing; a password shorter than 6 UTF-16 units adds 1 to the attempts; past the checks the attempts and lockout are deleted and the login rejects iff the expiry date is invalid |
| Auth.LoginKeepsInvariants | modules/auth/AuthModule.ts:29-92 | login keeps the current session stored under its user id, and never counts attempts past a numeric `maxLoginAttempts` |
| Auth.RefreshKeepsInvariants | modules/auth/AuthModule.ts:163-179 | refresh is null without a session and changes nothing then; it renews only the current session's token, keeps attempts, lockouts and the session keys |
| Auth.RefreshOutcomes | modules/auth/AuthModule.ts:163-179 | null and no change without a session; the current token and no change with a falsy `tokenRefreshInterval`; otherwise the current session and its table entry get the new token and, when `now + sessionTimeout * 1000` is a valid date, that expiry and the new token as result; otherwise they keep the old expiry and the promise rejects |
| Auth.AuthModule.constructor | modules/auth/AuthModule.ts:9-17 | a new auth module has no sessions, attempts or lockouts |
| Auth.AuthModule.IsAvailable | modules/auth/AuthModule.ts:225-228 | the registry's answer about the user module, which is a parameter |
| Auth.AuthModule.Initialize | modules/auth/AuthModule.ts:19-27 | it throws exactly when the user module is not available |
| Auth.AuthModule.IsUserLockedOut | modules/auth/AuthModule.ts:199-205 | false without a recorded lockout or with time 0; otherwise true iff `now - lockoutTime < lockoutDuration * 1000` |
| Auth.AuthModule.LockoutUser | modules/auth/AuthModule.ts:207-209 | the lockout time of the email becomes `now`; nothing else changes |
| Auth.AuthModule.Login | modules/auth/AuthModule.ts:29-92 | the new state and the response are those of the login specification, whose properties are the lemmas above; the current session stays stored |
| Auth.AuthModule.Logout | modules/auth/AuthModule.ts:94-100 | always true; the current session is removed from the table and cleared; attempts and lockouts are kept |
| Auth.AuthModule.RefreshToken | modules/auth/AuthModule.ts:163-179 | the new state and the result are those of the refresh specification: null without a session, the unchanged token when `tokenRefreshInterval` is falsy, otherwise the new token in both the current session and the table |
| Auth.AuthModule.IsBiometricAuthAvailable | modules/auth/AuthModule.ts:182-184 | the `biometricAuth` flag, or undefined |
| Auth.AuthModule.IsTwoFactorAuthEnabled | modules/auth/AuthModule.ts:186-188 | the `twoFactorAuth` flag, or undefined |
| Auth.AuthModule.IsSocialLoginEnabled | modules/auth/AuthModule.ts:190-192 | the `socialLogin` flag, or undefined |

## Left out

- File system and dynamic imports:
  - Expo's `FileSystem` becomes a snapshot: the document directory, the existing directories and files.
  - `require` and `dynamicImport` become a table of what each import yields. An id absent from the table is an import that fails, which `safeStaticImport` turns into `{}`.
  - `module.default || module` is not modelled separately.
- Asynchrony, `Promise.all` and `console` logging: the three artifact imports run one after the other, and logs are dropped.
- Exceptions are `Outcome.Rejected` or a `false` result. Nothing in this model makes `loadModule` throw, so the `try/catch` of discovery (`TryLoadModule`) has no error path to take.
- `moduleDefinitions` is not a second stored map. Each of its entries is the definition object of the instance under the same key, so it is read off the instances (`GetAllModuleDefinitions`).
- Clocks and randomness are parameters:
  - `Date.now()` and `new Date().toISOString()` become `nat` millisecond readings.
  - `Math.random` ids and `generateToken` become string parameters.
  - The one-second wait of `login` becomes the second clock reading `later`.
- Configuration values are JSON values without arrays. Functions are not values.
- Json.DigFoundMeansObjects: a walk reads only the own keys of objects. Properties of primitives, such as a string's `length`, and members inherited from `Object.prototype` are not modelled; the configuration keys the modules read are plain names.
- Base.BaseModule.GetConfig: has the same limit as `Json.Dig`: no primitive properties and no inherited members.
- Clock readings are taken to lie inside the range of dates, so `new Date()` always formats. Only the computed expiry `now + sessionTimeout * 1000` is checked against that range.
- A session's `deviceInfo` field is not modelled, because `getDeviceInfo` reads the platform.
- `Number(...)` coercion is simplified:
  - Only the empty string and strings of decimal digits are numeric; every other string is NaN.
  - Floating point is not modelled.
- Upper-casing is ASCII only.
- The enable map's keys are assumed distinct, as an object's are; their order is the order of `Object.keys`.
- Feature flags are taken to be booleans, as the type declares.
- Third-party modules are described by their behaviour: dependency present, `initialize` throws, cleanup absent, succeeding or throwing. Their state is the base one.
- `AuthModule.isAvailable` and `getUserModule` ask `../core/ModuleRegistry`, which is not part of this model. Availability is a parameter.
- `AuthModule.register`, `isAuthenticated` and `getDeviceInfo` are not modelled. They depend on `../core/ModuleRegistry`, on date comparisons or on the platform.
- `UserModule.updatePreferences` is not modelled. It uses a type and a field that `User` does not declare.
- `getCurrentUser`, `getCurrentSession`, `getManifest` and `getModuleRegistry` are plain field reads without contracts.
- The UI, `store/database.ts` and `modules/core/sync.js` are not part of this model.
- Loader.SafeStaticImportIndex: uses the corrected index test of the Findings table, so it finds an index that is only `index.ts`, which the source skips. `Loader.SafeStaticImportIndexAsWritten` is the written test.
- Registry.AutoModuleRegistry.LoadModule: loads through the corrected index test, so it registers a module that has only `index.ts`, which the source does not. `Registry.LoadsAsWrittenLoadsLess` states how the written test differs.
- Registry.AutoModuleRegistry.DiscoverAndInitialize: uses the corrected index test too. It states which ids end registered, the visit order and that initialised modules end enabled. For the full new configurations it relies on `InitializeModules` rather than restating them.
- Registry.AutoModuleRegistry.LoadEnabled: uses the corrected index test. It states which ids are registered, not which instance each holds. `LoadModule` states that.
- Registry.AutoModuleRegistry.TryLoadModule: uses the corrected index test. It states which ids are registered, not which instance each holds. `LoadModule` states that.
- Users.UserModule.InitializeDefaultUser: does not re-read the settings, because its only caller, `Initialize`, has just checked that they exist. The commented-out preference code around it is not modelled.
- Users.UserModule.CreateUser: the `username` of the input is not stored, as in the source. The destructuring of `defaultCurrency` and `defaultLanguage` is modelled only as the rejection when the settings are missing.
- Auth.AuthModule.Login: a non-numeric `sessionTimeout`, or one that puts the expiry outside the range of dates, makes the login reject, because `toISOString` throws. At that point the email's attempts and lockout have already been deleted.

## Findings

| source | as written | input that shows it | evidently intended | confidence | as-written member | corrected member |
|---|---|---|---|---|---|---|
| modules/core/AutoModuleRegistry.ts:212 | `safeStaticImport(id, 'index')` calls `moduleHas` with both `index.js` and `index.ts`, and `moduleHas` demands every listed file, so an index is found only when both files exist | a module directory whose only index file is `index.ts` (`Loader.TypeScriptOnlyModule`): the written test finds no index, so the source never loads it; the registry in this model uses the corrected test and loads it | the index may have either of the common extensions | not executed | Loader.IndexWithOneExtensionIsMissedAsWritten | Loader.ArtifactPresentMeans |
