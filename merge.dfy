/** What the registry reads from its configuration files, and `buildModuleDefinition`:
    a default manifest overridden by the discovered one, and a three-way shallow merge
    of settings and of features. */
module Merge {
  import opened Wrappers
  import opened Json
  import opened ModuleTypes
  import Text

  /** A discovered `module.json`: any of the manifest's keys may be present.
      A manifest that could not be loaded is `{}`, which is `EmptyManifestPatch`. */
  datatype ManifestPatch = ManifestPatch(
    id: Option<string>,
    name: Option<string>,
    description: Option<string>,
    version: Option<string>,
    author: Option<string>,
    repository: Option<string>,
    dependencies: Option<seq<string>>,
    priority: Option<int>,
    requirements: Option<seq<string>>,
    permissions: Option<seq<string>>,
    tags: Option<seq<string>>)

  const EmptyManifestPatch := ManifestPatch(None, None, None, None, None, None, None, None, None, None, None)

  /** The `settings` and `features` of a configuration source; each may be missing. */
  datatype ConfigPatch = ConfigPatch(
    settings: Option<map<string, Value>>,
    features: Option<map<string, bool>>)

  const EmptyConfigPatch := ConfigPatch(None, None)

  /** The global `modules/config/modules.json`: defaults for every module and
      per-module overrides. */
  datatype GlobalConfig = GlobalConfig(
    moduleDefaults: Option<ConfigPatch>,
    modules: Option<map<string, ConfigPatch>>)

  /** What `loadGlobalConfig` uses when the file is missing: `{moduleDefaults: {enabled: true}}`,
      whose `enabled` key no merge reads. */
  const FallbackGlobalConfig := GlobalConfig(Some(EmptyConfigPatch), None)

  /** `modules/modules.json`: module ids with their enable values, in key order. */
  datatype EnableMap = EnableMap(order: seq<string>, flags: map<string, Value>)

  /** The truthiness of `moduleRegistry[name]`: the own value when the object has one,
      otherwise the inherited `Object.prototype` member of that name, if any. */
  predicate EntryTruthy(m: EnableMap, name: string) {
    if name in m.flags then Truthy(m.flags[name]) else name in ObjectPrototypeMembers
  }

  /** An empty registry still answers truthily for `constructor`, which every object
      inherits, and falsily for an ordinary id such as `user`. */
  lemma InheritedEntryIsTruthy()
    ensures EntryTruthy(EnableMap([], map[]), "constructor")
    ensures !EntryTruthy(EnableMap([], map[]), "user")
  {
    assert "constructor" in ObjectPrototypeMembers;
  }

  predicate Distinct(s: seq<string>) {
    forall i, j :: 0 <= i < j < |s| ==> s[i] != s[j]
  }

  /** Each key listed once, and exactly the keys of the object. */
  predicate WellFormedEnableMap(m: EnableMap) {
    Distinct(m.order) && (set k | k in m.order) == m.flags.Keys
  }

  type ModuleRegistry = m: EnableMap | WellFormedEnableMap(m)
    witness EnableMap([], map[])

  /** What `loadModuleRegistry` uses when the file is missing: `{user: false, auth: false}`. */
  function FallbackRegistry(): (r: ModuleRegistry)
    ensures r.order == ["user", "auth"]
    ensures r.flags == map["user" := Bool(false), "auth" := Bool(false)]
  {
    EnableMap(["user", "auth"], map["user" := Bool(false), "auth" := Bool(false)])
  }

  /** `Object.keys(registry).filter(id => registry[id])`. */
  function EnabledIds(m: EnableMap): seq<string> {
    TruthyKeys(m.order, m.flags)
  }

  function TruthyKeys(keys: seq<string>, flags: map<string, Value>): seq<string>
    decreases |keys|
  {
    if |keys| == 0 then []
    else
      (if keys[0] in flags && Truthy(flags[keys[0]]) then [keys[0]] else [])
      + TruthyKeys(keys[1..], flags)
  }

  /** The filter keeps exactly the listed keys with a truthy value. */
  lemma {:induction false} TruthyKeysMembers(keys: seq<string>, flags: map<string, Value>)
    ensures forall k :: k in TruthyKeys(keys, flags) <==> k in keys && k in flags && Truthy(flags[k])
    decreases |keys|
  {
    if |keys| > 0 {
      TruthyKeysMembers(keys[1..], flags);
      assert keys == [keys[0]] + keys[1..];
    }
  }

  /** A filter of distinct keys lists each kept key once. */
  lemma {:induction false} TruthyKeysDistinct(keys: seq<string>, flags: map<string, Value>)
    requires Distinct(keys)
    ensures Distinct(TruthyKeys(keys, flags))
    decreases |keys|
  {
    if |keys| > 0 {
      assert Distinct(keys[1..]) by {
        forall i, j | 0 <= i < j < |keys[1..]| ensures keys[1..][i] != keys[1..][j] {
          assert keys[1..][i] == keys[i + 1] && keys[1..][j] == keys[j + 1];
        }
      }
      TruthyKeysDistinct(keys[1..], flags);
      TruthyKeysMembers(keys[1..], flags);
      assert keys[0] !in keys[1..] by {
        forall i | 0 <= i < |keys[1..]| ensures keys[1..][i] != keys[0] {
          assert keys[1..][i] == keys[i + 1];
        }
      }
      var head := if keys[0] in flags && Truthy(flags[keys[0]]) then [keys[0]] else [];
      var tail := TruthyKeys(keys[1..], flags);
      forall i, j | 0 <= i < j < |head + tail| ensures (head + tail)[i] != (head + tail)[j] {
        if i < |head| {
          assert (head + tail)[j] == tail[j - |head|];
        } else {
          assert (head + tail)[i] == tail[i - |head|] && (head + tail)[j] == tail[j - |head|];
        }
      }
    }
  }

  /** `getEnabledModules()` lists exactly the keys whose registry value is truthy, and
      each once when the keys are distinct, as an object's are. */
  lemma EnabledIdsMembers(m: EnableMap)
    ensures forall id :: id in EnabledIds(m) <==> id in m.order && id in m.flags && Truthy(m.flags[id])
    ensures Distinct(m.order) ==> Distinct(EnabledIds(m))
  {
    assert EnabledIds(m) == TruthyKeys(m.order, m.flags);
    TruthyKeysMembers(m.order, m.flags);
    if Distinct(m.order) {
      TruthyKeysDistinct(m.order, m.flags);
    }
  }

  /** The manifest every module starts from: the id, the id with its first letter
      upper-cased, a generated description and version 1.0.0. */
  function DefaultManifest(id: string): (m: Manifest)
    ensures m.id == id && m.name == Text.Capitalize(id)
    ensures m.description == "Auto-discovered " + id + " module" && m.version == "1.0.0"
    ensures m.author.None? && m.repository.None? && m.dependencies.None? && m.priority.None?
    ensures m.requirements.None? && m.permissions.None? && m.tags.None?
  {
    Manifest(id, Text.Capitalize(id), "Auto-discovered " + id + " module", "1.0.0",
             None, None, None, None, None, None, None)
  }

  function Override<T>(base: T, patch: Option<T>): T {
    if patch.Some? then patch.value else base
  }

  function OverrideOpt<T>(base: Option<T>, patch: Option<T>): Option<T> {
    if patch.Some? then patch else base
  }

  /** `{...base, ...patch}` on manifests. */
  function ApplyManifestPatch(base: Manifest, patch: ManifestPatch): Manifest {
    Manifest(
      Override(base.id, patch.id),
      Override(base.name, patch.name),
      Override(base.description, patch.description),
      Override(base.version, patch.version),
      OverrideOpt(base.author, patch.author),
      OverrideOpt(base.repository, patch.repository),
      OverrideOpt(base.dependencies, patch.dependencies),
      OverrideOpt(base.priority, patch.priority),
      OverrideOpt(base.requirements, patch.requirements),
      OverrideOpt(base.permissions, patch.permissions),
      OverrideOpt(base.tags, patch.tags))
  }

  /** Every field the discovered manifest supplies wins; every other field keeps the
      default. */
  lemma ManifestPatchWins(base: Manifest, patch: ManifestPatch)
    ensures var m := ApplyManifestPatch(base, patch);
      && (patch.id.Some? ==> m.id == patch.id.value) && (patch.id.None? ==> m.id == base.id)
      && (patch.name.Some? ==> m.name == patch.name.value) && (patch.name.None? ==> m.name == base.name)
      && (patch.description.Some? ==> m.description == patch.description.value)
      && (patch.description.None? ==> m.description == base.description)
      && (patch.version.Some? ==> m.version == patch.version.value) && (patch.version.None? ==> m.version == base.version)
      && (patch.author.Some? ==> m.author == patch.author) && (patch.author.None? ==> m.author == base.author)
      && (patch.repository.Some? ==> m.repository == patch.repository)
      && (patch.repository.None? ==> m.repository == base.repository)
      && (patch.dependencies.Some? ==> m.dependencies == patch.dependencies)
      && (patch.dependencies.None? ==> m.dependencies == base.dependencies)
      && (patch.priority.Some? ==> m.priority == patch.priority) && (patch.priority.None? ==> m.priority == base.priority)
      && (patch.requirements.Some? ==> m.requirements == patch.requirements)
      && (patch.requirements.None? ==> m.requirements == base.requirements)
      && (patch.permissions.Some? ==> m.permissions == patch.permissions)
      && (patch.permissions.None? ==> m.permissions == base.permissions)
      && (patch.tags.Some? ==> m.tags == patch.tags) && (patch.tags.None? ==> m.tags == base.tags)
  {
  }

  /** An empty discovered manifest leaves the default as it is. */
  lemma EmptyManifestKeepsDefault(id: string)
    ensures ApplyManifestPatch(DefaultManifest(id), EmptyManifestPatch) == DefaultManifest(id)
  {
  }

  /** `{...a, ...b, ...c}` where a missing source spreads nothing. */
  function Spread3<V>(a: Option<map<string, V>>, b: Option<map<string, V>>, c: Option<map<string, V>>): (r: map<string, V>)
    ensures forall k :: k in r <==> (a.Some? && k in a.value) || (b.Some? && k in b.value) || (c.Some? && k in c.value)
    ensures forall k | k in r ::
              r[k] == if c.Some? && k in c.value then c.value[k]
                      else if b.Some? && k in b.value then b.value[k]
                      else a.value[k]
  {
    a.GetOr(map[]) + b.GetOr(map[]) + c.GetOr(map[])
  }

  /** `globalConfig.moduleDefaults || {}`. */
  function ModuleDefaults(g: GlobalConfig): ConfigPatch {
    g.moduleDefaults.GetOr(EmptyConfigPatch)
  }

  /** `globalConfig.modules?.[id] || {}`. */
  function GlobalModuleConfig(g: GlobalConfig, id: string): (p: ConfigPatch)
    ensures (g.modules.None? || id !in g.modules.value) ==> p == EmptyConfigPatch
  {
    if g.modules.Some? && id in g.modules.value then g.modules.value[id] else EmptyConfigPatch
  }

  /** `buildModuleDefinition(id, manifest, config)` under the loaded global
      configuration and registry. */
  function BuildDefinition(id: string, manifest: ManifestPatch, config: ConfigPatch,
                           global: GlobalConfig, registry: EnableMap): (d: ModuleDefinition)
    ensures d.manifest == ApplyManifestPatch(DefaultManifest(id), manifest)
    ensures d.config.enabled <==> id in registry.flags && registry.flags[id] == Bool(true)
    ensures d.config.settings.Some? && d.config.features.Some?
  {
    var defaults := ModuleDefaults(global);
    var globalModuleConfig := GlobalModuleConfig(global, id);
    ModuleDefinition(
      ApplyManifestPatch(DefaultManifest(id), manifest),
      ModuleConfig(
        id in registry.flags && registry.flags[id] == Bool(true),
        Some(Spread3(defaults.settings, globalModuleConfig.settings, config.settings)),
        Some(Spread3(defaults.features, globalModuleConfig.features, config.features))))
  }

  /** The merged settings and features hold every key of the three sources; on a key
      found in several the module's own config wins over the per-module override,
      which wins over the defaults. */
  lemma BuildDefinitionMerge(id: string, manifest: ManifestPatch, config: ConfigPatch,
                             global: GlobalConfig, registry: EnableMap, k: string)
    ensures var d := BuildDefinition(id, manifest, config, global, registry);
            var a := ModuleDefaults(global);
            var b := GlobalModuleConfig(global, id);
            && (k in d.config.settings.value <==>
                  (a.settings.Some? && k in a.settings.value) || (b.settings.Some? && k in b.settings.value)
                  || (config.settings.Some? && k in config.settings.value))
            && (config.settings.Some? && k in config.settings.value ==>
                  d.config.settings.value[k] == config.settings.value[k])
            && (!(config.settings.Some? && k in config.settings.value) && b.settings.Some? && k in b.settings.value ==>
                  d.config.settings.value[k] == b.settings.value[k])
            && (!(config.settings.Some? && k in config.settings.value) && !(b.settings.Some? && k in b.settings.value)
                && a.settings.Some? && k in a.settings.value ==>
                  d.config.settings.value[k] == a.settings.value[k])
            && (k in d.config.features.value <==>
                  (a.features.Some? && k in a.features.value) || (b.features.Some? && k in b.features.value)
                  || (config.features.Some? && k in config.features.value))
            && (config.features.Some? && k in config.features.value ==>
                  d.config.features.value[k] == config.features.value[k])
            && (!(config.features.Some? && k in config.features.value) && b.features.Some? && k in b.features.value ==>
                  d.config.features.value[k] == b.features.value[k])
            && (!(config.features.Some? && k in config.features.value) && !(b.features.Some? && k in b.features.value)
                && a.features.Some? && k in a.features.value ==>
                  d.config.features.value[k] == a.features.value[k])
  {
  }

  /** A missing `moduleDefaults`, and a missing `modules` entry, act as empty sources. */
  lemma MissingSourcesActAsEmpty(id: string, manifest: ManifestPatch, config: ConfigPatch,
                                 global: GlobalConfig, registry: EnableMap)
    requires global.modules.None? || id !in global.modules.value
    ensures BuildDefinition(id, manifest, config, global, registry)
            == BuildDefinition(id, manifest, config, GlobalConfig(global.moduleDefaults, Some(map[])), registry)
    ensures BuildDefinition(id, manifest, config, GlobalConfig(None, global.modules), registry)
            == BuildDefinition(id, manifest, config, GlobalConfig(Some(EmptyConfigPatch), global.modules), registry)
  {
  }

  /** Under the fallback files no module is enabled, and only the module's own config
      contributes settings and features. */
  lemma FallbackDefinition(id: string, manifest: ManifestPatch, config: ConfigPatch)
    ensures var d := BuildDefinition(id, manifest, config, FallbackGlobalConfig, FallbackRegistry());
            && !d.config.enabled
            && d.config.settings == Some(config.settings.GetOr(map[]))
            && d.config.features == Some(config.features.GetOr(map[]))
  {
    var d := BuildDefinition(id, manifest, config, FallbackGlobalConfig, FallbackRegistry());
    assert d.config.settings.value == config.settings.GetOr(map[]);
    assert d.config.features.value == config.features.GetOr(map[]);
  }
}
