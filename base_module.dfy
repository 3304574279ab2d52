/** The behaviour every module inherits: availability and state derived from
    `config.enabled`, dot-path configuration reads and shallow configuration updates. */
module Base {
  import opened Wrappers
  import opened Json
  import opened ModuleTypes
  import Text

  /** The configuration as the JavaScript object `getConfig` walks:
      `{enabled, settings?, features?}`. */
  function ConfigObject(c: ModuleConfig): map<string, Value> {
    EnabledSlot(Some(c.enabled)) + SettingsSlot(c.settings) + FeaturesSlot(c.features)
  }

  function EnabledSlot(b: Option<bool>): (m: map<string, Value>)
    ensures m.Keys <= {"enabled"}
  {
    if b.Some? then map["enabled" := Bool(b.value)] else map[]
  }

  function SettingsSlot(s: Option<map<string, Value>>): (m: map<string, Value>)
    ensures m.Keys <= {"settings"}
  {
    if s.Some? then map["settings" := Obj(s.value)] else map[]
  }

  function FeaturesSlot(f: Option<map<string, bool>>): (m: map<string, Value>)
    ensures m.Keys <= {"features"}
  {
    if f.Some? then map["features" := FeaturesObject(f.value)] else map[]
  }

  function FeaturesObject(f: map<string, bool>): Value {
    Obj(map k | k in f :: Bool(f[k]))
  }

  /** `getConfig(key)`: the whole configuration for an empty key, otherwise the walk
      along the key's dot-separated segments. */
  function Lookup(c: ModuleConfig, key: string): Option<Value> {
    if key == "" then Some(Obj(ConfigObject(c)))
    else Dig(Obj(ConfigObject(c)), Text.Split(key, '.'))
  }

  /** The value of setting `name`, read directly from the settings map. */
  function Setting(c: ModuleConfig, name: string): Option<Value> {
    if c.settings.Some? && name in c.settings.value then Some(c.settings.value[name]) else None
  }

  /** The value of feature flag `name`, read directly from the features map. */
  function Feature(c: ModuleConfig, name: string): Option<bool> {
    if c.features.Some? && name in c.features.value then Some(c.features.value[name]) else None
  }

  /** A feature flag as the value `getConfig` hands back. */
  function FlagValue(f: Option<bool>): Option<Value> {
    if f.Some? then Some(Bool(f.value)) else None
  }

  /** A two-segment key walks into one section of the configuration. */
  lemma TwoSegmentKey(section: string, name: string)
    requires '.' !in section && '.' !in name
    ensures Text.Split(section + "." + name, '.') == [section, name]
  {
    Text.SplitAtFirstSeparator(section, '.', name);
    Text.SplitWithoutSeparator(name, '.');
    assert section + "." + name == section + ['.'] + name;
  }

  /** `getConfig("settings.<name>")` is the setting itself, or undefined when the
      settings or the key are missing. */
  lemma LookupSetting(c: ModuleConfig, name: string)
    requires '.' !in name
    ensures Lookup(c, "settings." + name) == Setting(c, name)
  {
    var key := "settings." + name;
    assert key == "settings" + "." + name;
    assert key != "" by { assert |key| > 0; }
    TwoSegmentKey("settings", name);
    var path := ["settings", name];
    assert path[1..] == [name];
    var o := ConfigObject(c);
    assert Lookup(c, key) == Dig(Obj(o), path);
    if c.settings.Some? {
      assert "settings" in o && o["settings"] == Obj(c.settings.value);
      assert Dig(Obj(o), path) == Dig(Obj(c.settings.value), [name]);
      assert [name][1..] == [];
      if name in c.settings.value {
        assert Dig(Obj(c.settings.value), [name]) == Dig(c.settings.value[name], []);
      }
    } else {
      assert "settings" !in o;
    }
  }

  /** `getConfig("features.<name>")` is the flag itself, or undefined when the
      features or the key are missing. */
  lemma LookupFeature(c: ModuleConfig, name: string)
    requires '.' !in name
    ensures Lookup(c, "features." + name) == FlagValue(Feature(c, name))
  {
    var key := "features." + name;
    assert key == "features" + "." + name;
    assert key != "" by { assert |key| > 0; }
    TwoSegmentKey("features", name);
    var path := ["features", name];
    assert path[1..] == [name];
    var o := ConfigObject(c);
    assert Lookup(c, key) == Dig(Obj(o), path);
    if c.features.Some? {
      assert "features" in o && o["features"] == FeaturesObject(c.features.value);
      assert Dig(Obj(o), path) == Dig(FeaturesObject(c.features.value), [name]);
      assert [name][1..] == [];
      var fo := map k | k in c.features.value :: Bool(c.features.value[k]);
      if name in c.features.value {
        assert name in fo;
        assert Dig(Obj(fo), [name]) == Dig(fo[name], []);
      } else {
        assert name !in fo;
      }
    } else {
      assert "features" !in o;
    }
  }

  /** `getConfig(name)` for a key without a dot: one property of the configuration object. */
  function SectionValue(c: ModuleConfig, name: string): (r: Option<Value>)
    requires '.' !in name && name != ""
    ensures r == Member(Obj(ConfigObject(c)), name)
  {
    Text.SplitWithoutSeparator(name, '.');
    assert [name][1..] == [];
    var m := Member(Obj(ConfigObject(c)), name);
    assert Dig(Obj(ConfigObject(c)), [name]) == if m.Some? then Dig(m.value, []) else None;
    Lookup(c, name)
  }

  /** `getConfig('settings')`: the settings object, or undefined when there are none. */
  function SettingsValue(c: ModuleConfig): (r: Option<Value>)
    ensures r == if c.settings.Some? then Some(Obj(c.settings.value)) else None
  {
    var o := ConfigObject(c);
    assert "settings" in o <==> c.settings.Some?;
    assert c.settings.Some? ==> o["settings"] == Obj(c.settings.value);
    SectionValue(c, "settings")
  }

  /** `getConfig('settings.' + name)`: the setting itself. */
  function SettingValue(c: ModuleConfig, name: string): (r: Option<Value>)
    requires '.' !in name
    ensures r == Setting(c, name)
  {
    LookupSetting(c, name);
    Lookup(c, "settings." + name)
  }

  /** `getConfig('features.' + name)`: the flag itself. */
  function FeatureValue(c: ModuleConfig, name: string): (r: Option<Value>)
    requires '.' !in name
    ensures r == FlagValue(Feature(c, name))
  {
    LookupFeature(c, name);
    Lookup(c, "features." + name)
  }

  /** `{...c, ...p}`: every key `p` supplies replaces the old value; the others stay. */
  function ApplyPartial(c: ModuleConfig, p: PartialConfig): (r: ModuleConfig)
    ensures p.enabled.Some? ==> r.enabled == p.enabled.value
    ensures p.enabled.None? ==> r.enabled == c.enabled
    ensures p.settings.Some? ==> r.settings == p.settings
    ensures p.settings.None? ==> r.settings == c.settings
    ensures p.features.Some? ==> r.features == p.features
    ensures p.features.None? ==> r.features == c.features
  {
    ModuleConfig(
      if p.enabled.Some? then p.enabled.value else c.enabled,
      if p.settings.Some? then p.settings else c.settings,
      if p.features.Some? then p.features else c.features)
  }

  /** The keys a partial configuration supplies, as a JavaScript object. */
  function PartialObject(p: PartialConfig): map<string, Value> {
    EnabledSlot(p.enabled) + SettingsSlot(p.settings) + FeaturesSlot(p.features)
  }

  /** `ApplyPartial` is exactly the object spread `{...config, ...partial}`. */
  lemma ApplyPartialIsSpread(c: ModuleConfig, p: PartialConfig)
    ensures ConfigObject(ApplyPartial(c, p)) == ConfigObject(c) + PartialObject(p)
  {
    var n := ApplyPartial(c, p);
    SpreadByKey(EnabledSlot(Some(c.enabled)), SettingsSlot(c.settings), FeaturesSlot(c.features),
                EnabledSlot(p.enabled), SettingsSlot(p.settings), FeaturesSlot(p.features));
    if p.enabled.Some? {
      MapOverride(EnabledSlot(Some(c.enabled)), EnabledSlot(p.enabled));
    } else {
      assert EnabledSlot(Some(c.enabled)) + EnabledSlot(p.enabled) == EnabledSlot(Some(c.enabled));
    }
    if p.settings.Some? {
      MapOverride(SettingsSlot(c.settings), SettingsSlot(p.settings));
    } else {
      assert SettingsSlot(c.settings) + SettingsSlot(p.settings) == SettingsSlot(c.settings);
    }
    if p.features.Some? {
      MapOverride(FeaturesSlot(c.features), FeaturesSlot(p.features));
    } else {
      assert FeaturesSlot(c.features) + FeaturesSlot(p.features) == FeaturesSlot(c.features);
    }
  }

  lemma MapOverride<V>(a: map<string, V>, b: map<string, V>)
    requires a.Keys <= b.Keys
    ensures a + b == b
  {
  }

  /** Spreading objects whose keys fall into three separate slots spreads slot by slot. */
  lemma SpreadByKey<V>(e: map<string, V>, s: map<string, V>, f: map<string, V>,
                       e': map<string, V>, s': map<string, V>, f': map<string, V>)
    requires e.Keys <= {"enabled"} && e'.Keys <= {"enabled"}
    requires s.Keys <= {"settings"} && s'.Keys <= {"settings"}
    requires f.Keys <= {"features"} && f'.Keys <= {"features"}
    ensures (e + s + f) + (e' + s' + f') == (e + e') + (s + s') + (f + f')
  {
    calc {
      (e + s + f) + (e' + s' + f');
      { SpreadAssociates(e + s + f, e' + s', f'); SpreadAssociates(e + s + f, e', s'); }
      (e + s + f) + e' + s' + f';
      { SpreadSwaps(e + s, f, e'); SpreadSwaps(e, s, e'); }
      (e + e' + s + f) + s' + f';
      { SpreadSwaps(e + e' + s, f, s'); }
      (e + e' + s + s' + f) + f';
      { SpreadAssociates(e + e', s, s'); SpreadAssociates(e + e' + s + s', f, f');
        SpreadAssociates(e + e', s + s', f + f'); }
      (e + e') + (s + s') + (f + f');
    }
  }

  /** Spreading is associative. */
  lemma SpreadAssociates<V>(a: map<string, V>, b: map<string, V>, c: map<string, V>)
    ensures a + (b + c) == (a + b) + c
  {
  }

  /** Two objects with no key in common can be spread in either order. */
  lemma SpreadSwaps<V>(a: map<string, V>, b: map<string, V>, c: map<string, V>)
    requires b.Keys !! c.Keys
    ensures (a + b) + c == (a + c) + b
  {
  }


  /** The part of a module the subclasses inherit: it owns its definition object. */
  class BaseModule {
    const definition: Definition

    constructor (definition: Definition)
      ensures this.definition == definition
    {
      this.definition := definition;
    }

    /** `initialize()` of the base class only logs. */
    method Initialize()
      ensures unchanged(definition)
    {
    }

    /** `cleanup()` of the base class only logs. */
    method Cleanup()
      ensures unchanged(definition)
    {
    }

    predicate IsAvailable()
      reads definition
    {
      definition.config.enabled
    }

    /** 'enabled' or 'disabled' from the flag; never 'loading' or 'error'. */
    function GetState(): (s: ModuleState)
      reads definition
      ensures s == Enabled <==> definition.config.enabled
      ensures s == Disabled <==> !definition.config.enabled
      ensures !s.Loading? && !s.Error?
    {
      if definition.config.enabled then Enabled else Disabled
    }

    /** The walk of `getConfig`, one segment at a time. */
    method GetConfig(key: string) returns (value: Option<Value>)
      ensures value == Lookup(definition.config, key)
    {
      var whole := Obj(ConfigObject(definition.config));
      if key == "" {
        return Some(whole);
      }
      var keys := Text.Split(key, '.');
      value := Some(whole);
      var i := 0;
      while i < |keys|
        invariant 0 <= i <= |keys|
        invariant value.Some? ==> Dig(whole, keys) == Dig(value.value, keys[i..])
        invariant value.None? ==> Dig(whole, keys) == None
      {
        assert keys[i..][0] == keys[i] && keys[i..][1..] == keys[i + 1..];
        value := if value.Some? then Member(value.value, keys[i]) else None;
        if value.None? {
          break;
        }
        i := i + 1;
      }
    }

    /** `getConfig('settings')`, run through the walk above. */
    method GetSettings() returns (value: Option<Value>)
      ensures value == if definition.config.settings.Some? then Some(Obj(definition.config.settings.value)) else None
    {
      value := GetConfig("settings");
      assert value == SettingsValue(definition.config);
    }

    /** `getConfig('settings.' + name)`, run through the walk above. */
    method GetSetting(name: string) returns (value: Option<Value>)
      requires '.' !in name
      ensures value == Setting(definition.config, name)
    {
      value := GetConfig("settings." + name);
      LookupSetting(definition.config, name);
    }

    /** `updateConfig(p)` replaces the configuration with the shallow merge. */
    method UpdateConfig(p: PartialConfig)
      modifies definition
      ensures definition.config == ApplyPartial(old(definition.config), p)
    {
      definition.config := ApplyPartial(definition.config, p);
    }

    function GetManifest(): Manifest {
      definition.manifest
    }

    function GetModuleId(): (id: string)
      ensures id == GetManifest().id
    {
      definition.manifest.id
    }

    function GetVersion(): (v: string)
      ensures v == GetManifest().version
    {
      definition.manifest.version
    }
  }

  /** Availability and state agree: a base module is available exactly when it
      reports 'enabled'. */
  lemma AvailableIffEnabledState(m: BaseModule)
    ensures m.IsAvailable() <==> m.GetState() == Enabled
  {
  }
}
