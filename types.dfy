/** The module contract's data: manifest, configuration, definition, state, and
    the constructors an entry point exports. */
module ModuleTypes {
  import opened Wrappers
  import opened Json

  /** Identity metadata. `id`, `name`, `description` and `version` are always
      present; every other field is optional. */
  datatype Manifest = Manifest(
    id: string,
    name: string,
    description: string,
    version: string,
    author: Option<string>,
    repository: Option<string>,
    dependencies: Option<seq<string>>,
    priority: Option<int>,
    requirements: Option<seq<string>>,  // `requires` in the manifest (a Dafny keyword)
    permissions: Option<seq<string>>,
    tags: Option<seq<string>>)

  /** Runtime configuration: `enabled` is always there; `settings` holds free-form
      values and `features` maps flags to booleans, both optional. */
  datatype ModuleConfig = ModuleConfig(
    enabled: bool,
    settings: Option<map<string, Value>>,
    features: Option<map<string, bool>>)

  /** `Partial<ModuleConfig>`: the argument of `updateConfig`, every key optional. */
  datatype PartialConfig = PartialConfig(
    enabled: Option<bool>,
    settings: Option<map<string, Value>>,
    features: Option<map<string, bool>>)

  /** A definition is exactly a (manifest, config) pair. */
  datatype ModuleDefinition = ModuleDefinition(manifest: Manifest, config: ModuleConfig)

  /** The four states `getState` may report. */
  datatype ModuleState = Enabled | Disabled | Loading | Error

  /** What a third-party module does when the registry drives it. */
  datatype CleanupBehaviour = NoCleanup | CleanupSucceeds | CleanupThrows

  datatype Behaviour = Behaviour(
    dependencyAvailable: bool,
    initializeThrows: bool,
    cleanup: CleanupBehaviour)

  /** `ModuleConstructor`: what an entry point's `getModuleConstructors()` lists.
      The two modules of this repository, or a third-party module described by its
      behaviour. */
  datatype ModuleConstructor =
    | UserModuleConstructor
    | AuthModuleConstructor
    | ForeignConstructor(behaviour: Behaviour)

  /** The definition object built once per module. The registry's definition map
      and the module instance refer to the same object, so an update through one is
      seen through the other. Nothing reassigns the manifest. */
  class Definition {
    const manifest: Manifest
    var config: ModuleConfig

    constructor (d: ModuleDefinition)
      ensures manifest == d.manifest && config == d.config
    {
      manifest := d.manifest;
      config := d.config;
    }

    /** The definition's current value. */
    function Current(): ModuleDefinition
      reads this
    {
      ModuleDefinition(manifest, config)
    }
  }
}
