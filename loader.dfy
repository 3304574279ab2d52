/** How the registry finds a module's files: `modulePath`, `moduleExists`, `moduleHas`
    and `safeStaticImport`, over a snapshot of the file system and a table of what
    each import would yield. */
module Loader {
  import opened Wrappers
  import opened ModuleTypes
  import opened Merge

  /** `FileSystem.documentDirectory` (null when unavailable) and the paths at which a
      directory or a file exists. */
  datatype FileSystem = FileSystem(
    documentDirectory: Option<string>,
    directories: set<string>,
    files: set<string>)

  /** What importing a module's artifacts yields, by module id: an id without an entry
      is an import that fails or exports nothing, which `safeStaticImport` turns into
      `{}`. An `indexes` entry is the list `getModuleConstructors()` returns. */
  datatype Bundle = Bundle(
    manifests: map<string, ManifestPatch>,
    configs: map<string, ConfigPatch>,
    indexes: map<string, seq<ModuleConstructor>>)

  const ModulesPath := "@/modules/"

  predicate HasBaseDirectory(fs: FileSystem) {
    fs.documentDirectory.Some? && fs.documentDirectory.value != ""
  }

  /** `modulePath(module, fileName)`: empty without a base directory; otherwise the
      module's directory, followed by `/fileName` when a file name is given. */
  function ModulePath(fs: FileSystem, dir: string, fileName: string): (p: string)
    ensures p == "" <==> !HasBaseDirectory(fs)
  {
    if !HasBaseDirectory(fs) then ""
    else fs.documentDirectory.value + ModulesPath + dir + (if fileName == "" then "" else "/" + fileName)
  }

  /** A file path is the directory path with `/fileName` appended. */
  lemma FilePathExtendsDirectory(fs: FileSystem, dir: string, fileName: string)
    requires HasBaseDirectory(fs) && fileName != ""
    ensures ModulePath(fs, dir, fileName) == ModulePath(fs, dir, "") + "/" + fileName
  {
    var d := fs.documentDirectory.value + ModulesPath + dir;
    assert ModulePath(fs, dir, "") == d + "";
    assert d + "" == d;
  }

  /** `moduleExists(module)`: there is a base directory and the module's directory exists. */
  predicate ModuleExists(fs: FileSystem, dir: string) {
    ModulePath(fs, dir, "") != "" && ModulePath(fs, dir, "") in fs.directories
  }

  /** What `moduleHas(module, paths)` promises: the directory exists and so does every
      listed file. */
  predicate ModuleHasAll(fs: FileSystem, dir: string, paths: seq<string>) {
    && ModuleExists(fs, dir)
    && forall i :: 0 <= i < |paths| ==> ModulePath(fs, dir, paths[i]) in fs.files
  }

  /** `moduleHas(module, paths)`; an absent `paths` is the empty list. */
  method ModuleHas(fs: FileSystem, dir: string, paths: seq<string>) returns (b: bool)
    ensures b == ModuleHasAll(fs, dir, paths)
  {
    var found := ModuleExists(fs, dir);
    if !found {
      return false;
    }
    if |paths| == 0 {
      return true;
    }
    var i := 0;
    while i < |paths|
      invariant 0 <= i <= |paths|
      invariant forall k :: 0 <= k < i ==> ModulePath(fs, dir, paths[k]) in fs.files
    {
      var filePath := ModulePath(fs, dir, paths[i]);
      if filePath == "" || filePath !in fs.files {
        return false;
      }
      i := i + 1;
    }
    return true;
  }

  /** A missing directory fails whatever the list; an empty list only needs the
      directory; a longer list needs each of its files. */
  lemma ModuleHasAllAppend(fs: FileSystem, dir: string, p: seq<string>, q: seq<string>)
    ensures ModuleHasAll(fs, dir, []) <==> ModuleExists(fs, dir)
    ensures ModuleHasAll(fs, dir, p + q) <==> ModuleHasAll(fs, dir, p) && ModuleHasAll(fs, dir, q)
  {
    if ModuleHasAll(fs, dir, p) && ModuleHasAll(fs, dir, q) {
      forall i | 0 <= i < |p + q| ensures ModulePath(fs, dir, (p + q)[i]) in fs.files {
        if i >= |p| { assert (p + q)[i] == q[i - |p|]; }
      }
    }
    if ModuleHasAll(fs, dir, p + q) {
      forall i | 0 <= i < |q| ensures ModulePath(fs, dir, q[i]) in fs.files {
        assert q[i] == (p + q)[i + |p|];
      }
      forall i | 0 <= i < |p| ensures ModulePath(fs, dir, p[i]) in fs.files {
        assert p[i] == (p + q)[i];
      }
    }
  }

  /** The three artifacts `loadModule` asks for. */
  datatype Artifact = ManifestFile | ConfigFile | IndexFile

  /** The files `safeStaticImport` checks before importing an artifact. */
  function RequiredFiles(kind: Artifact, id: string): seq<string> {
    match kind
    case ManifestFile => ["module.json"]
    case ConfigFile => ["config/" + id + ".json"]
    case IndexFile => ["index.js", "index.ts"]
  }

  /** The presence test as written: every required file, so an index needs both
      `index.js` and `index.ts`. */
  predicate ArtifactPresentAsWritten(fs: FileSystem, id: string, kind: Artifact) {
    ModuleHasAll(fs, id, RequiredFiles(kind, id))
  }

  /** The presence test as intended: the index may have either extension. */
  predicate ArtifactPresent(fs: FileSystem, id: string, kind: Artifact) {
    match kind
    case IndexFile => ModuleHasAll(fs, id, ["index.js"]) || ModuleHasAll(fs, id, ["index.ts"])
    case _ => ModuleHasAll(fs, id, RequiredFiles(kind, id))
  }

  /** A module directory holding only `index.ts`, as a TypeScript module does. */
  function TypeScriptOnlyModule(): FileSystem {
    FileSystem(Some("file:///doc/"),
               {"file:///doc/@/modules/user"},
               {"file:///doc/@/modules/user/index.ts"})
  }

  /** As written, a module whose index exists with one extension only is reported as
      having no index, so it is never loaded. */
  lemma IndexWithOneExtensionIsMissedAsWritten()
    ensures !ArtifactPresentAsWritten(TypeScriptOnlyModule(), "user", IndexFile)
    ensures ArtifactPresent(TypeScriptOnlyModule(), "user", IndexFile)
  {
    var fs := TypeScriptOnlyModule();
    assert ModulePath(fs, "user", "") == "file:///doc/@/modules/user";
    assert ModulePath(fs, "user", "index.ts") == "file:///doc/@/modules/user/index.ts";
    assert ModulePath(fs, "user", "index.js") == "file:///doc/@/modules/user/index.js";
    assert ModulePath(fs, "user", RequiredFiles(IndexFile, "user")[0]) !in fs.files;
  }

  /** The corrected test finds an index present exactly when the directory exists
      and one of the two files does; it accepts everything the written test accepts. */
  lemma ArtifactPresentMeans(fs: FileSystem, id: string, kind: Artifact)
    ensures kind == IndexFile ==>
              (ArtifactPresent(fs, id, kind) <==>
                 ModuleExists(fs, id)
                 && (ModulePath(fs, id, "index.js") in fs.files || ModulePath(fs, id, "index.ts") in fs.files))
    ensures kind != IndexFile ==> (ArtifactPresent(fs, id, kind) <==> ArtifactPresentAsWritten(fs, id, kind))
    ensures ArtifactPresentAsWritten(fs, id, kind) ==> ArtifactPresent(fs, id, kind)
  {
    if kind == IndexFile && ArtifactPresentAsWritten(fs, id, kind) {
      assert RequiredFiles(kind, id)[0] == "index.js";
      assert ModulePath(fs, id, ["index.js"][0]) in fs.files;
    }
    if kind == IndexFile && ModuleExists(fs, id) && ModulePath(fs, id, "index.ts") in fs.files {
      assert ModuleHasAll(fs, id, ["index.ts"]) by {
        forall i | 0 <= i < 1 ensures ModulePath(fs, id, ["index.ts"][i]) in fs.files {}
      }
    }
    if kind == IndexFile && ModuleExists(fs, id) && ModulePath(fs, id, "index.js") in fs.files {
      assert ModuleHasAll(fs, id, ["index.js"]) by {
        forall i | 0 <= i < 1 ensures ModulePath(fs, id, ["index.js"][i]) in fs.files {}
      }
    }
    if ModuleHasAll(fs, id, ["index.js"]) {
      assert ModulePath(fs, id, ["index.js"][0]) in fs.files;
    }
    if ModuleHasAll(fs, id, ["index.ts"]) {
      assert ModulePath(fs, id, ["index.ts"][0]) in fs.files;
    }
  }

  /** `safeStaticImport(id, 'manifest')`: the manifest when its file is there and the
      import yields one, otherwise `{}`. */
  function ManifestArtifact(fs: FileSystem, bundle: Bundle, id: string): ManifestPatch {
    if ArtifactPresent(fs, id, ManifestFile) && id in bundle.manifests then bundle.manifests[id]
    else EmptyManifestPatch
  }

  function ConfigArtifact(fs: FileSystem, bundle: Bundle, id: string): ConfigPatch {
    if ArtifactPresent(fs, id, ConfigFile) && id in bundle.configs then bundle.configs[id]
    else EmptyConfigPatch
  }

  /** The constructor list of the index, or `None` when the index is `{}` or has no
      `getModuleConstructors`. */
  function IndexArtifact(fs: FileSystem, bundle: Bundle, id: string): Option<seq<ModuleConstructor>> {
    if ArtifactPresent(fs, id, IndexFile) && id in bundle.indexes then Some(bundle.indexes[id])
    else None
  }

  /** The index as the written presence test finds it: only when both `index.js` and
      `index.ts` are there. */
  function IndexArtifactAsWritten(fs: FileSystem, bundle: Bundle, id: string): Option<seq<ModuleConstructor>> {
    if ArtifactPresentAsWritten(fs, id, IndexFile) && id in bundle.indexes then Some(bundle.indexes[id])
    else None
  }

  /** Whatever index the written test finds, the corrected one finds too; the
      TypeScript-only module is found by the corrected test alone. */
  lemma IndexArtifactAsWrittenFindsLess(fs: FileSystem, bundle: Bundle, id: string)
    ensures IndexArtifactAsWritten(fs, bundle, id).Some? ==>
              IndexArtifact(fs, bundle, id) == IndexArtifactAsWritten(fs, bundle, id)
    ensures "user" in bundle.indexes ==>
              && IndexArtifactAsWritten(TypeScriptOnlyModule(), bundle, "user").None?
              && IndexArtifact(TypeScriptOnlyModule(), bundle, "user") == Some(bundle.indexes["user"])
  {
    ArtifactPresentMeans(fs, id, IndexFile);
    IndexWithOneExtensionIsMissedAsWritten();
  }

  method SafeStaticImportManifest(fs: FileSystem, bundle: Bundle, id: string) returns (m: ManifestPatch)
    ensures m == ManifestArtifact(fs, bundle, id)
    ensures !ModuleHasAll(fs, id, ["module.json"]) ==> m == EmptyManifestPatch
  {
    var present := ModuleHas(fs, id, RequiredFiles(ManifestFile, id));
    if present && id in bundle.manifests {
      return bundle.manifests[id];
    }
    return EmptyManifestPatch;
  }

  method SafeStaticImportConfig(fs: FileSystem, bundle: Bundle, id: string) returns (c: ConfigPatch)
    ensures c == ConfigArtifact(fs, bundle, id)
    ensures !ModuleHasAll(fs, id, ["config/" + id + ".json"]) ==> c == EmptyConfigPatch
  {
    var present := ModuleHas(fs, id, RequiredFiles(ConfigFile, id));
    if present && id in bundle.configs {
      return bundle.configs[id];
    }
    return EmptyConfigPatch;
  }

  method SafeStaticImportIndex(fs: FileSystem, bundle: Bundle, id: string) returns (ix: Option<seq<ModuleConstructor>>)
    ensures ix == IndexArtifact(fs, bundle, id)
    ensures !ModuleExists(fs, id) ==> ix.None?
  {
    var js := ModuleHas(fs, id, ["index.js"]);
    var ts := ModuleHas(fs, id, ["index.ts"]);
    if (js || ts) && id in bundle.indexes {
      return Some(bundle.indexes[id]);
    }
    return None;
  }

  /** `safeStaticImport(id, 'index')` as written: the index is imported only when every
      listed file, `index.js` and `index.ts` alike, passes `checkFileExists`. */
  method SafeStaticImportIndexAsWritten(fs: FileSystem, bundle: Bundle, id: string)
    returns (ix: Option<seq<ModuleConstructor>>)
    ensures ix == IndexArtifactAsWritten(fs, bundle, id)
    ensures ix.Some? ==> ModuleExists(fs, id) && ModulePath(fs, id, "index.js") in fs.files
                         && ModulePath(fs, id, "index.ts") in fs.files
  {
    var present := ModuleHas(fs, id, RequiredFiles(IndexFile, id));
    if present && id in bundle.indexes {
      assert ModulePath(fs, id, RequiredFiles(IndexFile, id)[0]) in fs.files;
      assert ModulePath(fs, id, RequiredFiles(IndexFile, id)[1]) in fs.files;
      return Some(bundle.indexes[id]);
    }
    return None;
  }

  /** The index files of this repository's two modules. */
  function ShippedIndexes(): (m: map<string, seq<ModuleConstructor>>)
    ensures m.Keys == {"user", "auth"}
    ensures m["user"] == [UserModuleConstructor] && m["auth"] == [AuthModuleConstructor]
  {
    map["user" := [UserModuleConstructor], "auth" := [AuthModuleConstructor]]
  }
}
