/**
 * The two `manifest.json` documents of a freshly scaffolded plugin: the
 * behaviour pack, which carries the script module and depends on the
 * scripting APIs and on the resource pack, and the resource pack, which
 * depends back on the behaviour pack.
 */
module Boilerplate {
  import opened Text

  /** `header` of a manifest. */
  datatype Header = Header(
    name: string,
    description: string,
    uuid: string,
    version: seq<int>,
    minEngineVersion: seq<int>)

  /** An entry of `modules`; `language` and `entry` are absent from resource modules. */
  datatype Module = Module(
    description: string,
    language: Option<string>,
    kind: string,
    uuid: string,
    version: seq<int>,
    entry: Option<string>)

  /** A dependency's `version`: a semver string or an array of numbers. */
  datatype DependencyVersion = SemverString(text: string) | NumberArray(numbers: seq<int>)

  /** An entry of `dependencies`: on a script module by name, or on a pack by uuid. */
  datatype Dependency =
    | ModuleDependency(moduleName: string, version: DependencyVersion)
    | PackDependency(uuid: string, version: DependencyVersion)

  datatype Manifest = Manifest(
    formatVersion: int,
    header: Header,
    modules: seq<Module>,
    dependencies: seq<Dependency>)

  /** What `createBoilerplate` returns: `bp_manifest` and `rp_manifest`. */
  datatype Boilerplate = Boilerplate(bpManifest: Manifest, rpManifest: Manifest)

  const ServerModule := "@minecraft/server"
  const ServerNetModule := "@minecraft/server-net"
  const ServerAdminModule := "@minecraft/server-admin"
  const BetaVersion := "1.0.0-beta"

  /**
   * The layout every scaffolded pair keeps: format 2, one module each, the
   * behaviour pack's four dependencies in their fixed order, and the two
   * packs naming each other's header uuid.
   */
  predicate ScaffoldLayout(bp: Manifest, rp: Manifest) {
    bp.formatVersion == 2 && rp.formatVersion == 2 &&
    |bp.modules| == 1 && |bp.dependencies| == 4 &&
    |rp.modules| == 1 && |rp.dependencies| == 1 &&
    bp.dependencies[0].ModuleDependency? && bp.dependencies[0].moduleName == ServerModule &&
    bp.dependencies[1].ModuleDependency? && bp.dependencies[1].moduleName == ServerNetModule &&
    bp.dependencies[2].ModuleDependency? && bp.dependencies[2].moduleName == ServerAdminModule &&
    bp.dependencies[3].PackDependency? && bp.dependencies[3].uuid == rp.header.uuid &&
    rp.dependencies[0].PackDependency? && rp.dependencies[0].uuid == bp.header.uuid
  }

  /** Every version field of the pair holds `v`: both headers, both modules and both pack references. */
  predicate VersionsAre(bp: Manifest, rp: Manifest, v: seq<int>)
    requires ScaffoldLayout(bp, rp)
  {
    bp.header.version == v && bp.modules[0].version == v &&
    bp.dependencies[3].version == NumberArray(v) &&
    rp.header.version == v && rp.modules[0].version == v &&
    rp.dependencies[0].version == NumberArray(v)
  }

  /** `createBoilerplate` */
  function CreateBoilerplate(
    pluginName: string,
    pluginDescription: string,
    pluginVersionArray: seq<int>,
    targetApiVersion: string,
    minEngineVersionArray: seq<int>,
    behaviorPackUuid: string,
    scriptResourceUuid: string,
    resourcePackUuid: string,
    resourceModuleUuid: string): (b: Boilerplate)
    ensures ScaffoldLayout(b.bpManifest, b.rpManifest)
    ensures VersionsAre(b.bpManifest, b.rpManifest, pluginVersionArray)
  {
    Boilerplate(
      Manifest(
        2,
        Header(pluginName + "-BP", pluginDescription, behaviorPackUuid,
               pluginVersionArray, minEngineVersionArray),
        [Module("Script resources", Some("javascript"), "script", scriptResourceUuid,
                pluginVersionArray, Some("scripts/main.js"))],
        [ModuleDependency(ServerModule, SemverString(targetApiVersion)),
         ModuleDependency(ServerNetModule, SemverString(BetaVersion)),
         ModuleDependency(ServerAdminModule, SemverString(BetaVersion)),
         PackDependency(resourcePackUuid, NumberArray(pluginVersionArray))]),
      Manifest(
        2,
        Header(pluginName + "-RP", "Resource pack for plugin " + pluginName, resourcePackUuid,
               pluginVersionArray, minEngineVersionArray),
        [Module("Resource Pack", None, "resources", resourceModuleUuid, pluginVersionArray, None)],
        [PackDependency(behaviorPackUuid, NumberArray(pluginVersionArray))]))
  }

  /** The nine arguments of `createBoilerplate`. */
  datatype Arguments = Arguments(
    pluginName: string,
    pluginDescription: string,
    pluginVersionArray: seq<int>,
    targetApiVersion: string,
    minEngineVersionArray: seq<int>,
    behaviorPackUuid: string,
    scriptResourceUuid: string,
    resourcePackUuid: string,
    resourceModuleUuid: string)

  /** Drops the three-character pack suffix (`-BP`) from a header name. */
  function PluginNameOf(headerName: string): string {
    if |headerName| >= 3 then headerName[..|headerName| - 3] else headerName
  }

  /** Reads the arguments back out of a scaffolded pair. */
  function ArgumentsOf(b: Boilerplate): Arguments
    requires ScaffoldLayout(b.bpManifest, b.rpManifest)
  {
    var bp, rp := b.bpManifest, b.rpManifest;
    Arguments(
      PluginNameOf(bp.header.name),
      bp.header.description,
      bp.header.version,
      match bp.dependencies[0].version
        case SemverString(t) => t
        case NumberArray(_) => "",
      bp.header.minEngineVersion,
      bp.header.uuid,
      bp.modules[0].uuid,
      rp.header.uuid,
      rp.modules[0].uuid)
  }

  /** The pair records every argument: reading them back gives them all, so distinct arguments give distinct pairs. */
  lemma ReadBack(a: Arguments)
    ensures var b := CreateBoilerplate(a.pluginName, a.pluginDescription, a.pluginVersionArray,
                                       a.targetApiVersion, a.minEngineVersionArray, a.behaviorPackUuid,
                                       a.scriptResourceUuid, a.resourcePackUuid, a.resourceModuleUuid);
            ArgumentsOf(b) == a
  {
    assert (a.pluginName + "-BP")[..|a.pluginName|] == a.pluginName;
  }

  /**
   * The names, descriptions, engine versions and dependencies the pair
   * carries for its arguments.
   */
  lemma BoilerplateFields(
    pluginName: string, pluginDescription: string, pluginVersionArray: seq<int>,
    targetApiVersion: string, minEngineVersionArray: seq<int>, behaviorPackUuid: string,
    scriptResourceUuid: string, resourcePackUuid: string, resourceModuleUuid: string)
    ensures var b := CreateBoilerplate(pluginName, pluginDescription, pluginVersionArray,
                                       targetApiVersion, minEngineVersionArray, behaviorPackUuid,
                                       scriptResourceUuid, resourcePackUuid, resourceModuleUuid);
            var bp, rp := b.bpManifest, b.rpManifest;
            bp.header.name == pluginName + "-BP" && rp.header.name == pluginName + "-RP" &&
            bp.header.description == pluginDescription &&
            rp.header.description == "Resource pack for plugin " + pluginName &&
            bp.header.minEngineVersion == minEngineVersionArray &&
            rp.header.minEngineVersion == minEngineVersionArray &&
            bp.header.uuid == behaviorPackUuid && rp.header.uuid == resourcePackUuid &&
            bp.modules[0].uuid == scriptResourceUuid && rp.modules[0].uuid == resourceModuleUuid &&
            bp.dependencies[0].version == SemverString(targetApiVersion) &&
            bp.dependencies[1].version == SemverString(BetaVersion) &&
            bp.dependencies[2].version == SemverString(BetaVersion)
  {
  }
}
