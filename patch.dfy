/**
 * `stdhub-cli patch`: after its prompts, restamps a plugin with a new
 * version, target API and description. It edits the parsed `package.json`
 * and the two parsed manifests in place and writes all three back. Prompt
 * answers and the documents read are parameters; writing a file is an
 * entry of the returned write log.
 */
module PatchCommand {
  import opened Text
  import opened Boilerplate
  import opened InitCommand

  /** A parsed `manifest.json`, which `patch` edits field by field. */
  class ManifestDoc {
    var formatVersion: int
    var header: Header
    var modules: seq<Module>
    var dependencies: seq<Dependency>

    constructor (m: Manifest)
      ensures Value() == m
    {
      formatVersion, header, modules, dependencies := m.formatVersion, m.header, m.modules, m.dependencies;
    }

    function Value(): Manifest
      reads this
    {
      Manifest(formatVersion, header, modules, dependencies)
    }

    /**
     * One manifest's block of assignments: the header's description, engine
     * version and version, the first module's version and the version of
     * dependency `k`.
     */
    method Restamp(description: string, minEngineVersion: seq<int>, version: seq<int>, k: nat)
      requires |modules| >= 1 && k < |dependencies|
      modifies this
      ensures Value() == Restamped(old(Value()), description, minEngineVersion, version, k)
    {
      header := header.(description := description);
      header := header.(minEngineVersion := minEngineVersion);
      header := header.(version := version);
      modules := modules[0 := modules[0].(version := version)];
      dependencies := dependencies[k := dependencies[k].(version := NumberArray(version))];
    }
  }

  /** The manifest after `Restamp`. */
  function Restamped(m: Manifest, description: string, minEngineVersion: seq<int>, version: seq<int>, k: nat): Manifest
    requires |m.modules| >= 1 && k < |m.dependencies|
  {
    m.(header := m.header.(description := description, minEngineVersion := minEngineVersion, version := version),
       modules := m.modules[0 := m.modules[0].(version := version)],
       dependencies := m.dependencies[k := m.dependencies[k].(version := NumberArray(version))])
  }

  /** The dependency whose version `patch` rewrites in the behaviour pack. */
  const BehaviorVersionDependency := 1
  /** The dependency whose version `patch` rewrites in the resource pack. */
  const ResourceVersionDependency := 0

  /**
   * What a restamp changes and what it keeps: the format, the header's
   * name and uuid, every module's kind, uuid, language and entry, every
   * module but the first, every dependency's target and every dependency
   * but `k`.
   */
  lemma RestampedFields(m: Manifest, description: string, minEngineVersion: seq<int>, version: seq<int>, k: nat)
    requires |m.modules| >= 1 && k < |m.dependencies|
    ensures var r := Restamped(m, description, minEngineVersion, version, k);
            r.formatVersion == m.formatVersion &&
            r.header.name == m.header.name && r.header.uuid == m.header.uuid &&
            r.header.description == description &&
            r.header.minEngineVersion == minEngineVersion && r.header.version == version &&
            |r.modules| == |m.modules| && |r.dependencies| == |m.dependencies| &&
            (forall i :: 0 <= i < |m.modules| ==>
               r.modules[i].kind == m.modules[i].kind && r.modules[i].uuid == m.modules[i].uuid &&
               r.modules[i].description == m.modules[i].description &&
               r.modules[i].language == m.modules[i].language && r.modules[i].entry == m.modules[i].entry &&
               r.modules[i].version == (if i == 0 then version else m.modules[i].version)) &&
            (forall j :: 0 <= j < |m.dependencies| ==>
               (if m.dependencies[j].ModuleDependency?
                then r.dependencies[j] == ModuleDependency(m.dependencies[j].moduleName, r.dependencies[j].version)
                else r.dependencies[j] == PackDependency(m.dependencies[j].uuid, r.dependencies[j].version)) &&
               r.dependencies[j].version == (if j == k then NumberArray(version) else m.dependencies[j].version))
  {
  }

  /** Restamping again with the same answers changes nothing more. */
  lemma RestampIdempotent(m: Manifest, description: string, minEngineVersion: seq<int>, version: seq<int>, k: nat)
    requires |m.modules| >= 1 && k < |m.dependencies|
    ensures var r := Restamped(m, description, minEngineVersion, version, k);
            Restamped(r, description, minEngineVersion, version, k) == r
  {
    var r := Restamped(m, description, minEngineVersion, version, k);
    assert r.modules[0 := r.modules[0].(version := version)] == r.modules;
    assert r.dependencies[k := r.dependencies[k].(version := NumberArray(version))] == r.dependencies;
  }

  /** The `package.json` that `patch` writes, as a function of the one it read. */
  function PatchedPackage(p: PackageValue, newVersion: string, newTargetApiVersion: string, newDescription: string): PackageValue {
    p.(version := newVersion, description := newDescription,
       dependencies := p.dependencies[ServerModule := "^" + newTargetApiVersion])
  }

  /**
   * Only `version`, `description` and the `@minecraft/server` dependency
   * change; the name, the product name and every other dependency, the
   * `@minecraft/vanilla-data` pin among them, stay as they were.
   */
  lemma PatchedPackageFields(p: PackageValue, newVersion: string, newTargetApiVersion: string, newDescription: string)
    ensures var q := PatchedPackage(p, newVersion, newTargetApiVersion, newDescription);
            q.version == newVersion && q.description == newDescription &&
            q.name == p.name && q.productName == p.productName &&
            q.dependencies.Keys == p.dependencies.Keys + {ServerModule} &&
            q.dependencies[ServerModule] == "^" + newTargetApiVersion &&
            forall d :: d in p.dependencies && d != ServerModule ==> q.dependencies[d] == p.dependencies[d]
  {
  }

  /** The in-place edits of the parsed `package.json`. */
  method PatchPackage(pkg: PackageJson, newVersion: string, newTargetApiVersion: string, newDescription: string)
    modifies pkg
    ensures pkg.Value() == PatchedPackage(old(pkg.Value()), newVersion, newTargetApiVersion, newDescription)
  {
    pkg.version := newVersion;
    pkg.description := newDescription;
    pkg.dependencies := pkg.dependencies[ServerModule := "^" + newTargetApiVersion];
  }

  /** JavaScript's `s.substring(1)`: everything after the first character, or `""`. */
  function DropFirst(s: string): (r: string)
    ensures |s| >= 1 ==> [s[0]] + r == s
    ensures |s| == 0 ==> r == ""
  {
    if |s| >= 1 then s[1..] else ""
  }

  /**
   * The default answer of the target prompt: the `@minecraft/server`
   * dependency without its first character. Reading a missing dependency
   * throws, which is `None` here.
   */
  function DefaultTarget(dependencies: map<string, string>): Option<string> {
    if ServerModule in dependencies then Some(DropFirst(dependencies[ServerModule])) else None
  }

  /** After `init` and after `patch`, the next default target is the target just chosen. */
  lemma DefaultTargetRoundTrip(p: PackageValue, pluginName: string, pluginDescription: string,
                               pluginVersion: string, targetApiVersion: string,
                               newVersion: string, newTargetApiVersion: string, newDescription: string)
    requires targetApiVersion in VersionMapping
    ensures DefaultTarget(InitPackage(p, pluginName, pluginDescription, pluginVersion, targetApiVersion).dependencies)
            == Some(targetApiVersion)
    ensures DefaultTarget(PatchedPackage(p, newVersion, newTargetApiVersion, newDescription).dependencies)
            == Some(newTargetApiVersion)
  {
    assert ServerModule != VanillaDataModule;
    assert ("^" + targetApiVersion)[1..] == targetApiVersion;
    assert ("^" + newTargetApiVersion)[1..] == newTargetApiVersion;
  }

  /**
   * `patch` after its prompts. `pkg`, `bp` and `rp` are the parsed
   * `package.json` and the behaviour and resource pack manifests, and `ok`
   * is the answer to the confirmation.
   */
  method Patch(pkg: PackageJson, bp: ManifestDoc, rp: ManifestDoc,
               newVersion: string, newTargetApiVersion: string, newDescription: string, ok: bool)
    returns (writes: seq<FileWrite>)
    requires IsVersion(newVersion) && ValidTargetApi(newTargetApiVersion)
    requires DefaultTarget(pkg.dependencies).Some?
    requires bp != rp
    requires |bp.modules| >= 1 && |bp.dependencies| > BehaviorVersionDependency
    requires |rp.modules| >= 1 && |rp.dependencies| > ResourceVersionDependency
    modifies pkg, bp, rp
    ensures !ok ==> writes == [] && pkg.Value() == old(pkg.Value()) &&
                    bp.Value() == old(bp.Value()) && rp.Value() == old(rp.Value())
    ensures ok ==> pkg.Value() == PatchedPackage(old(pkg.Value()), newVersion, newTargetApiVersion, newDescription)
    ensures ok ==> bp.Value() == Restamped(old(bp.Value()), newDescription, PatchEngineVersion(newTargetApiVersion),
                                           ParseVersion(newVersion), BehaviorVersionDependency)
    ensures ok ==> rp.Value() == Restamped(old(rp.Value()), newDescription, PatchEngineVersion(newTargetApiVersion),
                                           ParseVersion(newVersion), ResourceVersionDependency)
    ensures ok ==> writes == [WritePackageJson(pkg.Value()), WriteBehaviorManifest(bp.Value()),
                              WriteResourceManifest(rp.Value())]
  {
    var newVersionArray := ParseVersion(newVersion);
    var newTargetApiVersionArray := PatchEngineVersion(newTargetApiVersion);
    if !ok {
      return [];
    }
    PatchPackage(pkg, newVersion, newTargetApiVersion, newDescription);
    writes := [WritePackageJson(pkg.Value())];

    bp.Restamp(newDescription, newTargetApiVersionArray, newVersionArray, BehaviorVersionDependency);
    writes := writes + [WriteBehaviorManifest(bp.Value())];

    rp.Restamp(newDescription, newTargetApiVersionArray, newVersionArray, ResourceVersionDependency);
    writes := writes + [WriteResourceManifest(rp.Value())];
  }

  /** `versionMapping.get(newTargetApiVersion).split('.').map(v => parseInt(v))` */
  function PatchEngineVersion(targetApiVersion: string): (numbers: seq<nat>)
    requires ValidTargetApi(targetApiVersion)
    ensures |numbers| == 3
  {
    MappedVersion(targetApiVersion);
    ParseVersion(VersionMapping[targetApiVersion])
  }

  /**
   * On a scaffolded pair, `patch` keeps the layout and writes the same
   * engine version, version and description into both headers.
   */
  lemma PatchKeepsLayout(bp: Manifest, rp: Manifest, description: string, minEngineVersion: seq<int>, version: seq<int>)
    requires ScaffoldLayout(bp, rp)
    ensures var bp', rp' := Restamped(bp, description, minEngineVersion, version, BehaviorVersionDependency),
                            Restamped(rp, description, minEngineVersion, version, ResourceVersionDependency);
            ScaffoldLayout(bp', rp') &&
            bp'.header.minEngineVersion == rp'.header.minEngineVersion == minEngineVersion &&
            bp'.header.version == rp'.header.version == version &&
            bp'.header.description == rp'.header.description == description &&
            bp'.dependencies[0] == bp.dependencies[0] && bp'.dependencies[2] == bp.dependencies[2] &&
            bp'.dependencies[3] == bp.dependencies[3] &&
            bp'.dependencies[1] == ModuleDependency(ServerNetModule, NumberArray(version))
  {
  }

  /**
   * On a pair whose versions all read `previous`, the patched pair has every
   * version field at `version` exactly when the version did not change:
   * otherwise the behaviour pack's reference to the resource pack keeps
   * `previous`, since the rewritten dependency is the second one.
   */
  lemma PatchVersionsIff(bp: Manifest, rp: Manifest, description: string, minEngineVersion: seq<int>,
                         previous: seq<int>, version: seq<int>)
    requires ScaffoldLayout(bp, rp) && VersionsAre(bp, rp, previous)
    ensures var bp', rp' := Restamped(bp, description, minEngineVersion, version, BehaviorVersionDependency),
                            Restamped(rp, description, minEngineVersion, version, ResourceVersionDependency);
            ScaffoldLayout(bp', rp') &&
            (VersionsAre(bp', rp', version) <==> previous == version)
  {
    PatchKeepsLayout(bp, rp, description, minEngineVersion, version);
  }
}
