/**
 * `stdhub-cli init`: the validation rules and the API-to-engine version
 * table, and the edits the command makes to `package.json`, `.env` and
 * `src/main.ts` before it scaffolds the two manifests. Prompt answers and
 * the contents of the files read are parameters; writing a file is an entry
 * of the returned write log.
 */
module InitCommand {
  import opened Text
  import opened Boilerplate

  /** `versionRegex`, `/^\d+\.\d+\.\d+$/` */
  predicate IsVersion(s: string) {
    IsTriple(s)
  }

  /** `versionRegex` accepts exactly three digit runs joined by two dots. */
  lemma VersionRegexIff(s: string)
    ensures IsVersion(s) <==>
            exists a, b, c :: IsDigitRun(a) && IsDigitRun(b) && IsDigitRun(c) && s == a + "." + b + "." + c
  {
    if IsVersion(s) {
      TripleParts(s);
      var p := Split(s, '.');
      assert IsDigitRun(p[0]) && IsDigitRun(p[1]) && IsDigitRun(p[2]) && s == p[0] + "." + p[1] + "." + p[2];
    }
    if exists a, b, c :: IsDigitRun(a) && IsDigitRun(b) && IsDigitRun(c) && s == a + "." + b + "." + c {
      var a, b, c :| IsDigitRun(a) && IsDigitRun(b) && IsDigitRun(c) && s == a + "." + b + "." + c;
      TripleOf(a, b, c);
    }
  }

  /** `latestApiRelease` */
  const LatestApiRelease := "1.11.0"

  /** The rows `versionMapping` is built from: `@minecraft/server` API version, minimum engine version. */
  const VersionTable: seq<(string, string)> := [
    ("1.0.0", "1.19.70"),
    ("1.1.0", "1.19.80"),
    ("1.2.0", "1.20.0"),
    ("1.3.0", "1.20.10"),
    ("1.4.0", "1.20.20"),
    ("1.5.0", "1.20.30"),
    ("1.6.0", "1.20.40"),
    ("1.7.0", "1.20.50"),
    ("1.8.0", "1.20.60"),
    ("1.9.0", "1.20.70"),
    ("1.10.0", "1.20.80"),
    ("1.11.0", "1.21.0")
  ]

  /** `new Map(rows)`: a later row for a key overrides an earlier one. */
  function MapOf(rows: seq<(string, string)>): map<string, string> {
    if rows == [] then map[]
    else MapOf(rows[..|rows| - 1])[rows[|rows| - 1].0 := rows[|rows| - 1].1]
  }

  /** Every binding of the map comes from one of its rows. */
  lemma {:induction false} MapOfRow(rows: seq<(string, string)>, k: string)
    requires k in MapOf(rows)
    ensures exists i :: 0 <= i < |rows| && rows[i] == (k, MapOf(rows)[k])
  {
    var init := rows[..|rows| - 1];
    if k != rows[|rows| - 1].0 {
      MapOfRow(init, k);
      var i :| 0 <= i < |init| && init[i] == (k, MapOf(init)[k]);
      assert rows[i] == init[i];
    } else {
      assert rows[|rows| - 1] == (k, MapOf(rows)[k]);
    }
  }

  /**
   * The converse: every row's key is bound, and a row no later row
   * overrides gives the binding.
   */
  lemma {:induction false} MapOfKeys(rows: seq<(string, string)>, i: nat)
    requires i < |rows|
    ensures rows[i].0 in MapOf(rows)
    ensures (forall j :: i < j < |rows| ==> rows[j].0 != rows[i].0) ==> MapOf(rows)[rows[i].0] == rows[i].1
  {
    if i < |rows| - 1 {
      MapOfKeys(rows[..|rows| - 1], i);
    }
  }

  /** `versionMapping` */
  const VersionMapping: map<string, string> := MapOf(VersionTable)

  /** The `validate` of the target-API prompt. */
  predicate ValidTargetApi(s: string) {
    IsVersion(s) && s in VersionMapping
  }

  /**
   * `TripleOf` for a string given together with its three runs. Stating the
   * literal `s` as a parameter keeps each row's proof several times cheaper
   * than matching the joined runs against the table's literal.
   */
  lemma Triple(s: string, a: string, b: string, c: string)
    requires IsDigitRun(a) && IsDigitRun(b) && IsDigitRun(c)
    requires s == a + "." + b + "." + c
    ensures IsVersion(s)
  {
    TripleOf(a, b, c);
  }

  // One lemma per row: each literal is split into its three digit runs on its own.
  lemma Row0()
    ensures IsVersion(VersionTable[0].0) && IsVersion(VersionTable[0].1)
  {
    Triple(VersionTable[0].0, "1", "0", "0");
    Triple(VersionTable[0].1, "1", "19", "70");
  }

  lemma Row1()
    ensures IsVersion(VersionTable[1].0) && IsVersion(VersionTable[1].1)
  {
    Triple(VersionTable[1].0, "1", "1", "0");
    Triple(VersionTable[1].1, "1", "19", "80");
  }

  lemma Row2()
    ensures IsVersion(VersionTable[2].0) && IsVersion(VersionTable[2].1)
  {
    Triple(VersionTable[2].0, "1", "2", "0");
    Triple(VersionTable[2].1, "1", "20", "0");
  }

  lemma Row3()
    ensures IsVersion(VersionTable[3].0) && IsVersion(VersionTable[3].1)
  {
    Triple(VersionTable[3].0, "1", "3", "0");
    Triple(VersionTable[3].1, "1", "20", "10");
  }

  lemma Row4()
    ensures IsVersion(VersionTable[4].0) && IsVersion(VersionTable[4].1)
  {
    Triple(VersionTable[4].0, "1", "4", "0");
    Triple(VersionTable[4].1, "1", "20", "20");
  }

  lemma Row5()
    ensures IsVersion(VersionTable[5].0) && IsVersion(VersionTable[5].1)
  {
    Triple(VersionTable[5].0, "1", "5", "0");
    Triple(VersionTable[5].1, "1", "20", "30");
  }

  lemma Row6()
    ensures IsVersion(VersionTable[6].0) && IsVersion(VersionTable[6].1)
  {
    Triple(VersionTable[6].0, "1", "6", "0");
    Triple(VersionTable[6].1, "1", "20", "40");
  }

  lemma Row7()
    ensures IsVersion(VersionTable[7].0) && IsVersion(VersionTable[7].1)
  {
    Triple(VersionTable[7].0, "1", "7", "0");
    Triple(VersionTable[7].1, "1", "20", "50");
  }

  lemma Row8()
    ensures IsVersion(VersionTable[8].0) && IsVersion(VersionTable[8].1)
  {
    Triple(VersionTable[8].0, "1", "8", "0");
    Triple(VersionTable[8].1, "1", "20", "60");
  }

  lemma Row9()
    ensures IsVersion(VersionTable[9].0) && IsVersion(VersionTable[9].1)
  {
    Triple(VersionTable[9].0, "1", "9", "0");
    Triple(VersionTable[9].1, "1", "20", "70");
  }

  lemma Row10()
    ensures IsVersion(VersionTable[10].0) && IsVersion(VersionTable[10].1)
  {
    Triple(VersionTable[10].0, "1", "10", "0");
    Triple(VersionTable[10].1, "1", "20", "80");
  }

  lemma Row11()
    ensures IsVersion(VersionTable[11].0) && IsVersion(VersionTable[11].1)
  {
    Triple(VersionTable[11].0, "1", "11", "0");
    Triple(VersionTable[11].1, "1", "21", "0");
  }

  /** Both versions of every row match `versionRegex`. */
  lemma TableRows()
    ensures forall i :: 0 <= i < |VersionTable| ==> IsVersion(VersionTable[i].0) && IsVersion(VersionTable[i].1)
  {
    forall i | 0 <= i < |VersionTable|
      ensures IsVersion(VersionTable[i].0) && IsVersion(VersionTable[i].1)
    {
      if i == 0 {
        Row0();
      } else if i == 1 {
        Row1();
      } else if i == 2 {
        Row2();
      } else if i == 3 {
        Row3();
      } else if i == 4 {
        Row4();
      } else if i == 5 {
        Row5();
      } else if i == 6 {
        Row6();
      } else if i == 7 {
        Row7();
      } else if i == 8 {
        Row8();
      } else if i == 9 {
        Row9();
      } else if i == 10 {
        Row10();
      } else if i == 11 {
        Row11();
      }
    }
  }

  /** Every key and every value of the table matches `versionRegex`, so each value parses into three numbers. */
  lemma MappingAreVersions()
    ensures forall k :: k in VersionMapping ==> IsVersion(k) && IsVersion(VersionMapping[k])
  {
    forall k | k in VersionMapping
      ensures IsVersion(k) && IsVersion(VersionMapping[k])
    {
      MappedVersion(k);
    }
  }

  /** The same for one key. */
  lemma MappedVersion(k: string)
    requires k in VersionMapping
    ensures IsVersion(k) && IsVersion(VersionMapping[k])
  {
    TableRows();
    MapOfRow(VersionTable, k);
  }

  /** No two rows of the table share an API version. */
  lemma TableKeysDistinct()
    ensures forall i, j :: 0 <= i < j < |VersionTable| ==> VersionTable[i].0 != VersionTable[j].0
  {
  }

  /**
   * The target prompt accepts the API version of every row, and the engine
   * version it is mapped to is that row's.
   */
  lemma TableKeysAccepted()
    ensures forall i :: 0 <= i < |VersionTable| ==>
              ValidTargetApi(VersionTable[i].0) && VersionMapping[VersionTable[i].0] == VersionTable[i].1
  {
    TableRows();
    TableKeysDistinct();
    forall i | 0 <= i < |VersionTable|
      ensures VersionTable[i].0 in VersionMapping && VersionMapping[VersionTable[i].0] == VersionTable[i].1
    {
      MapOfKeys(VersionTable, i);
    }
  }

  /** The default answer is the table's last row. */
  lemma LatestRow()
    ensures LatestApiRelease in VersionMapping && VersionMapping[LatestApiRelease] == "1.21.0"
  {
    assert VersionTable[..|VersionTable| - 1][..] == VersionTable[..11];
    assert VersionTable[11] == (LatestApiRelease, "1.21.0");
  }

  /** The target prompt accepts exactly the keys of the table, the default among them. */
  lemma ValidTargetIff(s: string)
    ensures ValidTargetApi(s) <==> s in VersionMapping
    ensures ValidTargetApi(LatestApiRelease) && VersionMapping[LatestApiRelease] == "1.21.0"
  {
    if s in VersionMapping {
      MappedVersion(s);
    }
    LatestRow();
    MappedVersion(LatestApiRelease);
  }

  /** `parts.map(v => parseInt(v))` */
  function ParseAll(parts: seq<string>): (numbers: seq<nat>)
    requires forall k :: 0 <= k < |parts| ==> IsDigitRun(parts[k])
    ensures |numbers| == |parts|
  {
    if parts == [] then []
    else
      assert IsDigitRun(parts[0]);
      [ParseDecimal(parts[0])] + ParseAll(parts[1..])
  }

  /** `s.split('.').map(v => parseInt(v))` on a string `versionRegex` accepts. */
  function ParseVersion(s: string): (numbers: seq<nat>)
    requires IsVersion(s)
    ensures |numbers| == 3
  {
    ParseAll(Split(s, '.'))
  }

  /** The decimal spelling of a version array, the way the table writes versions. */
  function ShowVersion(a: nat, b: nat, c: nat): string {
    ShowDecimal(a) + "." + ShowDecimal(b) + "." + ShowDecimal(c)
  }

  /** Parsing a spelled-out version gives its three numbers back. */
  lemma ParseShowVersion(a: nat, b: nat, c: nat)
    ensures IsVersion(ShowVersion(a, b, c))
    ensures ParseVersion(ShowVersion(a, b, c)) == [a, b, c]
  {
    var parts := [ShowDecimal(a), ShowDecimal(b), ShowDecimal(c)];
    TripleOf(ShowDecimal(a), ShowDecimal(b), ShowDecimal(c));
    ParseShow(a);
    ParseShow(b);
    ParseShow(c);
    assert parts[1..] == [ShowDecimal(b), ShowDecimal(c)];
    assert parts[1..][1..] == [ShowDecimal(c)];
    assert ParseAll([ShowDecimal(c)]) == [c];
    assert ParseAll(parts[1..]) == [b, c];
    assert ParseAll(parts) == [a, b, c];
  }

  /** The engine version of the latest API release, as `init` writes it into both manifests. */
  lemma LatestMinEngine()
    ensures IsVersion(VersionMapping[LatestApiRelease])
    ensures ParseVersion(VersionMapping[LatestApiRelease]) == [1, 21, 0]
  {
    LatestRow();
    assert ShowDecimal(1) == "1" && ShowDecimal(21) == "21" && ShowDecimal(0) == "0";
    assert ShowVersion(1, 21, 0) == "1.21.0";
    ParseShowVersion(1, 21, 0);
  }

  // ---------------------------------------------------------------- .env

  const ProjectNameKey := "PROJECT_NAME="

  /** The `.map` callback of the `.env` rewrite. */
  function EnvLine(line: string, pluginName: string): string {
    if StartsWith(line, ProjectNameKey) then ProjectNameKey + "\"" + pluginName + "\"" else line
  }

  /** The `map` of the rewrite over the split lines. */
  function EnvLines(lines: seq<string>, pluginName: string): (result: seq<string>)
    ensures |result| == |lines|
  {
    if lines == [] then [] else [EnvLine(lines[0], pluginName)] + EnvLines(lines[1..], pluginName)
  }

  lemma {:induction false} EnvLinesAt(lines: seq<string>, pluginName: string, k: nat)
    requires k < |lines|
    ensures EnvLines(lines, pluginName)[k] == EnvLine(lines[k], pluginName)
  {
    if k > 0 {
      EnvLinesAt(lines[1..], pluginName, k - 1);
    }
  }

  /** `env.split('\n').map(…).join('\n')` */
  function RewriteEnv(env: string, pluginName: string): string {
    Join(EnvLines(Split(env, '\n'), pluginName), '\n')
  }

  /**
   * For a one-line plugin name the rewrite keeps the line count, replaces
   * every `PROJECT_NAME=` line by `PROJECT_NAME="<name>"` and leaves every
   * other line as it was.
   */
  lemma RewriteEnvLines(env: string, pluginName: string)
    requires '\n' !in pluginName
    ensures |Split(RewriteEnv(env, pluginName), '\n')| == |Split(env, '\n')|
    ensures forall k :: 0 <= k < |Split(env, '\n')| ==>
              Split(RewriteEnv(env, pluginName), '\n')[k] ==
                (if StartsWith(Split(env, '\n')[k], ProjectNameKey)
                 then ProjectNameKey + "\"" + pluginName + "\""
                 else Split(env, '\n')[k])
  {
    var lines := Split(env, '\n');
    SplitNoSeparator(env, '\n');
    forall k | 0 <= k < |lines|
      ensures '\n' !in EnvLines(lines, pluginName)[k]
      ensures EnvLines(lines, pluginName)[k] == EnvLine(lines[k], pluginName)
    {
      EnvLinesAt(lines, pluginName, k);
      assert '\n' !in ProjectNameKey + "\"" + pluginName + "\"";
    }
    SplitJoin(EnvLines(lines, pluginName), '\n');
  }

  /** Rewriting twice with the same one-line name changes nothing more. */
  lemma RewriteEnvIdempotent(env: string, pluginName: string)
    requires '\n' !in pluginName
    ensures RewriteEnv(RewriteEnv(env, pluginName), pluginName) == RewriteEnv(env, pluginName)
  {
    var once := RewriteEnv(env, pluginName);
    var lines := Split(once, '\n');
    RewriteEnvLines(env, pluginName);
    forall k | 0 <= k < |lines|
      ensures EnvLines(lines, pluginName)[k] == lines[k]
    {
      EnvLinesAt(lines, pluginName, k);
      var line := ProjectNameKey + "\"" + pluginName + "\"";
      assert line[..|ProjectNameKey|] == ProjectNameKey;
    }
    assert EnvLines(lines, pluginName) == lines;
    JoinSplit(once, '\n');
  }

  /** Without a `PROJECT_NAME=` line the file is written back unchanged. */
  lemma RewriteEnvWithoutKey(env: string, pluginName: string)
    requires forall k :: 0 <= k < |Split(env, '\n')| ==> !StartsWith(Split(env, '\n')[k], ProjectNameKey)
    ensures RewriteEnv(env, pluginName) == env
  {
    var lines := Split(env, '\n');
    forall k | 0 <= k < |lines|
      ensures EnvLines(lines, pluginName)[k] == lines[k]
    {
      EnvLinesAt(lines, pluginName, k);
    }
    assert EnvLines(lines, pluginName) == lines;
    JoinSplit(env, '\n');
  }

  // ------------------------------------------------------------- main.ts

  const PluginNameDeclaration := "export const pluginName"

  /** `lines.findIndex(line => line.startsWith(prefix))`: the first such position, or -1. */
  function FindIndex(lines: seq<string>, prefix: string): (k: int)
    ensures -1 <= k < |lines|
    ensures k >= 0 ==> StartsWith(lines[k], prefix)
    ensures forall j :: 0 <= j < |lines| && (k == -1 || j < k) ==> !StartsWith(lines[j], prefix)
  {
    if lines == [] then -1
    else if StartsWith(lines[0], prefix) then 0
    else
      var k := FindIndex(lines[1..], prefix);
      assert forall j :: 1 <= j < |lines| ==> lines[j] == lines[1..][j - 1];
      if k == -1 then -1 else k + 1
  }

  /** The replacement line, with the trailing `'` the source writes after the `;`. */
  function EntryLine(pluginName: string): string {
    PluginNameDeclaration + " = '" + pluginName + "';'"
  }

  /**
   * The text `init` writes to `src/main.ts`: the first line declaring
   * `pluginName` is replaced; a text without one is written back as read,
   * because storing at index -1 adds no array element.
   */
  function PatchedEntry(text: string, pluginName: string): string {
    var lines := Split(text, '\n');
    var k := FindIndex(lines, PluginNameDeclaration);
    if k >= 0 then Join(lines[k := EntryLine(pluginName)], '\n') else text
  }

  /** The `main.ts` step: split into an array of lines, store at the found index, join. */
  method PatchEntry(text: string, pluginName: string) returns (patched: string)
    ensures patched == PatchedEntry(text, pluginName)
  {
    var parts := Split(text, '\n');
    var lines := new string[|parts|](i requires 0 <= i < |parts| => parts[i]);
    var k := FindIndex(parts, PluginNameDeclaration);
    if k >= 0 {
      lines[k] := EntryLine(pluginName);
    }
    patched := Join(lines[..], '\n');
    if k < 0 {
      assert lines[..] == parts;
      JoinSplit(text, '\n');
    } else {
      assert lines[..] == parts[k := EntryLine(pluginName)];
    }
  }

  /**
   * For a one-line plugin name, the patch replaces exactly the first line
   * declaring `pluginName` and keeps every other line and the line count.
   */
  lemma PatchedEntryLines(text: string, pluginName: string)
    requires '\n' !in pluginName
    requires FindIndex(Split(text, '\n'), PluginNameDeclaration) >= 0
    ensures Split(PatchedEntry(text, pluginName), '\n')
            == Split(text, '\n')[FindIndex(Split(text, '\n'), PluginNameDeclaration) := EntryLine(pluginName)]
  {
    var lines := Split(text, '\n');
    var k := FindIndex(lines, PluginNameDeclaration);
    SplitNoSeparator(text, '\n');
    assert '\n' !in EntryLine(pluginName);
    SplitJoin(lines[k := EntryLine(pluginName)], '\n');
  }

  /** Without a line declaring `pluginName` the file is written back unchanged. */
  lemma PatchedEntryWithoutMatch(text: string, pluginName: string)
    requires forall k :: 0 <= k < |Split(text, '\n')| ==> !StartsWith(Split(text, '\n')[k], PluginNameDeclaration)
    ensures PatchedEntry(text, pluginName) == text
  {
  }

  // -------------------------------------------------------- package.json

  const VanillaDataModule := "@minecraft/vanilla-data"

  /** The `package.json` fields the two commands read or write. */
  datatype PackageValue = PackageValue(
    name: string,
    productName: string,
    description: string,
    version: string,
    dependencies: map<string, string>)

  /** The parsed `package.json`, which both commands edit in place. */
  class PackageJson {
    var name: string
    var productName: string
    var description: string
    var version: string
    var dependencies: map<string, string>

    constructor (v: PackageValue)
      ensures Value() == v
    {
      name, productName, description, version, dependencies :=
        v.name, v.productName, v.description, v.version, v.dependencies;
    }

    function Value(): PackageValue
      reads this
    {
      PackageValue(name, productName, description, version, dependencies)
    }
  }

  /** A file written, with the value serialised into it. */
  datatype FileWrite =
    | WritePackageJson(package: PackageValue)
    | WriteEnv(env: string)
    | WriteBehaviorManifest(manifest: Manifest)
    | WriteResourceManifest(manifest: Manifest)
    | WriteEntry(entry: string)

  /** The `package.json` that `init` writes, as a function of the one it read. */
  function InitPackage(p: PackageValue, pluginName: string, pluginDescription: string,
                       pluginVersion: string, targetApiVersion: string): PackageValue
    requires targetApiVersion in VersionMapping
  {
    p.(name := pluginName, productName := pluginName, description := pluginDescription,
       version := pluginVersion,
       dependencies := p.dependencies[ServerModule := "^" + targetApiVersion]
                                     [VanillaDataModule := "^" + VersionMapping[targetApiVersion]])
  }

  /**
   * The edited `package.json` names the plugin, pins both dependencies to
   * the chosen API and its engine version, and keeps every other dependency.
   */
  lemma InitPackageFields(p: PackageValue, pluginName: string, pluginDescription: string,
                          pluginVersion: string, targetApiVersion: string)
    requires targetApiVersion in VersionMapping
    ensures var q := InitPackage(p, pluginName, pluginDescription, pluginVersion, targetApiVersion);
            q.name == pluginName && q.productName == pluginName &&
            q.description == pluginDescription && q.version == pluginVersion &&
            q.dependencies[ServerModule] == "^" + targetApiVersion &&
            q.dependencies[VanillaDataModule] == "^" + VersionMapping[targetApiVersion] &&
            q.dependencies.Keys == p.dependencies.Keys + {ServerModule, VanillaDataModule} &&
            forall d :: d in p.dependencies && d != ServerModule && d != VanillaDataModule ==>
                          q.dependencies[d] == p.dependencies[d]
  {
  }

  /** The two manifests `init` scaffolds for its answers. */
  function InitBoilerplate(pluginName: string, pluginDescription: string, pluginVersion: string,
                           targetApiVersion: string, behaviorPackUuid: string, scriptResourceUuid: string,
                           resourcePackUuid: string, resourceModuleUuid: string): Boilerplate
    requires IsVersion(pluginVersion) && ValidTargetApi(targetApiVersion)
  {
    MappedVersion(targetApiVersion);
    CreateBoilerplate(pluginName, pluginDescription, ParseVersion(pluginVersion), targetApiVersion,
                      ParseVersion(VersionMapping[targetApiVersion]), behaviorPackUuid,
                      scriptResourceUuid, resourcePackUuid, resourceModuleUuid)
  }

  /** The in-place edits of the parsed `package.json`. */
  method EditPackage(pkg: PackageJson, pluginName: string, pluginDescription: string,
                     pluginVersion: string, targetApiVersion: string)
    requires targetApiVersion in VersionMapping
    modifies pkg
    ensures pkg.Value() == InitPackage(old(pkg.Value()), pluginName, pluginDescription,
                                       pluginVersion, targetApiVersion)
  {
    pkg.name := pluginName;
    pkg.productName := pluginName;
    pkg.description := pluginDescription;
    pkg.version := pluginVersion;
    pkg.dependencies := pkg.dependencies[ServerModule := "^" + targetApiVersion];
    pkg.dependencies := pkg.dependencies[VanillaDataModule := "^" + VersionMapping[targetApiVersion]];
  }

  /**
   * `init` after its prompts. `pkg` is the parsed `package.json`, `env` and
   * `entry` are the texts of `.env` and `src/main.ts`, `ok` is the answer to
   * the confirmation, and the four uuids are those drawn at the start.
   */
  method Init(pkg: PackageJson, env: string, entry: string,
              pluginName: string, pluginDescription: string, pluginVersion: string,
              targetApiVersion: string, ok: bool,
              behaviorPackUuid: string, scriptResourceUuid: string,
              resourcePackUuid: string, resourceModuleUuid: string)
    returns (writes: seq<FileWrite>)
    requires IsVersion(pluginVersion) && ValidTargetApi(targetApiVersion)
    modifies pkg
    ensures !ok ==> writes == [] && pkg.Value() == old(pkg.Value())
    ensures ok ==> pkg.Value() == InitPackage(old(pkg.Value()), pluginName, pluginDescription,
                                              pluginVersion, targetApiVersion)
    ensures ok ==>
      var b := InitBoilerplate(pluginName, pluginDescription, pluginVersion, targetApiVersion,
                               behaviorPackUuid, scriptResourceUuid, resourcePackUuid, resourceModuleUuid);
      writes == [WritePackageJson(pkg.Value()),
                 WriteEnv(RewriteEnv(env, pluginName)),
                 WriteBehaviorManifest(b.bpManifest),
                 WriteResourceManifest(b.rpManifest),
                 WriteEntry(PatchedEntry(entry, pluginName))]
  {
    if !ok {
      return [];
    }
    EditPackage(pkg, pluginName, pluginDescription, pluginVersion, targetApiVersion);
    writes := [WritePackageJson(pkg.Value())];

    writes := writes + [WriteEnv(RewriteEnv(env, pluginName))];
    assert writes == [WritePackageJson(pkg.Value()), WriteEnv(RewriteEnv(env, pluginName))];

    var b := InitBoilerplate(pluginName, pluginDescription, pluginVersion, targetApiVersion,
                             behaviorPackUuid, scriptResourceUuid, resourcePackUuid, resourceModuleUuid);
    writes := writes + [WriteBehaviorManifest(b.bpManifest), WriteResourceManifest(b.rpManifest)];
    assert writes == [WritePackageJson(pkg.Value()), WriteEnv(RewriteEnv(env, pluginName)),
                      WriteBehaviorManifest(b.bpManifest), WriteResourceManifest(b.rpManifest)];

    var patched := PatchEntry(entry, pluginName);
    writes := writes + [WriteEntry(patched)];
  }

  /**
   * What `init` writes on confirmation: the scaffolded pair keeps its layout,
   * carries the plugin version everywhere and the table's engine version for
   * the chosen API in both headers.
   */
  lemma InitManifests(pluginName: string, pluginDescription: string, pluginVersion: string,
                      targetApiVersion: string, behaviorPackUuid: string, scriptResourceUuid: string,
                      resourcePackUuid: string, resourceModuleUuid: string)
    requires IsVersion(pluginVersion) && ValidTargetApi(targetApiVersion)
    ensures IsVersion(VersionMapping[targetApiVersion])
    ensures var b := InitBoilerplate(pluginName, pluginDescription, pluginVersion, targetApiVersion,
                                     behaviorPackUuid, scriptResourceUuid, resourcePackUuid, resourceModuleUuid);
            ScaffoldLayout(b.bpManifest, b.rpManifest) &&
            VersionsAre(b.bpManifest, b.rpManifest, ParseVersion(pluginVersion)) &&
            b.bpManifest.header.minEngineVersion == ParseVersion(VersionMapping[targetApiVersion]) &&
            b.rpManifest.header.minEngineVersion == ParseVersion(VersionMapping[targetApiVersion]) &&
            b.bpManifest.dependencies[0].version == SemverString(targetApiVersion)
  {
    MappedVersion(targetApiVersion);
  }
}
