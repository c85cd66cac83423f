# stdhub-cli core in Dafny

`stdhub-cli` scaffolds and maintains Minecraft Bedrock script plugins. This
project models and proves properties of four parts of it:

- **The version catalog** (`fetch_versions.dfy`, module `FetchVersions`).
  The tool takes the published version list of `@minecraft/server` and keeps
  the `A.B.C-beta.X.Y.Z-stable` versions without their `-stable` suffix. It
  removes repeated versions with a set and reverses the set's order. Each
  remaining version becomes a `Release` of `original`, `mcDependencyVersion`,
  `apiVersion` and `releaseVersion`.
- **The manifest builder** (`boilerplate.dfy`, module `Boilerplate`). This is
  `createBoilerplate`, which builds the behaviour-pack and resource-pack
  `manifest.json` documents from nine arguments.
- **`init`** (`init.dfy`, module `InitCommand`). This covers:
  - the version pattern;
  - the hard-coded table from `@minecraft/server` API versions to minimum
    engine versions;
  - parsing `A.B.C` into three numbers;
  - the in-place edits of `package.json`;
  - the `.env` rewrite;
  - the `src/main.ts` patch;
  - the order of the files written.
- **`patch`** (`patch.dfy`, module `PatchCommand`). After a confirmation, it
  restamps the plugin with a new version, target API and description. It
  edits `package.json` and both manifests in place.

`text.dfy` (module `Text`) holds the JavaScript string operations these use:
`split`, `join`, `startsWith` and `parseInt` on digit strings. It also holds
the `\d+\.\d+\.\d+` pattern, written as "splits at `.` into three digit
runs". Both regular expressions of the catalog are defined through `Split`,
and lemmas prove them equal to their textual reading, in both directions.

Imperative parts are modelled as imperative Dafny:
- The parsed `package.json` is the class `InitCommand.PackageJson`.
- A parsed manifest is the class `PatchCommand.ManifestDoc`.
- `init` and `patch` are methods that assign their fields, gated by the
  confirmation.
- The `main.ts` line store works on an array.

Each method is tied to a function of the old state (`InitPackage`,
`PatchedPackage`, `Restamped`, `PatchedEntry`), and the lemmas state the
properties of those functions. A file write is an entry of the returned
write log, carrying the value written.

The model follows the code as written, including these behaviours:
- The catalog removes duplicates by the whole `A.B.C-beta.X.Y.Z` string, not
  by `apiVersion`. Two releases of one API line give two entries.
- `original` is taken from the stripped list, so it never carries `-stable`.
  It is the last stripped version that *starts with* the entry's version,
  which can be a longer sibling (`PrefixSibling`).
- The catalog lists versions in the reverse of their first occurrence.
- `init` and `patch` use the hard-coded table, not the fetched catalog.
- `init` and `patch` write the `@minecraft/server` dependency as `"^" +
  target`.
- `patch` rewrites `dependencies[1]` of the behaviour pack. That is the
  `@minecraft/server-net` module, which then carries a number array. The
  pack's reference to the resource pack (`dependencies[3]`) keeps the old
  version, so after a version change the two packs disagree
  (`PatchVersionsIff`).
- The `main.ts` replacement line keeps the stray trailing `'` of the source.

## Model

| member | source | states |
|---|---|---|
| FetchVersions.ReducedOf | src/fetch-versions.ts:4 | `reducedVersionExp` accepts `api-beta.release` for any two `\d+\.\d+\.\d+` triples and captures exactly those two |
| FetchVersions.ReducedParts | src/fetch-versions.ts:4 | whatever `reducedVersionExp` accepts is `api-beta.release` of its two captured triples |
| FetchVersions.MatchReduced | src/fetch-versions.ts:4 | `reducedVersionExp.match`: the two captured triples, or none; its properties are `ReducedOf` and `ReducedParts` |
| FetchVersions.MatchStable | src/fetch-versions.ts:3 | `versionExp.match`: the captured group, or none; its property is `StableIff` |
| FetchVersions.StableIff | src/fetch-versions.ts:3 | `versionExp` matches exactly a reduced version followed by `-stable`, and its group is that version (both directions) |
| FetchVersions.Filtered | src/fetch-versions.ts:23-25 | the `filter` then `map` of the raw list: each matching version's group, in list order; its properties are `FilteredMembers` and `FilteredPair` |
| FetchVersions.FilteredMembers | src/fetch-versions.ts:23-25 | a string is in the filtered list iff the raw list holds it with `-stable` appended and it matches the reduced pattern |
| FetchVersions.Distinct | src/fetch-versions.ts:26-27 | `Array.from(new Set(s))` has the same members as `s` and no duplicates |
| FetchVersions.DistinctOrder | src/fetch-versions.ts:26-27 | the set lists its elements in the order of their first occurrence in the input |
| FetchVersions.DistinctCount | src/fetch-versions.ts:26 | the set has as many elements as the input has distinct values |
| FetchVersions.DistinctPair | src/fetch-versions.ts:26-27 | the set of two different values lists both, in input order |
| FetchVersions.FirstIndex | src/fetch-versions.ts:26 | the position of the first occurrence of a member |
| FetchVersions.FindLastIndex | src/fetch-versions.ts:28 | `findLast` by `startsWith`: the last position whose element starts with the prefix, or -1 when none does |
| FetchVersions.Reverse | src/fetch-versions.ts:27 | `Array.prototype.reverse`; its property is `ReverseAt` |
| FetchVersions.Describe | src/fetch-versions.ts:28-30 | an entry's `mcDependencyVersion` is the version it describes |
| FetchVersions.DescribeSpec | src/fetch-versions.ts:28-30 | for a filtered version, `apiVersion + "-beta." + releaseVersion` is the version, both are triples, and `original` is the last filtered string starting with it |
| FetchVersions.ReverseAt | src/fetch-versions.ts:27 | `reverse` puts element `i` from the end at position `i` |
| FetchVersions.DescribeAll | src/fetch-versions.ts:27-31 | the `map` callback applied to each version; its property is `DescribeAllAt` |
| FetchVersions.VersionPrefixes | src/fetch-versions.ts:21-32 | `getMinecraftServerApiVersionPrefixes` on a given raw list: the catalog of the filtered list; its properties are `CatalogEntry`, `CatalogCovers`, `CatalogEmpty`, `CatalogDistinct`, `CatalogOrder` and `SingleRoundTrip` |
| FetchVersions.Catalog | src/fetch-versions.ts:26-31 | the set, its reversal and the `map` over a filtered list; its properties are `CatalogAt` and `CatalogVersions` |
| FetchVersions.DescribeAllAt | src/fetch-versions.ts:27-31 | the `map` gives entry `i` for version `i` |
| FetchVersions.CatalogAt | src/fetch-versions.ts:21-32 | the catalog has one entry per set element, and entry `i` describes the `i`-th set element counted from the end |
| FetchVersions.CatalogVersions | src/fetch-versions.ts:26-31 | every entry's version is the matching set element counted from the end |
| FetchVersions.CatalogEntry | src/fetch-versions.ts:21-32 | each entry's version is a published version minus `-stable`; it splits into `apiVersion` and `releaseVersion` triples; `original` is the last filtered string starting with it |
| FetchVersions.CatalogCovers | src/fetch-versions.ts:23-27 | a version has an entry iff the raw list holds it with `-stable` and it matches the reduced pattern |
| FetchVersions.CatalogEmpty | src/fetch-versions.ts:23-27 | the catalog is empty iff no raw version matches `versionExp` |
| FetchVersions.CatalogDistinct | src/fetch-versions.ts:26-27 | no two entries share a version, and there are as many entries as distinct stripped versions |
| FetchVersions.CatalogOrder | src/fetch-versions.ts:26-27 | entries come in the reverse order of their versions' first occurrence |
| FetchVersions.OriginalIsOwnVersion | src/fetch-versions.ts:28 | when no other stripped version extends an entry's version, `original` is the version itself |
| FetchVersions.SingleRoundTrip | src/fetch-versions.ts:21-32 | one stable version `api-beta.release-stable` gives exactly the entry `(api-beta.release, api-beta.release, api, release)` |
| FetchVersions.SingleCatalog | src/fetch-versions.ts:26-31 | the catalog of one stripped version is that version's own entry |
| FetchVersions.PrefixSibling | src/fetch-versions.ts:28 | with stable versions `v` and `v0`, the entry for `v` gets `v0` as `original`, because the lookup is by prefix |
| FetchVersions.FilteredPair | src/fetch-versions.ts:23-25 | two stable raw versions filter to their two stripped versions, in order |
| FetchVersions.PairCatalog | src/fetch-versions.ts:26-31 | for two versions where the second extends the first, the catalog lists the second then the first, both with the second as `original` |
| Text.JoinSplit | src/init.ts:104-108 | `s.split(sep).join(sep) == s` |
| Text.Split | src/init.ts:106 | `split` at a one-character separator: the text between separators, at least one part; its properties are `JoinSplit`, `SplitJoin` and `SplitNoSeparator` |
| Text.Join | src/init.ts:108 | `join` with a one-character separator; inverse of `Split` by `JoinSplit` and `SplitJoin` |
| Text.StartsWith | src/init.ts:144 | `startsWith`: the prefix is an initial segment; used by `FindIndex`, `FindLastIndex` and `RewriteEnvLines` |
| Text.ParseDecimal | src/init.ts:112 | `parseInt` on a run of decimal digits; inverse of the decimal spelling by `ParseShow` |
| Text.SplitJoin | src/init.ts:104-108 | splitting the join of separator-free parts gives the parts back |
| Text.SplitNoSeparator | src/init.ts:106 | no part of a split contains the separator |
| Text.ParseShow | src/init.ts:112-113 | `parseInt` of the decimal spelling of `n` is `n` |
| Text.TripleOf | src/init.ts:7 | three digit runs joined by dots match `\d+\.\d+\.\d+` and split back into the same runs |
| Text.TripleParts | src/init.ts:7 | a string matching `\d+\.\d+\.\d+` is three digit runs joined by dots |
| Boilerplate.CreateBoilerplate | src/boilerplate.ts:1-76 | format 2; one module each; the behaviour pack depends on server, server-net, server-admin and then the resource pack; the packs name each other's uuid; every version field is the plugin version |
| Boilerplate.ReadBack | src/boilerplate.ts:1-76 | all nine arguments can be read back from the pair, so different arguments give different pairs |
| Boilerplate.BoilerplateFields | src/boilerplate.ts:12-75 | the `-BP`/`-RP` names, the descriptions, the engine version in both headers, the four uuids and the three module dependency versions |
| InitCommand.VersionRegexIff | src/init.ts:7 | `versionRegex` accepts exactly three digit runs joined by two dots (both directions) |
| InitCommand.IsVersion | src/init.ts:7 | `versionRegex.test`; its property is `VersionRegexIff` |
| InitCommand.MapOf | src/init.ts:9-22 | `new Map(rows)`, the later row winning; `VersionTable` holds the twelve rows and `VersionMapping` is their map; its properties are `MapOfRow` and `MapOfKeys` in both directions, and `TableRows`, `MappingAreVersions` and `TableKeysAccepted` for the table |
| InitCommand.MapOfRow | src/init.ts:9-22 | every binding of `new Map(rows)` comes from one of its rows |
| InitCommand.MapOfKeys | src/init.ts:9-22 | every row's key is bound by `new Map(rows)`, and a row that no later row overrides gives the binding |
| InitCommand.TableRows | src/init.ts:9-22 | both versions of every row of the table match `versionRegex` |
| InitCommand.MappingAreVersions | src/init.ts:9-22 | every key and every value of `versionMapping` matches `versionRegex` |
| InitCommand.TableKeysAccepted | src/init.ts:9-22 | the twelve API versions are pairwise different, so every row's API version is accepted by the target prompt and maps to that row's engine version |
| InitCommand.MappedVersion | src/init.ts:78-80 | a key accepted by the target prompt maps to a version that matches `versionRegex` |
| InitCommand.ValidTargetApi | src/init.ts:78 | the target prompt's `validate`; its property is `ValidTargetIff` |
| InitCommand.LatestRow | src/init.ts:8-21 | `latestApiRelease` is a key of the table and maps to `1.21.0` |
| InitCommand.ValidTargetIff | src/init.ts:75-79 | the target prompt accepts a string iff it is a key of `versionMapping`; its default is accepted |
| InitCommand.ParseAll | src/init.ts:112-113 | `map(parseInt)` gives one number per part |
| InitCommand.ParseVersion | src/init.ts:112-113 | a string matching `versionRegex` parses into exactly three numbers |
| InitCommand.ParseShowVersion | src/init.ts:112-113 | parsing a spelled-out version gives its three numbers back |
| InitCommand.LatestMinEngine | src/init.ts:8-21 | for the default target, the engine version array written into both manifests is `[1, 21, 0]` |
| InitCommand.EnvLinesAt | src/init.ts:107 | line `k` of the rewrite is the callback applied to line `k` |
| InitCommand.EnvLines | src/init.ts:107 | the `.map` of the `.env` rewrite: one line out per line in; its property is `EnvLinesAt` |
| InitCommand.EnvLine | src/init.ts:107 | the `map` callback of the `.env` rewrite; its property is `EnvLinesAt` |
| InitCommand.RewriteEnv | src/init.ts:103-109 | the `.env` rewrite: split, map, join; its properties are `RewriteEnvLines`, `RewriteEnvIdempotent` and `RewriteEnvWithoutKey` |
| InitCommand.RewriteEnvLines | src/init.ts:103-109 | for a one-line name, the rewrite keeps the line count, replaces each `PROJECT_NAME=` line by `PROJECT_NAME="<name>"` and keeps every other line |
| InitCommand.RewriteEnvIdempotent | src/init.ts:103-109 | rewriting twice with the same name is the same as rewriting once |
| InitCommand.RewriteEnvWithoutKey | src/init.ts:103-109 | without a `PROJECT_NAME=` line the file is written back unchanged |
| InitCommand.FindIndex | src/init.ts:143-145 | `findIndex` is the first line starting with the prefix, or -1 when none does |
| InitCommand.EntryLine | src/init.ts:146 | the replacement line of `main.ts`, trailing `'` included; used by `PatchedEntryLines` |
| InitCommand.PatchedEntry | src/init.ts:141-147 | the text written to `main.ts`; its properties are `PatchedEntryLines` and `PatchedEntryWithoutMatch`, and `PatchEntry` computes it |
| InitCommand.PatchEntry | src/init.ts:141-147 | the array store at the found index, then the join, gives `PatchedEntry` |
| InitCommand.PatchedEntryLines | src/init.ts:141-147 | for a one-line name, the patched file's lines are the old lines with exactly the first `export const pluginName` line replaced |
| InitCommand.PatchedEntryWithoutMatch | src/init.ts:143-147 | with no `export const pluginName` line, the store at index -1 leaves the written text unchanged |
| InitCommand.PackageJson.constructor | src/init.ts:62 | the object holds the parsed document's fields |
| InitCommand.InitPackage | src/init.ts:91-96 | the six assignments to `package.json`; its property is `InitPackageFields`, and `EditPackage` performs it |
| InitCommand.InitPackageFields | src/init.ts:91-96 | the edited `package.json` names the plugin, pins `@minecraft/server` to `^target` and `@minecraft/vanilla-data` to `^engine`, and keeps every other dependency |
| InitCommand.EditPackage | src/init.ts:91-96 | the in-place assignments turn the object into `InitPackage` of its old value |
| InitCommand.Init | src/init.ts:80-147 | on decline: nothing written and `package.json` unchanged; on confirmation: the edited `package.json`, then `.env`, the two manifests and `main.ts` are written, in that order |
| InitCommand.InitBoilerplate | src/init.ts:112-125 | the parsed version arrays passed to `createBoilerplate`; its property is `InitManifests` |
| InitCommand.InitManifests | src/init.ts:112-125 | the scaffolded pair keeps the layout, has the plugin version in every version field, and has the table's engine version for the target in both headers |
| PatchCommand.ManifestDoc.constructor | src/patch.ts:11-12 | the object holds the parsed manifest's fields |
| PatchCommand.Restamped | src/patch.ts:46-57 | the five assignments to one manifest, with dependency index 1 for the behaviour pack and 0 for the resource pack; its properties are `RestampedFields` and `RestampIdempotent` |
| PatchCommand.ManifestDoc.Restamp | src/patch.ts:46-57 | one manifest's assignments turn it into `Restamped` of its old value |
| PatchCommand.RestampedFields | src/patch.ts:46-57 | description, engine version and header version change, as do the first module's version and dependency `k`'s version (to a number array); format, name, uuid, module kinds and uuids, dependency targets and every other entry are kept |
| PatchCommand.RestampIdempotent | src/patch.ts:46-57 | restamping again with the same answers changes nothing |
| PatchCommand.PatchedPackage | src/patch.ts:40-42 | the three assignments to `package.json`; its property is `PatchedPackageFields`, and `PatchPackage` performs it |
| PatchCommand.PatchedPackageFields | src/patch.ts:40-42 | only `version`, `description` and `@minecraft/server` (to `^target`) change; name, product name and every other dependency, `@minecraft/vanilla-data` included, are kept |
| PatchCommand.PatchPackage | src/patch.ts:40-42 | the in-place assignments turn the object into `PatchedPackage` of its old value |
| PatchCommand.DropFirst | src/patch.ts:21 | `substring(1)`: the string minus its first character, or `""` for the empty string |
| PatchCommand.DefaultTarget | src/patch.ts:21 | the default of the target prompt: the `@minecraft/server` range minus its first character; none when the entry is missing, where the source throws and `Patch` therefore requires it; its property is `DefaultTargetRoundTrip` |
| PatchCommand.DefaultTargetRoundTrip | src/patch.ts:21 | after `init` or `patch`, the default of the next target prompt is the target just chosen |
| PatchCommand.PatchEngineVersion | src/patch.ts:29 | the engine version of an accepted target parses into three numbers |
| PatchCommand.Patch | src/patch.ts:28-58 | on decline: nothing written and all three documents unchanged; on confirmation: `package.json`, then the behaviour and resource manifests are edited and written, in that order |
| PatchCommand.PatchKeepsLayout | src/patch.ts:46-57 | on a scaffolded pair the layout is kept; both headers get the same engine version, version and description; behaviour dependencies 0, 2 and 3 are kept, and dependency 1 becomes a number array |
| PatchCommand.PatchVersionsIff | src/patch.ts:48-57 | on a pair whose versions all equal `previous`, every version field equals the new version afterwards iff the version did not change |

## Left out

- Querying the registry (`fetchVersions`, `npm view … --json` through `exec`) is left out. The raw version list is a parameter of `VersionPrefixes`.
- The interactive prompts are left out. Their answers are parameters, and their `validate` predicates become the preconditions of `Init` and `Patch`. Prompt defaults only matter when an answer is left empty, so they have no model of their own except the target default of `patch` (`DefaultTarget`). In `patch`, the version and description defaults are the `version` and `description` fields of `package.json`. In `init`, the version default is the literal `0.1.0`, the target default is `latestApiRelease` (`ValidTargetIff`), and the name and description prompts have no default.
- File reads, JSON parsing and serialisation, `path.resolve`, `mkdirSync` and console output are left out. A write is an entry of the log with the value written. Failures of the file system (such as an existing `behavior_packs` directory) are not modelled.
- `randomUUID` is left out. The four uuids are parameters of `Init`.
- `src/index.ts`, the command dispatcher, is not part of this model.
- `package.json` and the manifests are modelled by the fields the commands read or write. Other JSON keys are not represented.
- Init: assumes `package.json` has a `dependencies` object. In the source, a missing one throws after the prompts; the model has no such error path.
- Patch: requires `package.json` to have a `@minecraft/server` dependency. The source reads it for the target default after the version prompt and before the target prompt, so before any edit or write, and throws without it, so no edit happens (`DefaultTarget` is then none). A `package.json` with no `dependencies` object at all throws at the same point; the model always has a dependency map, so that case is covered by the same precondition.
- Patch: requires the manifests to have a first module and the dependency it rewrites, and requires two different manifest objects. The source throws on a missing entry after `package.json` is already written; that partial write is not modelled.
- ParseVersion: only defined on strings matching `versionRegex`, which is what the prompts guarantee. `parseInt` on other text, `NaN`, and numbers beyond double precision are not modelled; numbers are unbounded.
- FetchVersions.Describe: on a version that does not match the reduced pattern, the source would fail and `original` would be `undefined`. The model returns empty strings instead. The catalog never describes such a version (`CatalogEntry`).
