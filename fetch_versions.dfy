/**
 * The version catalog of `@minecraft/server`: the registry's raw version
 * list (newest first) is reduced to one entry per distinct
 * `A.B.C-beta.X.Y.Z` string that the registry published with a `-stable`
 * suffix. The raw list is a parameter; querying the registry is not modelled.
 */
module FetchVersions {
  import opened Text

  /** One catalog entry, with the field names the tool gives it. */
  datatype Release = Release(
    original: string,
    mcDependencyVersion: string,
    apiVersion: string,
    releaseVersion: string)

  /**
   * `reducedVersionExp`, `/^(\d+\.\d+\.\d+)-beta\.(\d+\.\d+\.\d+)$/`: the two
   * captured groups, or None when the whole string does not match. Neither
   * group can hold a '-', so the match is the split of `s` at its one '-'.
   */
  function MatchReduced(s: string): Option<(string, string)>
  {
    var p := Split(s, '-');
    if |p| == 2 && IsTriple(p[0]) && StartsWith(p[1], "beta.") && IsTriple(p[1][5..])
    then Some((p[0], p[1][5..]))
    else None
  }

  /** The reduced pattern accepts `api-beta.release` and captures the two triples. */
  lemma ReducedOf(api: string, release: string)
    requires IsTriple(api) && IsTriple(release)
    ensures MatchReduced(api + "-beta." + release) == Some((api, release))
  {
    var tail := "beta." + release;
    TripleExcludes(api, '-');
    TripleExcludes(release, '-');
    assert '-' !in tail by {
      assert forall i :: 0 <= i < |tail| ==> tail[i] != '-' by {
        forall i | 0 <= i < |tail| ensures tail[i] != '-' {
          if i >= 5 { assert tail[i] == release[i - 5]; }
        }
      }
    }
    assert [api, tail][1..] == [tail];
    assert Join([api, tail], '-') == api + "-beta." + release;
    SplitJoin([api, tail], '-');
    assert tail[..5] == "beta." && tail[5..] == release;
  }

  /** Whatever the reduced pattern accepts is `api-beta.release` for its captured triples. */
  lemma ReducedParts(s: string)
    requires MatchReduced(s).Some?
    ensures var (api, release) := MatchReduced(s).value;
            s == api + "-beta." + release && IsTriple(api) && IsTriple(release)
  {
    var p := Split(s, '-');
    JoinSplit(s, '-');
    assert p[1..] == [p[1]];
    assert p[1] == "beta." + p[1][5..];
    assert s == p[0] + "-" + p[1];
  }

  /**
   * `versionExp`, `/^(\d+\.\d+\.\d+-beta\.\d+\.\d+\.\d+)-stable$/`: the
   * captured group (the string without its `-stable` suffix), or None.
   */
  function MatchStable(s: string): Option<string>
  {
    if |s| >= 7 && s[|s| - 7..] == "-stable" && MatchReduced(s[..|s| - 7]).Some?
    then Some(s[..|s| - 7])
    else None
  }

  /** The stable pattern accepts exactly a reduced version followed by `-stable`, and captures that version. */
  lemma StableIff(s: string, x: string)
    ensures MatchStable(s) == Some(x) <==> s == x + "-stable" && MatchReduced(x).Some?
  {
    if s == x + "-stable" {
      assert s[..|s| - 7] == x && s[|s| - 7..] == "-stable";
    }
    if MatchStable(s) == Some(x) {
      assert s == s[..|s| - 7] + s[|s| - 7..];
    }
  }

  /**
   * `rawVersionList.filter(v => versionExp.test(v)).map(v => v.match(versionExp)![1])`:
   * the matching raw versions in order, each without its `-stable` suffix.
   */
  function Filtered(raw: seq<string>): (filtered: seq<string>)
    ensures |filtered| <= |raw|
  {
    if raw == [] then []
    else
      var rest := Filtered(raw[1..]);
      match MatchStable(raw[0])
      case Some(x) => [x] + rest
      case None => rest
  }

  /** A version is in the filtered list exactly when the raw list holds it with a `-stable` suffix. */
  lemma {:induction false} FilteredMembers(raw: seq<string>, x: string)
    ensures x in Filtered(raw) <==> x + "-stable" in raw && MatchReduced(x).Some?
  {
    if raw != [] {
      FilteredMembers(raw[1..], x);
      StableIff(raw[0], x);
      assert raw == [raw[0]] + raw[1..];
    }
  }

  predicate NoDuplicates(s: seq<string>) {
    forall i, j :: 0 <= i < j < |s| ==> s[i] != s[j]
  }

  ghost function Elements(s: seq<string>): set<string> {
    set x | x in s
  }

  /**
   * `Array.from(new Set(s))`: the distinct elements of `s`, in the order in
   * which the set first received them.
   */
  function Distinct(s: seq<string>): (d: seq<string>)
    ensures forall x :: x in d <==> x in s
    ensures NoDuplicates(d)
  {
    if s == [] then []
    else
      var init := s[..|s| - 1];
      var d := Distinct(init);
      assert s == init + [s[|s| - 1]];
      if s[|s| - 1] in d then d else d + [s[|s| - 1]]
  }

  /** Position of the first occurrence of `x` in `s`. */
  function FirstIndex(s: seq<string>, x: string): (k: nat)
    requires x in s
    ensures k < |s| && s[k] == x
    ensures forall j :: 0 <= j < k ==> s[j] != x
  {
    var init := s[..|s| - 1];
    assert s == init + [s[|s| - 1]];
    if x in init then FirstIndex(init, x) else |s| - 1
  }

  /** The set lists its elements in the order of their first occurrences. */
  lemma {:induction false} DistinctOrder(s: seq<string>, i: nat, j: nat)
    requires i < j < |Distinct(s)|
    ensures FirstIndex(s, Distinct(s)[i]) < FirstIndex(s, Distinct(s)[j])
  {
    var init := s[..|s| - 1];
    var d := Distinct(init);
    var x, y := Distinct(s)[i], Distinct(s)[j];
    assert s == init + [s[|s| - 1]];
    assert x in init by {
      assert x in d;
    }
    assert FirstIndex(s, x) == FirstIndex(init, x);
    if j < |d| {
      DistinctOrder(init, i, j);
      assert y in init;
      assert FirstIndex(s, y) == FirstIndex(init, y);
    } else {
      assert y == s[|s| - 1] && y !in init;
    }
  }

  /**
   * `DistinctOrder` for two given elements of the set. Naming the two
   * elements as parameters spares callers a costly match of the set's
   * indices against their own strings.
   */
  lemma DistinctOrderOf(s: seq<string>, i: nat, j: nat, x: string, y: string)
    requires i < j < |Distinct(s)| && x == Distinct(s)[i] && y == Distinct(s)[j]
    ensures x in s && y in s && FirstIndex(s, x) < FirstIndex(s, y)
  {
    DistinctOrder(s, i, j);
  }

  /** The set has as many elements as the sequence has distinct values. */
  lemma {:induction false} DistinctCount(s: seq<string>)
    ensures |Distinct(s)| == |Elements(s)|
  {
    if s != [] {
      var init := s[..|s| - 1];
      var last := s[|s| - 1];
      DistinctCount(init);
      assert s == init + [last];
      assert Elements(s) == Elements(init) + {last};
      if last !in init {
        assert last !in Elements(init);
      } else {
        assert Elements(s) == Elements(init);
      }
    }
  }

  /**
   * `s.findLastIndex(v => v.startsWith(prefix))`: the last position whose
   * element starts with `prefix`, or -1.
   */
  function FindLastIndex(s: seq<string>, prefix: string): (k: int)
    ensures -1 <= k < |s|
    ensures k >= 0 ==> StartsWith(s[k], prefix)
    ensures forall j :: k < j < |s| ==> !StartsWith(s[j], prefix)
  {
    if s == [] then -1
    else if StartsWith(s[|s| - 1], prefix) then |s| - 1
    else FindLastIndex(s[..|s| - 1], prefix)
  }

  /** Position `k` holds the last element of `s` that starts with `prefix`. */
  predicate IsLastWithPrefix(s: seq<string>, k: int, prefix: string) {
    0 <= k < |s| && StartsWith(s[k], prefix) &&
    forall j :: k < j < |s| ==> !StartsWith(s[j], prefix)
  }

  /**
   * The entry for one distinct reduced version: `original` is
   * `filtered.findLast(v => v.startsWith(version))` and the other two fields
   * are the groups of `reducedVersionExp`. The catalog only describes
   * filtered versions, which match (`DescribeSpec`); on other arguments the
   * model puts empty strings where the source would leave `original`
   * undefined or fail on the missing match.
   */
  function Describe(filtered: seq<string>, version: string): (r: Release)
    ensures r.mcDependencyVersion == version
  {
    var k := FindLastIndex(filtered, version);
    var original := if k >= 0 then filtered[k] else "";
    match MatchReduced(version)
    case Some((api, release)) => Release(original, version, api, release)
    case None => Release(original, version, "", "")
  }

  /**
   * For a version of the filtered list that matches the reduced pattern, the
   * entry splits it into its two triples, and `original` is the last
   * filtered version that starts with it.
   */
  lemma DescribeSpec(filtered: seq<string>, version: string, r: Release)
    requires version in filtered && MatchReduced(version).Some?
    requires r == Describe(filtered, version)
    ensures r.apiVersion + "-beta." + r.releaseVersion == version
    ensures IsTriple(r.apiVersion) && IsTriple(r.releaseVersion)
    ensures r.original in filtered
    ensures exists k :: IsLastWithPrefix(filtered, k, version) && filtered[k] == r.original
  {
    var i :| 0 <= i < |filtered| && filtered[i] == version;
    assert StartsWith(filtered[i], version);
    assert IsLastWithPrefix(filtered, FindLastIndex(filtered, version), version);
    ReducedParts(version);
  }

  /** `Array.prototype.reverse` */
  function Reverse(s: seq<string>): (r: seq<string>)
    ensures |r| == |s|
  {
    if s == [] then [] else [s[|s| - 1]] + Reverse(s[..|s| - 1])
  }

  /** Reversal puts element `i` from the end at position `i`. */
  lemma {:induction false} ReverseAt(s: seq<string>, i: nat)
    requires i < |s|
    ensures Reverse(s)[i] == s[|s| - 1 - i]
  {
    if i > 0 {
      ReverseAt(s[..|s| - 1], i - 1);
    }
  }

  /** `versions.map(v => Describe(filtered, v))` */
  function DescribeAll(filtered: seq<string>, versions: seq<string>): (entries: seq<Release>)
    ensures |entries| == |versions|
  {
    if versions == [] then []
    else [Describe(filtered, versions[0])] + DescribeAll(filtered, versions[1..])
  }

  /** Entry `i` describes version `i`. */
  lemma {:induction false} DescribeAllAt(filtered: seq<string>, versions: seq<string>, i: nat)
    requires i < |versions|
    ensures DescribeAll(filtered, versions)[i] == Describe(filtered, versions[i])
  {
    if i > 0 {
      DescribeAllAt(filtered, versions[1..], i - 1);
    }
  }

  /**
   * `getMinecraftServerApiVersionPrefixes`, applied to the raw version list:
   * filter and strip, deduplicate with a set, reverse, describe each.
   */
  function VersionPrefixes(raw: seq<string>): seq<Release>
  {
    Catalog(Filtered(raw))
  }

  /** The part of `getMinecraftServerApiVersionPrefixes` after filtering. */
  function Catalog(filtered: seq<string>): seq<Release>
  {
    DescribeAll(filtered, Reverse(Distinct(filtered)))
  }

  /** Entry `i` describes the `i`-th distinct version counted from the end of the set's order. */
  lemma CatalogAt(raw: seq<string>, i: nat)
    ensures |VersionPrefixes(raw)| == |Distinct(Filtered(raw))|
    ensures i < |VersionPrefixes(raw)| ==>
              VersionPrefixes(raw)[i] == Describe(Filtered(raw), Distinct(Filtered(raw))[|VersionPrefixes(raw)| - 1 - i])
  {
    CatalogOfAt(Filtered(raw), i);
  }

  /** Entry `i` describes the `i`-th distinct version counted from the end of the set's order. */
  lemma CatalogOfAt(filtered: seq<string>, i: nat)
    ensures |Catalog(filtered)| == |Distinct(filtered)|
    ensures i < |Catalog(filtered)| ==>
              Catalog(filtered)[i] == Describe(filtered, Distinct(filtered)[|Catalog(filtered)| - 1 - i])
  {
    if i < |Distinct(filtered)| {
      ReverseAt(Distinct(filtered), i);
      DescribeAllAt(filtered, Reverse(Distinct(filtered)), i);
    }
  }

  /** The version of entry `i` is the `i`-th distinct version counted from the end of the set's order. */
  lemma CatalogVersionAt(raw: seq<string>, i: nat)
    ensures |VersionPrefixes(raw)| == |Distinct(Filtered(raw))|
    ensures i < |VersionPrefixes(raw)| ==>
              VersionPrefixes(raw)[i].mcDependencyVersion == Distinct(Filtered(raw))[|VersionPrefixes(raw)| - 1 - i]
  {
    CatalogAt(raw, i);
  }

  /** `CatalogVersionAt` for every entry at once. */
  lemma CatalogVersions(raw: seq<string>)
    ensures |VersionPrefixes(raw)| == |Distinct(Filtered(raw))|
    ensures forall k :: 0 <= k < |VersionPrefixes(raw)| ==>
              VersionPrefixes(raw)[k].mcDependencyVersion == Distinct(Filtered(raw))[|VersionPrefixes(raw)| - 1 - k]
  {
    CatalogVersionAt(raw, 0);
    forall k | 0 <= k < |VersionPrefixes(raw)|
      ensures VersionPrefixes(raw)[k].mcDependencyVersion == Distinct(Filtered(raw))[|VersionPrefixes(raw)| - 1 - k]
    {
      CatalogVersionAt(raw, k);
    }
  }

  /**
   * Each entry: its version is a stable raw version without the suffix, it
   * splits into its API and release triples, and `original` is the last
   * filtered version that starts with it.
   */
  lemma CatalogEntry(raw: seq<string>, i: nat)
    requires i < |VersionPrefixes(raw)|
    ensures VersionPrefixes(raw)[i].mcDependencyVersion + "-stable" in raw
    ensures VersionPrefixes(raw)[i].apiVersion + "-beta." + VersionPrefixes(raw)[i].releaseVersion
              == VersionPrefixes(raw)[i].mcDependencyVersion
    ensures IsTriple(VersionPrefixes(raw)[i].apiVersion) && IsTriple(VersionPrefixes(raw)[i].releaseVersion)
    ensures VersionPrefixes(raw)[i].original in Filtered(raw)
    ensures exists k :: IsLastWithPrefix(Filtered(raw), k, VersionPrefixes(raw)[i].mcDependencyVersion) &&
                        Filtered(raw)[k] == VersionPrefixes(raw)[i].original
  {
    CatalogAt(raw, i);
    FilteredMembers(raw, VersionPrefixes(raw)[i].mcDependencyVersion);
    DescribeSpec(Filtered(raw), VersionPrefixes(raw)[i].mcDependencyVersion, VersionPrefixes(raw)[i]);
  }

  /** A version has an entry exactly when the raw list holds it with a `-stable` suffix. */
  lemma CatalogCovers(raw: seq<string>, x: string)
    ensures (exists i :: 0 <= i < |VersionPrefixes(raw)| && VersionPrefixes(raw)[i].mcDependencyVersion == x)
            <==> x + "-stable" in raw && MatchReduced(x).Some?
  {
    FilteredMembers(raw, x);
    CatalogVersionAt(raw, 0);
    if x in Filtered(raw) {
      assert x in Distinct(Filtered(raw));
      var n :| 0 <= n < |Distinct(Filtered(raw))| && Distinct(Filtered(raw))[n] == x;
      CatalogVersionAt(raw, |Distinct(Filtered(raw))| - 1 - n);
      assert VersionPrefixes(raw)[|Distinct(Filtered(raw))| - 1 - n].mcDependencyVersion == x;
    }
    if exists i :: 0 <= i < |VersionPrefixes(raw)| && VersionPrefixes(raw)[i].mcDependencyVersion == x {
      var i :| 0 <= i < |VersionPrefixes(raw)| && VersionPrefixes(raw)[i].mcDependencyVersion == x;
      CatalogVersionAt(raw, i);
      assert x in Distinct(Filtered(raw));
    }
  }

  /** With no stable raw version, the catalog is empty, and conversely. */
  lemma CatalogEmpty(raw: seq<string>)
    ensures VersionPrefixes(raw) == [] <==> forall k :: 0 <= k < |raw| ==> MatchStable(raw[k]).None?
  {
    if exists k :: 0 <= k < |raw| && MatchStable(raw[k]).Some? {
      var k :| 0 <= k < |raw| && MatchStable(raw[k]).Some?;
      StableIff(raw[k], MatchStable(raw[k]).value);
      CatalogCovers(raw, MatchStable(raw[k]).value);
    } else if VersionPrefixes(raw) != [] {
      CatalogCovers(raw, VersionPrefixes(raw)[0].mcDependencyVersion);
      var k :| 0 <= k < |raw| && raw[k] == VersionPrefixes(raw)[0].mcDependencyVersion + "-stable";
      StableIff(raw[k], VersionPrefixes(raw)[0].mcDependencyVersion);
    }
  }

  /**
   * No two entries share a version, and there are as many entries as
   * distinct stripped versions.
   */
  lemma CatalogDistinct(raw: seq<string>)
    ensures |VersionPrefixes(raw)| == |Elements(Filtered(raw))|
    ensures forall i, j :: 0 <= i < j < |VersionPrefixes(raw)| ==>
              VersionPrefixes(raw)[i].mcDependencyVersion != VersionPrefixes(raw)[j].mcDependencyVersion
  {
    DistinctCount(Filtered(raw));
    CatalogVersionAt(raw, 0);
    forall i, j | 0 <= i < j < |VersionPrefixes(raw)|
      ensures VersionPrefixes(raw)[i].mcDependencyVersion != VersionPrefixes(raw)[j].mcDependencyVersion
    {
      CatalogVersionAt(raw, i);
      CatalogVersionAt(raw, j);
    }
  }

  /** Entries come in the reverse of the order in which their versions first occur. */
  lemma CatalogOrder(raw: seq<string>, i: nat, j: nat)
    requires i < j < |VersionPrefixes(raw)|
    ensures VersionPrefixes(raw)[i].mcDependencyVersion in Filtered(raw)
    ensures VersionPrefixes(raw)[j].mcDependencyVersion in Filtered(raw)
    ensures FirstIndex(Filtered(raw), VersionPrefixes(raw)[i].mcDependencyVersion)
          > FirstIndex(Filtered(raw), VersionPrefixes(raw)[j].mcDependencyVersion)
  {
    CatalogVersions(raw);
    ReversedOrder(Filtered(raw), VersionPrefixes(raw), i, j);
  }

  /** Entries listed against the reversed set come in reverse order of first occurrence. */
  lemma ReversedOrder(s: seq<string>, c: seq<Release>, i: nat, j: nat)
    requires |c| == |Distinct(s)|
    requires forall k :: 0 <= k < |c| ==> c[k].mcDependencyVersion == Distinct(s)[|c| - 1 - k]
    requires i < j < |c|
    ensures c[i].mcDependencyVersion in s && c[j].mcDependencyVersion in s
    ensures FirstIndex(s, c[i].mcDependencyVersion) > FirstIndex(s, c[j].mcDependencyVersion)
  {
    DistinctOrderOf(s, |c| - 1 - j, |c| - 1 - i, c[j].mcDependencyVersion, c[i].mcDependencyVersion);
  }

  /**
   * When no other stripped version extends an entry's version, `original`
   * is that version itself.
   */
  lemma OriginalIsOwnVersion(raw: seq<string>, i: nat)
    requires i < |VersionPrefixes(raw)|
    requires forall v :: v in Filtered(raw) && StartsWith(v, VersionPrefixes(raw)[i].mcDependencyVersion) ==>
                         v == VersionPrefixes(raw)[i].mcDependencyVersion
    ensures VersionPrefixes(raw)[i].original == VersionPrefixes(raw)[i].mcDependencyVersion
  {
    CatalogEntry(raw, i);
  }

  /** A single stable version gives a single entry holding its two triples. */
  lemma SingleRoundTrip(api: string, release: string)
    requires IsTriple(api) && IsTriple(release)
    ensures VersionPrefixes([api + "-beta." + release + "-stable"])
            == [Release(api + "-beta." + release, api + "-beta." + release, api, release)]
  {
    var v := api + "-beta." + release;
    ReducedOf(api, release);
    StableIff(v + "-stable", v);
    assert Filtered([v + "-stable"]) == [v] by {
      assert [v + "-stable"][1..] == [];
    }
    SingleCatalog(v, api, release);
  }

  /** The catalog of one version is its own entry. */
  lemma SingleCatalog(v: string, api: string, release: string)
    requires MatchReduced(v) == Some((api, release))
    ensures Catalog([v]) == [Release(v, v, api, release)]
  {
    assert [v][..0] == [] && [v][1..] == [];
    assert Distinct([v]) == [v];
    assert Reverse([v]) == [v];
    assert StartsWith(v, v);
    assert FindLastIndex([v], v) == 0;
  }

  /**
   * `original` is found by prefix, so it can be a longer sibling: with the
   * stable versions `v` and `v0` (releases `a.b.c` and `a.b.c0`), the
   * entry for `v` takes `v0` as its original.
   */
  lemma PrefixSibling(api: string, a: string, b: string, c: string)
    requires IsTriple(api) && IsDigitRun(a) && IsDigitRun(b) && IsDigitRun(c)
    ensures var v := api + "-beta." + (a + "." + b + "." + c);
            VersionPrefixes([v + "-stable", v + "0" + "-stable"])
              == [Release(v + "0", v + "0", api, a + "." + b + "." + (c + "0")),
                  Release(v + "0", v, api, a + "." + b + "." + c)]
  {
    var release, release' := a + "." + b + "." + c, a + "." + b + "." + (c + "0");
    var v, w := api + "-beta." + release, api + "-beta." + release';
    assert w == v + "0";
    assert IsDigitRun(c + "0");
    TripleOf(a, b, c);
    TripleOf(a, b, c + "0");
    ReducedOf(api, release);
    ReducedOf(api, release');
    StableIff(v + "-stable", v);
    StableIff(w + "-stable", w);
    FilteredPair(v + "-stable", w + "-stable", v, w);
    assert w[..|v|] == v;
    PairCatalog(v, w, api, release, release');
  }

  /** Two stable raw versions filter to their two stripped versions. */
  lemma FilteredPair(s: string, t: string, x: string, y: string)
    requires MatchStable(s) == Some(x) && MatchStable(t) == Some(y)
    ensures Filtered([s, t]) == [x, y]
  {
    assert [s, t][1..] == [t] && [t][1..] == [];
  }

  /**
   * The catalog of two distinct versions, the second extending the first:
   * both entries take the second as their original.
   */
  lemma PairCatalog(v: string, w: string, api: string, release: string, release': string)
    requires v != w && StartsWith(w, v)
    requires MatchReduced(v) == Some((api, release)) && MatchReduced(w) == Some((api, release'))
    ensures Catalog([v, w]) == [Release(w, w, api, release'), Release(w, v, api, release)]
  {
    DistinctPair(v, w);
    assert Reverse([v, w]) == [w, v] by {
      assert [v, w][..1] == [v];
    }
    assert StartsWith(w, w);
    assert FindLastIndex([v, w], v) == 1;
    assert FindLastIndex([v, w], w) == 1;
    assert Describe([v, w], w) == Release(w, w, api, release');
    assert Describe([v, w], v) == Release(w, v, api, release);
    assert [w, v][1..] == [v] && [v][1..] == [];
    assert DescribeAll([v, w], [w, v]) == [Describe([v, w], w), Describe([v, w], v)];
  }

  /** The set of two different values lists both, in order. */
  lemma DistinctPair(x: string, y: string)
    requires x != y
    ensures Distinct([x, y]) == [x, y]
  {
    assert [x, y][..1] == [x] && [x][..0] == [];
    assert Distinct([x]) == [x];
  }
}
