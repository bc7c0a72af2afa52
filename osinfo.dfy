/**
 * OS information from existing SBOM files (`extract_os_from_sboms.py`): the image name,
 * the first `operating-system` component of each SBOM, the SBOM files of a directory in
 * sorted order, and the family distribution of the results.
 */
module OsExtraction {
  import opened Wrappers
  import opened Text
  import opened Collections
  import opened Sbom

  /** One row of the OS report. */
  datatype OsInfo = OsInfo(image: string, osFamily: string, osVersion: string, eosl: string, sbomFile: string)

  /** `metadata.component.get('name', 'unknown')` when both keys exist, "unknown" otherwise. */
  function OsImageName(bom: Bom): (name: string)
    ensures (bom.metadata.None? || bom.metadata.value.component.None?) ==> name == "unknown"
    ensures bom.metadata.Some? && bom.metadata.value.component.Some? ==>
      name == bom.metadata.value.component.value.name.GetOr("unknown")
  {
    match bom.metadata
    case Some(Metadata(Some(c))) => c.name.GetOr("unknown")
    case _ => "unknown"
  }

  predicate IsOs(c: Component) {
    c.kind == Some("operating-system")
  }

  /** The part of a path after its last '/' (`os.path.basename`). */
  function Basename(path: string): (b: string)
    ensures '/' !in b && EndsWith(path, b)
    ensures b == path || path[|path| - |b| - 1] == '/'
    decreases |path|
  {
    if path == [] then []
    else if path[|path| - 1] == '/' then []
    else
      var init, c := path[..|path| - 1], path[|path| - 1];
      var b := Basename(init);
      InitLast(path);
      BasenameSnoc(init, c, b);
      b + [c]
  }

  /** A character other than '/' extends both the path and its basename. */
  lemma BasenameSnoc(init: string, c: char, b: string)
    requires c != '/' && '/' !in b && EndsWith(init, b) && (b == init || init[|init| - |b| - 1] == '/')
    ensures '/' !in b + [c] && EndsWith(init + [c], b + [c])
    ensures b + [c] == init + [c] || (init + [c])[|init| - |b| - 1] == '/'
  {
    var p := init + [c];
    assert p[|p| - |b| - 1..] == init[|init| - |b|..] + [c];
  }

  /** The record for an SBOM whose OS component is `os`, or whose OS is unknown when `None`. */
  function RecordOf(path: string, bom: Bom, os: Option<Component>): (r: OsInfo)
    ensures r.eosl == "unknown" && r.sbomFile == Basename(path) && r.image == OsImageName(bom)
    ensures os.None? ==> r.osFamily == "unknown" && r.osVersion == "unknown"
    ensures os.Some? && os.value.name.Some? ==> r.osFamily == os.value.name.value
  {
    match os
    case Some(c) => OsInfo(OsImageName(bom), c.name.GetOr("unknown"), c.version.GetOr("unknown"), "unknown", Basename(path))
    case None => OsInfo(OsImageName(bom), "unknown", "unknown", "unknown", Basename(path))
  }

  /** The first `operating-system` component, if any. */
  function FirstOs(cs: seq<Component>): (r: Option<nat>)
    ensures r.Some? ==> r.value < |cs| && IsOs(cs[r.value]) && forall i :: 0 <= i < r.value ==> !IsOs(cs[i])
    ensures r.None? ==> forall i :: 0 <= i < |cs| ==> !IsOs(cs[i])
    decreases |cs|
  {
    if cs == [] then None
    else if IsOs(cs[0]) then Some(0)
    else
      var r := FirstOs(cs[1..]);
      if r.Some? then Some(r.value + 1) else None
  }

  /** What `extract_os_from_sbom` returns for a file: `None` when it cannot be read as JSON. */
  function OsInfoOf(path: string, file: BomFile): (r: Option<OsInfo>)
    ensures r.Some? <==> file.Parsed?
    ensures r.Some? ==> var i := FirstOs(file.bom.components);
      && (i.None? ==> r.value.osFamily == "unknown" && r.value.osVersion == "unknown")
      && (i.Some? ==> r.value.osVersion == file.bom.components[i.value].version.GetOr("unknown"))
  {
    match file
    case Parsed(bom) =>
      var i := FirstOs(bom.components);
      Some(RecordOf(path, bom, if i.Some? then Some(bom.components[i.value]) else None))
    case _ => None
  }

  /** `extract_os_from_sbom`: the loop over the components returns at the first OS one. */
  method ExtractOsFromSbom(path: string, file: BomFile) returns (r: Option<OsInfo>)
    ensures r == OsInfoOf(path, file)
  {
    if !file.Parsed? {
      return None;
    }
    var bom := file.bom;
    var cs := bom.components;
    for i := 0 to |cs|
      invariant forall j :: 0 <= j < i ==> !IsOs(cs[j])
    {
      if cs[i].kind == Some("operating-system") {
        assert FirstOs(cs) == Some(i);
        return Some(RecordOf(path, bom, Some(cs[i])));
      }
    }
    return Some(RecordOf(path, bom, None));
  }

  /**
   * The first OS component decides the record: components after it, OS ones included,
   * change nothing.
   */
  lemma LaterOsIgnored(path: string, bom: Bom, more: seq<Component>)
    requires FirstOs(bom.components).Some?
    ensures OsInfoOf(path, Parsed(bom.(components := bom.components + more))) == OsInfoOf(path, Parsed(bom))
  {
    var cs := bom.components;
    var i := FirstOs(cs).value;
    var cs' := cs + more;
    assert forall j :: 0 <= j <= i ==> cs'[j] == cs[j];
    FirstOsIs(cs', i);
  }

  /** A position holding an OS component with none before it is the first one. */
  lemma {:induction false} FirstOsIs(cs: seq<Component>, i: nat)
    requires i < |cs| && IsOs(cs[i]) && forall j :: 0 <= j < i ==> !IsOs(cs[j])
    ensures FirstOs(cs) == Some(i)
    decreases i
  {
    if i > 0 {
      FirstOsIs(cs[1..], i - 1);
    }
  }

  /**
   * The fields of every record: an SBOM without an OS component reports "unknown" for
   * family and version; eosl is always "unknown"; the file is named by its basename.
   */
  lemma RecordFields(path: string, file: BomFile)
    requires OsInfoOf(path, file).Some?
    ensures file.Parsed?
    ensures var r := OsInfoOf(path, file).value;
      && r.eosl == "unknown" && r.sbomFile == Basename(path) && r.image == OsImageName(file.bom)
      && ((forall i :: 0 <= i < |file.bom.components| ==> !IsOs(file.bom.components[i])) ==>
            r.osFamily == "unknown" && r.osVersion == "unknown")
  {
  }

  // ---------------------------------------------------------------------------
  // find_sbom_files and process_sbom_directory
  // ---------------------------------------------------------------------------

  function PathLe(a: string, b: string): bool { StrLe(a, b) }

  /** `sorted(glob.glob(...))`: the listed paths in code-point order. */
  function FindSbomFiles(listing: seq<string>): (r: seq<string>)
    ensures SortedBy(r, PathLe) && multiset(r) == multiset(listing)
  {
    StrLeTotalOrder();
    SortByCorrect(listing, PathLe);
    SortBy(listing, PathLe)
  }

  /** The same files listed in any order give the same sorted list. */
  lemma FindSbomFilesDeterministic(a: seq<string>, b: seq<string>)
    requires multiset(a) == multiset(b)
    ensures FindSbomFiles(a) == FindSbomFiles(b)
  {
    var x, y := FindSbomFiles(a), FindSbomFiles(b);
    SortedPathsEqual(x, y);
  }

  /** Two lists sorted in code-point order with the same elements are equal. */
  lemma {:induction false} SortedPathsEqual(x: seq<string>, y: seq<string>)
    requires SortedBy(x, PathLe) && SortedBy(y, PathLe) && multiset(x) == multiset(y)
    ensures x == y
    decreases |x|
  {
    if x != [] {
      assert |y| == |multiset(y)| == |multiset(x)| == |x|;
      SortedHeads(x, y);
      MultisetTail(x);
      MultisetTail(y);
      SortedPathsEqual(x[1..], y[1..]);
      assert x == [x[0]] + x[1..] && y == [y[0]] + y[1..];
    }
  }

  /** Sorted lists with the same elements start with the same element. */
  lemma SortedHeads(x: seq<string>, y: seq<string>)
    requires SortedBy(x, PathLe) && SortedBy(y, PathLe) && multiset(x) == multiset(y) && x != [] && y != []
    ensures x[0] == y[0]
  {
    assert x[0] in multiset(y) && y[0] in multiset(x);
    var i :| 0 <= i < |y| && y[i] == x[0];
    var j :| 0 <= j < |x| && x[j] == y[0];
    assert StrLe(y[0], x[0]) && StrLe(x[0], y[0]);
    StrLtAsymmetric(x[0], y[0]);
  }

  lemma MultisetTail(x: seq<string>)
    requires x != []
    ensures multiset(x[1..]) == multiset(x) - multiset{x[0]}
  {
    assert x == [x[0]] + x[1..];
  }

  /** The records of the files in order, leaving out the files that fail. */
  function Results(paths: seq<string>, files: map<string, BomFile>): (rs: seq<OsInfo>)
    ensures |rs| <= |paths|
    decreases |paths|
  {
    if paths == [] then []
    else
      var init, p := paths[..|paths| - 1], paths[|paths| - 1];
      var r := OsInfoOf(p, if p in files then files[p] else NotFound);
      Results(init, files) + r.ToSeq()
  }

  lemma ResultsStep(paths: seq<string>, files: map<string, BomFile>, i: nat)
    requires i < |paths|
    ensures Results(paths[..i + 1], files) ==
      Results(paths[..i], files) + OsInfoOf(paths[i], if paths[i] in files then files[paths[i]] else NotFound).ToSeq()
  {
    PrefixOfPrefix(paths, i);
  }

  /** `process_sbom_directory` over the listed paths, reading each path from `files`. */
  method ProcessSbomDirectory(listing: seq<string>, files: map<string, BomFile>) returns (results: seq<OsInfo>)
    ensures results == Results(FindSbomFiles(listing), files)
  {
    results := ProcessPaths(FindSbomFiles(listing), files);
  }

  /** The loop of `process_sbom_directory`: extract each file's record and keep the ones that exist. */
  method ProcessPaths(paths: seq<string>, files: map<string, BomFile>) returns (results: seq<OsInfo>)
    ensures results == Results(paths, files)
  {
    results := [];
    for i := 0 to |paths|
      invariant results == Results(paths[..i], files)
    {
      ResultsStep(paths, files, i);
      var info := ExtractOsFromSbom(paths[i], if paths[i] in files then files[paths[i]] else NotFound);
      if info.Some? {
        results := results + [info.value];
      }
    }
    PrefixAll(paths);
  }

  /**
   * Every parsed file gives exactly one record and every other file none, so the results
   * are as many as the parsed files among the paths.
   */
  lemma {:induction false} ResultsCount(paths: seq<string>, files: map<string, BomFile>)
    ensures |Results(paths, files)| == ParsedCount(paths, files)
    decreases |paths|
  {
    if paths != [] {
      ResultsCount(paths[..|paths| - 1], files);
    }
  }

  /** The number of paths whose file reads as JSON. */
  function ParsedCount(paths: seq<string>, files: map<string, BomFile>): nat
    decreases |paths|
  {
    if paths == [] then 0
    else
      var p := paths[|paths| - 1];
      ParsedCount(paths[..|paths| - 1], files) + (if p in files && files[p].Parsed? then 1 else 0)
  }

  // ---------------------------------------------------------------------------
  // The family distribution
  // ---------------------------------------------------------------------------

  function FamilyOf(r: OsInfo): string { r.osFamily }

  /** The counts summed over the keys `ks`. */
  function SumCounts(counts: map<string, int>, ks: seq<string>): int
    requires forall k :: k in ks ==> k in counts
  {
    if ks == [] then 0 else counts[ks[0]] + SumCounts(counts, ks[1..])
  }

  /** `os_families[family] = os_families.get(family, 0) + 1` over the results. */
  method FamilyDistribution(results: seq<OsInfo>) returns (families: seq<string>, counts: map<string, int>)
    ensures forall k :: k in counts <==> exists i :: 0 <= i < |results| && results[i].osFamily == k
    ensures forall k :: k in counts ==> counts[k] == |Members(results, FamilyOf, k)|
    ensures forall k :: k in families <==> k in counts
    ensures SumCounts(counts, families) == |results|
  {
    families, counts := Tally(results, FamilyOf);
    GroupSizesSum(results, FamilyOf);
    SumIsTotalSize(results, counts, families);
  }

  lemma {:induction false} SumIsTotalSize(results: seq<OsInfo>, counts: map<string, int>, ks: seq<string>)
    requires forall k :: k in ks ==> k in counts && counts[k] == |Members(results, FamilyOf, k)|
    ensures SumCounts(counts, ks) == TotalSize(results, FamilyOf, ks)
    decreases |ks|
  {
    if ks != [] {
      SumIsTotalSize(results, counts, ks[1..]);
    }
  }
}
