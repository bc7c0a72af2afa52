/**
 * The fixed-version resolver (`update_fixed_versions.py`). For every image of the tracking
 * CSV it finds the image's own SBOM and the SBOM of the newest registry (ACR) build of
 * the same image, takes the vulnerability ids that disappear between the two, and writes
 * the registry image reference into the Fixed_Version cell of the rows that still say
 * "Check Manually" for one of those ids.
 *
 * A directory is the map from file name to what reading that file gives, together with
 * the `*.json` names in the order the directory listing yields them.
 */
module Resolver {
  import opened Wrappers
  import opened Text
  import opened Collections
  import opened Records
  import opened Sbom

  // ---------------------------------------------------------------------------
  // load_sbom_vulnerabilities
  // ---------------------------------------------------------------------------

  /** The non-empty ids of the findings `vs`. */
  function IdsOf(vs: seq<Vulnerability>): (ids: set<string>)
    ensures forall x :: x in ids <==> exists i :: 0 <= i < |vs| && vs[i].id == Some(x) && x != ""
    decreases |vs|
  {
    if vs == [] then {}
    else
      var init, v := vs[..|vs| - 1], vs[|vs| - 1];
      assert forall i :: 0 <= i < |init| ==> init[i] == vs[i];
      IdsOf(init) + (if v.id.Some? && v.id.value != "" then {v.id.value} else {})
  }

  /** Extending the findings by one adds that finding's id, when it has a non-empty one. */
  lemma IdsStep(vs: seq<Vulnerability>, i: nat)
    requires i < |vs|
    ensures IdsOf(vs[..i + 1]) == IdsOf(vs[..i]) + (if vs[i].id.GetOr("") != "" then {vs[i].id.GetOr("")} else {})
  {
    PrefixOfPrefix(vs, i);
  }

  /** The id set of an SBOM file; a missing file or one that is not JSON gives the empty set. */
  function SbomIds(file: BomFile): (ids: set<string>)
    ensures file.Parsed? ==> var vs := file.bom.vulnerabilities;
      forall x :: x in ids <==> exists i :: 0 <= i < |vs| && vs[i].id == Some(x) && x != ""
    ensures !file.Parsed? ==> ids == {}
  {
    match file
    case Parsed(bom) => IdsOf(bom.vulnerabilities)
    case _ => {}
  }

  /** `load_sbom_vulnerabilities`: adds the id of every finding that has a non-empty one. */
  method LoadSbomVulnerabilities(file: BomFile) returns (ids: set<string>)
    ensures ids == SbomIds(file)
  {
    ids := {};
    if file.Parsed? {
      var vs := file.bom.vulnerabilities;
      for i := 0 to |vs|
        invariant ids == IdsOf(vs[..i])
      {
        IdsStep(vs, i);
        var id := vs[i].id.GetOr("");
        if id != "" {
          ids := ids + {id};
        }
      }
      PrefixAll(vs);
    }
  }

  // ---------------------------------------------------------------------------
  // normalize_image_name
  // ---------------------------------------------------------------------------

  /** The characters at which `[:|@].*$` starts a match. */
  predicate IsTagMark(c: char) { c == ':' || c == '|' || c == '@' }

  /** `normalize_image_name`: everything before the first ':', '|' or '@'. */
  function Normalize(image: string): (r: string)
    ensures forall i :: 0 <= i < |r| ==> !IsTagMark(r[i])
    ensures StartsWith(image, r)
    ensures |r| == |image| || IsTagMark(image[|r|])
    decreases |image|
  {
    if image == [] || IsTagMark(image[0]) then []
    else
      var rest := Normalize(image[1..]);
      assert image[1..][..|rest|] == image[1..|rest| + 1];
      [image[0]] + rest
  }

  /** A name without a tag mark is its own normal form. */
  lemma {:induction false} NormalizeUnmarked(s: string)
    requires forall i :: 0 <= i < |s| ==> !IsTagMark(s[i])
    ensures Normalize(s) == s
    decreases |s|
  {
    if s != [] {
      NormalizeUnmarked(s[1..]);
    }
  }

  /** Normalising twice is normalising once. */
  lemma NormalizeIdempotent(image: string)
    ensures Normalize(Normalize(image)) == Normalize(image)
  {
    NormalizeUnmarked(Normalize(image));
  }

  // ---------------------------------------------------------------------------
  // File names of images
  // ---------------------------------------------------------------------------

  /** `s.replace('/', '__').replace(':', '__')`. */
  function SafeName(s: string): (r: string)
    ensures '/' !in r && ':' !in r
  {
    var t := ReplaceChar(s, '/', "__");
    ReplaceCharKeepsOthers(t, ':', "__", '/');
    ReplaceChar(t, ':', "__")
  }

  lemma SafeNameAppend(a: string, b: string)
    ensures SafeName(a + b) == SafeName(a) + SafeName(b)
  {
    ReplaceCharAppend(a, b, '/', "__");
    ReplaceCharAppend(ReplaceChar(a, '/', "__"), ReplaceChar(b, '/', "__"), ':', "__");
  }

  lemma SafeNamePlain(s: string)
    requires '/' !in s && ':' !in s
    ensures SafeName(s) == s
  {
    ReplaceCharAbsent(s, '/', "__");
    ReplaceCharAbsent(s, ':', "__");
  }

  /** The SBOM file name of an image reference, as both lookups build it. */
  function SbomFileName(image: string): string {
    SafeName(image) + ".json"
  }

  /** The position of the last '.' of `s`. */
  function LastDot(s: string): (r: Option<nat>)
    ensures r.Some? ==> r.value < |s| && s[r.value] == '.' && '.' !in s[r.value + 1..]
    ensures r.None? ==> '.' !in s
    decreases |s|
  {
    if s == [] then None
    else if s[|s| - 1] == '.' then Some(|s| - 1)
    else
      var r := LastDot(s[..|s| - 1]);
      assert r.Some? ==> s[r.value + 1..] == s[..|s| - 1][r.value + 1..] + [s[|s| - 1]];
      assert r.None? ==> s == s[..|s| - 1] + [s[|s| - 1]];
      r
  }

  /** `Path(name).stem`: the name without its last suffix; a leading or trailing dot is not a suffix. */
  function Stem(name: string): (r: string)
    ensures StartsWith(name, r)
    ensures '.' !in name ==> r == name
    ensures r != name ==> 0 < |r| < |name| - 1 && name[|r|] == '.' && '.' !in name[|r| + 1..]
  {
    match LastDot(name)
    case Some(i) => if 0 < i < |name| - 1 then name[..i] else name
    case None => name
  }

  /** The stem of `base.json` is `base`. */
  lemma StemOfJson(base: string)
    requires base != []
    ensures Stem(base + ".json") == base
  {
    var name := base + ".json";
    var i := LastDot(name).value;
    assert name[|base|] == '.' && name[|base| + 1..] == "json";
    assert (base + ".json")[..|base|] == base;
  }

  // ---------------------------------------------------------------------------
  // find_acr_image_version
  // ---------------------------------------------------------------------------

  /** The names of `names` that start with `prefix`, in order. */
  function Matching(names: seq<string>, prefix: string): (m: seq<string>)
    ensures forall i :: 0 <= i < |m| ==> m[i] in names && StartsWith(m[i], prefix)
    decreases |names|
  {
    if names == [] then []
    else
      var init, n := names[..|names| - 1], names[|names| - 1];
      assert forall x :: x in init ==> x in names;
      Matching(init, prefix) + (if StartsWith(n, prefix) then [n] else [])
  }

  /** The first entry of `Matching` is the first name that starts with the prefix. */
  lemma {:induction false} FirstMatch(names: seq<string>, prefix: string) returns (i: nat)
    requires Matching(names, prefix) != []
    ensures i < |names| && names[i] == Matching(names, prefix)[0] && StartsWith(names[i], prefix)
    ensures forall j :: 0 <= j < i ==> !StartsWith(names[j], prefix)
    decreases |names|
  {
    var init := names[..|names| - 1];
    assert forall j :: 0 <= j < |init| ==> init[j] == names[j];
    if Matching(init, prefix) != [] {
      i := FirstMatch(init, prefix);
      assert Matching(names, prefix)[0] == Matching(init, prefix)[0];
    } else {
      NoMatch(init, prefix);
      i := |names| - 1;
    }
  }

  /** `Matching` is empty exactly when no name starts with the prefix. */
  lemma {:induction false} NoMatch(names: seq<string>, prefix: string)
    ensures Matching(names, prefix) == [] <==> forall j :: 0 <= j < |names| ==> !StartsWith(names[j], prefix)
    decreases |names|
  {
    if names != [] {
      var init := names[..|names| - 1];
      NoMatch(init, prefix);
      assert forall j :: 0 <= j < |init| ==> init[j] == names[j];
    }
  }

  /** `registry__path__...__tag` becomes `registry/path/...:tag`; fewer than three parts give nothing. */
  function Rebuild(stem: string): (r: Option<string>)
    ensures r.Some? <==> |Split(stem, "__")| >= 3
    ensures r.Some? ==> |Split(stem, "__")[0]| < |r.value| && r.value[|Split(stem, "__")[0]|] == '/'
  {
    var parts := Split(stem, "__");
    if |parts| >= 3 then
      Some(parts[0] + "/" + Join(parts[1..|parts| - 1], "/") + ":" + parts[|parts| - 1])
    else None
  }

  /** The prefix a registry SBOM file of `image` starts with, whatever its tag. */
  function AcrPrefix(image: string): string {
    SafeName(Normalize(image)) + "__"
  }

  /**
   * `find_acr_image_version` over a directory listing, `None` when the directory does not
   * exist: the first listed name with the image's prefix, rebuilt as an image reference.
   */
  function AcrImageVersion(image: string, listing: Option<seq<string>>): (r: Option<string>)
    ensures listing.None? ==> r.None?
    ensures r.Some? ==> listing.Some? && Matching(listing.value, AcrPrefix(image)) != [] && '/' in r.value
  {
    if listing.None? then None
    else
      var m := Matching(listing.value, AcrPrefix(image));
      if m == [] then None else Rebuild(Stem(m[0]))
  }

  /** The loop that collects the matching files, then the rebuild of the first one. */
  method FindAcrImageVersion(currentImage: string, listing: Option<seq<string>>) returns (r: Option<string>)
    ensures r == AcrImageVersion(currentImage, listing)
  {
    if listing.None? {
      return None;
    }
    var names := listing.value;
    var prefix := SafeName(Normalize(currentImage)) + "__";
    var matching: seq<string> := [];
    for i := 0 to |names|
      invariant matching == Matching(names[..i], prefix)
    {
      PrefixOfPrefix(names, i);
      if StartsWith(names[i], prefix) {
        matching := matching + [names[i]];
      }
    }
    PrefixAll(names);
    if matching == [] {
      return None;
    }
    var parts := Split(Stem(matching[0]), "__");
    if |parts| >= 3 {
      r := Some(parts[0] + "/" + Join(parts[1..|parts| - 1], "/") + ":" + parts[|parts| - 1]);
    } else {
      r := None;
    }
  }

  // ---------------------------------------------------------------------------
  // The rebuilt reference names the chosen file
  // ---------------------------------------------------------------------------

  lemma JoinSnoc(xs: seq<string>, y: string, sep: string)
    requires |xs| > 0
    ensures Join(xs + [y], sep) == Join(xs, sep) + sep + y
    decreases |xs|
  {
    if |xs| > 1 {
      assert (xs + [y])[1..] == xs[1..] + [y];
      JoinSnoc(xs[1..], y, sep);
    } else {
      assert (xs + [y])[1..] == [y];
    }
  }

  /** A character of a part is a character of the joined string. */
  lemma PartInJoin(parts: seq<string>, sep: string, i: nat, c: char)
    requires i < |parts| && c in parts[i]
    ensures c in Join(parts, sep)
    decreases |parts|
  {
    if |parts| > 1 && i > 0 {
      PartInJoin(parts[1..], sep, i - 1, c);
    }
  }

  /** Re-encoding '/'-joined parts without '/' or ':' gives them joined with "__". */
  lemma {:induction false} SafeNameJoin(parts: seq<string>)
    requires forall i :: 0 <= i < |parts| ==> '/' !in parts[i] && ':' !in parts[i]
    ensures SafeName(Join(parts, "/")) == Join(parts, "__")
    decreases |parts|
  {
    if |parts| == 1 {
      SafeNamePlain(parts[0]);
    } else if |parts| > 1 {
      SafeNameJoin(parts[1..]);
      SafeNamePlain(parts[0]);
      SafeNameAppend(parts[0], "/");
      SafeNameAppend(parts[0] + "/", Join(parts[1..], "/"));
      assert SafeName("/") == "__";
    }
  }

  /** Encoding `registry/path:tag` from parts without '/' or ':' joins the parts with "__". */
  lemma SafeNameOfReference(registry: string, path: seq<string>, tag: string)
    requires |path| > 0 && '/' !in registry && ':' !in registry && '/' !in tag && ':' !in tag
    requires forall i :: 0 <= i < |path| ==> '/' !in path[i] && ':' !in path[i]
    ensures SafeName(registry + "/" + Join(path, "/") + ":" + tag) == Join([registry] + path + [tag], "__")
  {
    var j := Join(path, "/");
    var a := registry + "/";
    var b := a + j;
    var c := b + ":";
    SafeNameMarks();
    SafeNameAppend(registry, "/");
    SafeNamePlain(registry);
    var sa := registry + "__";
    assert SafeName(a) == sa;
    SafeNameAppend(a, j);
    SafeNameJoin(path);
    var sb := sa + Join(path, "__");
    assert SafeName(b) == sb;
    SafeNameAppend(b, ":");
    var sc := sb + "__";
    assert SafeName(c) == sc;
    SafeNameAppend(c, tag);
    SafeNamePlain(tag);
    assert SafeName(c + tag) == sc + tag;
    JoinOfReference(registry, path, tag);
  }

  lemma JoinOfReference(registry: string, path: seq<string>, tag: string)
    requires |path| > 0
    ensures Join([registry] + path + [tag], "__") == registry + "__" + Join(path, "__") + "__" + tag
  {
    JoinSnoc(path, tag, "__");
    JoinCons(registry, path + [tag], "__");
    assert [registry] + path + [tag] == [registry] + (path + [tag]);
    ConcatRegroup(registry, "__", Join(path, "__"), "__", tag);
  }

  lemma ConcatRegroup(p: string, q: string, r: string, s: string, t: string)
    ensures p + q + r + s + t == p + q + (r + s + t)
  {
  }

  lemma SafeNameMarks()
    ensures SafeName("/") == "__" && SafeName(":") == "__"
  {
    assert ReplaceChar("/", '/', "__") == "__";
    assert ReplaceChar(":", '/', "__") == ":";
  }

  /** Encoding the rebuilt reference of a stem without '/' or ':' gives the stem back. */
  lemma RebuildRoundTrip(stem: string)
    requires '/' !in stem && ':' !in stem && Rebuild(stem).Some?
    ensures SafeName(Rebuild(stem).value) == stem
  {
    var parts := Split(stem, "__");
    var n := |parts|;
    SplitJoin(stem, "__");
    forall i | 0 <= i < n ensures '/' !in parts[i] && ':' !in parts[i] {
      if '/' in parts[i] { PartInJoin(parts, "__", i, '/'); }
      if ':' in parts[i] { PartInJoin(parts, "__", i, ':'); }
    }
    SafeNameOfReference(parts[0], parts[1..n - 1], parts[n - 1]);
    EndsAndMiddle(parts);
  }

  lemma EndsAndMiddle(xs: seq<string>)
    requires |xs| >= 2
    ensures [xs[0]] + xs[1..|xs| - 1] + [xs[|xs| - 1]] == xs
  {
    var ys := [xs[0]] + xs[1..|xs| - 1] + [xs[|xs| - 1]];
    assert |ys| == |xs|;
    forall i | 0 <= i < |xs| ensures ys[i] == xs[i] {
      if 0 < i < |xs| - 1 {
        assert ys[i] == xs[1..|xs| - 1][i - 1];
      }
    }
  }

  /**
   * When every listed name is a `.json` name without ':' or '/', the file the rebuilt
   * reference names is the chosen file itself, so the lookup after the rebuild finds it.
   */
  lemma AcrFileIsChosen(image: string, names: seq<string>)
    requires forall i :: 0 <= i < |names| ==> EndsWith(names[i], ".json") && ':' !in names[i] && '/' !in names[i]
    requires AcrImageVersion(image, Some(names)).Some?
    ensures SbomFileName(AcrImageVersion(image, Some(names)).value) == Matching(names, AcrPrefix(image))[0]
  {
    var prefix := AcrPrefix(image);
    var name := Matching(names, prefix)[0];
    var i := FirstMatch(names, prefix);
    assert EndsWith(name, ".json") && ':' !in name && '/' !in name;
    assert StartsWith(name, prefix);
    AcrPrefixEnds(image);
    var base := JsonBase(name, prefix);
    RebuildRoundTrip(base);
  }

  lemma AcrPrefixEnds(image: string)
    ensures EndsWith(AcrPrefix(image), "__")
  {
    var p := AcrPrefix(image);
    assert p[|p| - 2..] == "__";
  }

  /** A matching `.json` name is a stem without ':' or '/' followed by ".json". */
  lemma JsonBase(name: string, prefix: string) returns (base: string)
    requires EndsWith(name, ".json") && ':' !in name && '/' !in name
    requires StartsWith(name, prefix) && EndsWith(prefix, "__")
    ensures name == base + ".json" && Stem(name) == base && '/' !in base && ':' !in base
  {
    LongerThanSuffix(name, prefix);
    base := name[..|name| - 5];
    assert name == base + ".json";
    StemOfJson(base);
    assert forall k :: 0 <= k < |base| ==> base[k] == name[k];
  }

  /** A `.json` name that starts with a prefix ending in "__" is longer than the suffix. */
  lemma LongerThanSuffix(name: string, prefix: string)
    requires EndsWith(name, ".json") && StartsWith(name, prefix) && EndsWith(prefix, "__")
    ensures |name| > 5
  {
    var k := |prefix| - 1;
    assert prefix[k] == '_' && name[k] == prefix[k];
    assert forall j :: |name| - 5 <= j < |name| ==> name[j] == ".json"[j - (|name| - 5)];
  }

  // ---------------------------------------------------------------------------
  // compare_image_vulnerabilities
  // ---------------------------------------------------------------------------

  /** The ids that disappear in the latest SBOM, and those that appear in it. */
  method CompareImageVulnerabilities(current: BomFile, latest: BomFile) returns (fixed: set<string>, added: set<string>)
    ensures fixed == SbomIds(current) - SbomIds(latest) && added == SbomIds(latest) - SbomIds(current)
    ensures fixed !! added && fixed !! SbomIds(latest) && fixed <= SbomIds(current)
  {
    var currentIds := LoadSbomVulnerabilities(current);
    var latestIds := LoadSbomVulnerabilities(latest);
    fixed := currentIds - latestIds;
    added := latestIds - currentIds;
  }

  // ---------------------------------------------------------------------------
  // update_fixed_versions
  // ---------------------------------------------------------------------------

  /** A directory: its files by name, and its `*.json` names in listing order. */
  datatype Directory = Directory(files: map<string, BomFile>, listing: seq<string>)

  /** What the resolver does for one image: the registry reference and the ids it fixes. */
  datatype Plan = Plan(acrImage: string, fixed: set<string>)

  /** The plan for `image`, or `None` when one of the three lookups fails. */
  function ImagePlan(image: string, current: Directory, latest: Directory): (p: Option<Plan>)
    ensures var acr := AcrImageVersion(image, Some(latest.listing));
      p.Some? <==> SbomFileName(image) in current.files && acr.Some? && SbomFileName(acr.value) in latest.files
    ensures p.Some? ==> p.value.acrImage == AcrImageVersion(image, Some(latest.listing)).value
    ensures p.Some? ==> var fixed, acrName := p.value.fixed, SbomFileName(p.value.acrImage);
      fixed <= SbomIds(current.files[SbomFileName(image)]) && fixed !! SbomIds(latest.files[acrName])
  {
    var currentName := SbomFileName(image);
    if currentName !in current.files then None
    else
      match AcrImageVersion(image, Some(latest.listing))
      case None => None
      case Some(acr) =>
        var acrName := SbomFileName(acr);
        if acrName !in latest.files then None
        else Some(Plan(acr, SbomIds(current.files[currentName]) - SbomIds(latest.files[acrName])))
  }

  /** The row after the resolver: rewritten when its id is fixed and it still says "Check Manually". */
  function Resolved(r: TrackingRow, plan: Option<Plan>): TrackingRow {
    if plan.Some? && r.vulnerabilityId in plan.value.fixed && r.fixedVersion == "Check Manually" then
      r.(fixedVersion := plan.value.acrImage)
    else r
  }

  /** A rebuilt reference has a '/' after its registry part. */
  lemma RebuiltHasSlash(stem: string)
    requires Rebuild(stem).Some?
    ensures '/' in Rebuild(stem).value
  {
    var parts := Split(stem, "__");
    var r := Rebuild(stem).value;
    assert r[|parts[0]|] == '/';
  }

  /**
   * The resolver changes nothing but Fixed_Version, and changes a row exactly when its
   * image has a plan, its id is among the fixed ones and its cell says "Check Manually";
   * the new cell is the registry reference.
   */
  lemma ResolvedRow(r: TrackingRow, current: Directory, latest: Directory)
    ensures var plan := ImagePlan(r.image, current, latest);
      && Resolved(r, plan).(fixedVersion := r.fixedVersion) == r
      && (Resolved(r, plan) != r <==>
            plan.Some? && r.vulnerabilityId in plan.value.fixed && r.fixedVersion == "Check Manually")
      && (Resolved(r, plan) != r ==> Resolved(r, plan).fixedVersion == plan.value.acrImage)
  {
    if ImagePlan(r.image, current, latest).Some? {
      PlanHasSlash(r.image, current, latest);
    }
  }

  /** The registry reference of a plan is a rebuilt one, so it has a '/'. */
  lemma PlanHasSlash(image: string, current: Directory, latest: Directory)
    requires ImagePlan(image, current, latest).Some?
    ensures '/' in ImagePlan(image, current, latest).value.acrImage
    ensures ImagePlan(image, current, latest).value.acrImage != "Check Manually"
  {
    PlanAcr(image, current, latest);
    AcrHasSlash(image, Some(latest.listing));
  }

  /** A registry reference the lookup found is a rebuilt one, so it has a '/'. */
  lemma AcrHasSlash(image: string, listing: Option<seq<string>>)
    requires AcrImageVersion(image, listing).Some?
    ensures '/' in AcrImageVersion(image, listing).value
    ensures AcrImageVersion(image, listing).value != "Check Manually"
  {
    var m := Matching(listing.value, AcrPrefix(image));
    RebuiltHasSlash(Stem(m[0]));
    assert '/' !in "Check Manually";
  }

  /** The registry reference of a plan is the one the registry lookup rebuilt. */
  lemma PlanAcr(image: string, current: Directory, latest: Directory)
    requires ImagePlan(image, current, latest).Some?
    ensures AcrImageVersion(image, Some(latest.listing)).Some?
    ensures ImagePlan(image, current, latest).value.acrImage == AcrImageVersion(image, Some(latest.listing)).value
  {
  }

  /** An image whose SBOM is missing, that has no registry match, or whose registry SBOM is missing keeps its rows. */
  lemma SkippedImage(r: TrackingRow, current: Directory, latest: Directory)
    requires var acr := AcrImageVersion(r.image, Some(latest.listing));
      || SbomFileName(r.image) !in current.files
      || acr.None?
      || SbomFileName(acr.value) !in latest.files
    ensures Resolved(r, ImagePlan(r.image, current, latest)) == r
  {
  }

  function ImageOf(r: TrackingRow): string { r.image }

  /** The `image_vulns` loop: the images in first-appearance order, each with the positions of its rows. */
  method GroupByImage(rows: array<TrackingRow>) returns (images: seq<string>, groups: map<string, seq<nat>>)
    ensures images == GroupKeys(rows[..], ImageOf)
    ensures forall k :: k in groups <==> k in images
    ensures forall k :: k in groups ==> groups[k] == Positions(rows[..], ImageOf, k)
  {
    images, groups := [], map[];
    for i := 0 to rows.Length
      invariant images == GroupKeys(rows[..i], ImageOf)
      invariant forall k :: k in groups <==> k in images
      invariant forall k :: k in groups ==> groups[k] == Positions(rows[..i], ImageOf, k)
    {
      var k := rows[i].image;
      GroupStep(rows[..], ImageOf, i);
      assert rows[..][..i + 1] == rows[..i + 1] && rows[..][..i] == rows[..i];
      if k in groups {
        groups := groups[k := groups[k] + [i]];
      } else {
        images := images + [k];
        groups := groups[k := [i]];
        PositionsNonEmpty(rows[..i], ImageOf, k);
      }
    }
    assert rows[..rows.Length] == rows[..];
  }

  /** The three lookups and the comparison for one image. */
  method ResolveImage(image: string, current: Directory, latest: Directory) returns (plan: Option<Plan>)
    ensures plan == ImagePlan(image, current, latest)
  {
    var currentName := SafeName(image) + ".json";
    if currentName !in current.files {
      return None;
    }
    var acr := FindAcrImageVersion(image, Some(latest.listing));
    if acr.None? {
      return None;
    }
    var acrName := SafeName(acr.value) + ".json";
    if acrName !in latest.files {
      return None;
    }
    var fixed, added := CompareImageVulnerabilities(current.files[currentName], latest.files[acrName]);
    plan := Some(Plan(acr.value, fixed));
  }

  /** A row once the resolver has run over the given directories. */
  function Updated(r: TrackingRow, current: Directory, latest: Directory): (u: TrackingRow)
    ensures u.(fixedVersion := r.fixedVersion) == r
    ensures u != r ==> r.fixedVersion == "Check Manually" && '/' in u.fixedVersion
  {
    ResolvedRow(r, current, latest);
    Resolved(r, ImagePlan(r.image, current, latest))
  }

  /** Running the resolver a second time over its own output changes nothing. */
  lemma UpdatedIdempotent(r: TrackingRow, current: Directory, latest: Directory)
    ensures Updated(Updated(r, current, latest), current, latest) == Updated(r, current, latest)
  {
    ResolvedRow(r, current, latest);
    var u := Updated(r, current, latest);
    assert u.image == r.image;
    ResolvedRow(u, current, latest);
  }

  /** A finding whose id is still in the registry build's SBOM keeps its "Check Manually". */
  lemma StillPresentKept(r: TrackingRow, current: Directory, latest: Directory)
    requires var plan := ImagePlan(r.image, current, latest);
      plan.Some? && SbomFileName(plan.value.acrImage) in latest.files &&
      r.vulnerabilityId in SbomIds(latest.files[SbomFileName(plan.value.acrImage)])
    ensures Updated(r, current, latest) == r
  {
  }

  /** Rows of an image with no plan, or with nothing fixed, stay as they are. */
  lemma UpdatedWithoutFixes(r: TrackingRow, current: Directory, latest: Directory)
    requires ImagePlan(r.image, current, latest).None? || ImagePlan(r.image, current, latest).value.fixed == {}
    ensures Updated(r, current, latest) == r
  {
  }

  /**
   * The inner loop for one image: rewrites the rows at positions `ps` whose id is fixed and
   * whose cell says "Check Manually", and counts them; every rewrite is a new difference
   * from the rows as they were read.
   */
  method RewriteGroup(rows: array<TrackingRow>, ps: seq<nat>, plan: Plan, ghost original: seq<TrackingRow>)
    returns (count: nat)
    requires plan.acrImage != "Check Manually"
    requires |original| == rows.Length
    requires forall u :: 0 <= u < |ps| ==> ps[u] < rows.Length && rows[ps[u]] == original[ps[u]]
    requires forall u, v :: 0 <= u < v < |ps| ==> ps[u] < ps[v]
    modifies rows
    ensures forall j :: 0 <= j < rows.Length ==>
      rows[j] == (if j in ps then Resolved(old(rows[j]), Some(plan)) else old(rows[j]))
    ensures |Differences(original, rows[..])| == |Differences(original, old(rows[..]))| + count
  {
    count := 0;
    for u := 0 to |ps|
      invariant forall j :: 0 <= j < rows.Length ==>
        rows[j] == (if j in ps[..u] then Resolved(old(rows[j]), Some(plan)) else old(rows[j]))
      invariant |Differences(original, rows[..])| == |Differences(original, old(rows[..]))| + count
    {
      var j := ps[u];
      assert ps[..u + 1] == ps[..u] + [j];
      assert j !in ps[..u];
      var row := rows[j];
      if row.vulnerabilityId in plan.fixed && row.fixedVersion == "Check Manually" {
        ghost var before := rows[..];
        rows[j] := row.(fixedVersion := plan.acrImage);
        assert rows[..] == before[j := rows[j]];
        DifferencesGrow(original, before, j, rows[j]);
        count := count + 1;
      }
    }
    PrefixAll(ps);
  }

  /** The rows after the images in `done` have been resolved. */
  ghost predicate ResolvedUpTo(rows: seq<TrackingRow>, original: seq<TrackingRow>, done: seq<string>,
                               current: Directory, latest: Directory)
  {
    |rows| == |original| &&
    forall j :: 0 <= j < |rows| ==>
      rows[j] == (if original[j].image in done then Updated(original[j], current, latest) else original[j])
  }

  /** One image of the resolver: its plan, then the rewrite of its rows when something is fixed. */
  method ResolveGroup(rows: array<TrackingRow>, image: string, ps: seq<nat>, current: Directory, latest: Directory,
                      ghost original: seq<TrackingRow>, ghost done: seq<string>)
    returns (count: nat)
    requires ResolvedUpTo(rows[..], original, done, current, latest) && image !in done
    requires forall j :: j in ps <==> 0 <= j < |original| && original[j].image == image
    requires forall u, v :: 0 <= u < v < |ps| ==> ps[u] < ps[v]
    modifies rows
    ensures ResolvedUpTo(rows[..], original, done + [image], current, latest)
    ensures |Differences(original, rows[..])| == |Differences(original, old(rows[..]))| + count
  {
    var plan := ResolveImage(image, current, latest);
    if plan.Some? && plan.value.fixed != {} {
      PlanHasSlash(image, current, latest);
      forall u | 0 <= u < |ps| ensures ps[u] < rows.Length && rows[ps[u]] == original[ps[u]] {
        assert ps[u] in ps;
      }
      count := RewriteGroup(rows, ps, plan.value, original);
    } else {
      count := 0;
      forall j | j in ps ensures Updated(original[j], current, latest) == original[j] {
        UpdatedWithoutFixes(original[j], current, latest);
      }
    }
    assert forall j :: 0 <= j < |original| ==> (original[j].image in done + [image] <==> original[j].image in done || j in ps);
  }

  /**
   * `update_fixed_versions` over the rows of the tracking CSV: every row ends as `Updated`
   * says, the count is the number of rows that changed, and the output is written only
   * when that count is positive.
   */
  method UpdateFixedVersions(rows: array<TrackingRow>, current: Directory, latest: Directory)
    returns (updated: nat, output: Option<seq<TrackingRow>>)
    modifies rows
    ensures forall j :: 0 <= j < rows.Length ==> rows[j] == Updated(old(rows[j]), current, latest)
    ensures updated == |Differences(old(rows[..]), rows[..])|
    ensures output == if updated == 0 then None else Some(rows[..])
  {
    ghost var original := rows[..];
    var images, groups := GroupByImage(rows);
    updated := 0;
    for t := 0 to |images|
      invariant ResolvedUpTo(rows[..], original, images[..t], current, latest)
      invariant updated == |Differences(original, rows[..])|
    {
      var image := images[t];
      PrefixSnoc(images, t);
      ImageGroup(original, images, groups, t);
      var count := ResolveGroup(rows, image, groups[image], current, latest, original, images[..t]);
      updated := updated + count;
    }
    AllResolved(rows[..], original, images, current, latest);
    output := if updated > 0 then Some(rows[..]) else None;
  }

  /** Once every image of the rows has been resolved, every row is as `Updated` says. */
  lemma AllResolved(rows: seq<TrackingRow>, original: seq<TrackingRow>, images: seq<string>,
                    current: Directory, latest: Directory)
    requires images == GroupKeys(original, ImageOf)
    requires ResolvedUpTo(rows, original, images[..|images|], current, latest)
    ensures forall j :: 0 <= j < |rows| ==> rows[j] == Updated(original[j], current, latest)
  {
    PrefixAll(images);
    forall j | 0 <= j < |rows| ensures original[j].image in images {
      assert ImageOf(original[j]) == original[j].image;
    }
  }

  /** What the grouping says about the `t`-th image: it is new, and its group holds exactly its rows in order. */
  lemma ImageGroup(original: seq<TrackingRow>, images: seq<string>, groups: map<string, seq<nat>>, t: nat)
    requires images == GroupKeys(original, ImageOf)
    requires forall k :: k in groups <==> k in images
    requires forall k :: k in groups ==> groups[k] == Positions(original, ImageOf, k)
    requires t < |images|
    ensures images[t] in groups && images[t] !in images[..t]
    ensures forall j :: j in groups[images[t]] <==> 0 <= j < |original| && original[j].image == images[t]
    ensures forall u, v :: 0 <= u < v < |groups[images[t]]| ==> groups[images[t]][u] < groups[images[t]][v]
  {
    var ps := groups[images[t]];
    forall j | 0 <= j < |original| && original[j].image == images[t] ensures j in ps {
      PositionsComplete(original, ImageOf, j);
    }
  }
}
