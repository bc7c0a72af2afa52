/**
 * The remediation stage: from a CycloneDX SBOM to tracking rows, one per affected
 * package of every distinct finding, sorted by severity and then by score.
 */
module Remediation {
  import opened Wrappers
  import opened Text
  import opened Collections
  import opened Ratings
  import opened Sbom
  import opened Records

  // ---------------------------------------------------------------------------
  // Image name
  // ---------------------------------------------------------------------------

  /** `extract_image_name`: `metadata.component.name`, or "Unknown Image" when a key on that path is missing. */
  function ImageName(bom: Bom): (name: string)
    ensures bom.metadata.Some? && bom.metadata.value.component.Some? && bom.metadata.value.component.value.name.Some?
      ==> name == bom.metadata.value.component.value.name.value
    ensures bom.metadata.None? || bom.metadata.value.component.None? || bom.metadata.value.component.value.name.None?
      ==> name == "Unknown Image"
  {
    match bom.metadata
    case Some(Metadata(Some(MetaComponent(Some(n))))) => n
    case _ => "Unknown Image"
  }

  // ---------------------------------------------------------------------------
  // Package lookup
  // ---------------------------------------------------------------------------

  /** What `get_package_info` returns; `kind` is the `type` field. */
  datatype PackageInfo = PackageInfo(name: string, version: string, kind: string, purl: string)

  const UnknownPackage := PackageInfo("Unknown", "Unknown", "Unknown", "")

  /** A component's fields, each absent one filled in with its placeholder. */
  function InfoOf(c: Component): PackageInfo {
    PackageInfo(c.name.GetOr("Unknown"), c.version.GetOr("Unknown"), c.kind.GetOr("Unknown"), c.purl.GetOr(""))
  }

  /** The position of the first component whose `bom-ref` equals `ref`. */
  function FirstWithRef(cs: seq<Component>, ref: string): (r: Option<nat>)
    ensures r.Some? ==> r.value < |cs| && cs[r.value].bomRef == Some(ref)
    ensures r.Some? ==> forall j :: 0 <= j < r.value ==> cs[j].bomRef != Some(ref)
    ensures r.None? ==> forall j :: 0 <= j < |cs| ==> cs[j].bomRef != Some(ref)
  {
    if cs == [] then None
    else if cs[0].bomRef == Some(ref) then Some(0)
    else match FirstWithRef(cs[1..], ref)
      case None => None
      case Some(i) => Some(i + 1)
  }

  function PackageLookup(cs: seq<Component>, ref: string): PackageInfo {
    match FirstWithRef(cs, ref)
    case Some(i) => InfoOf(cs[i])
    case None => UnknownPackage
  }

  /** `get_package_info`: the first component declared under `ref`, else the all-"Unknown" record. */
  method GetPackageInfo(cs: seq<Component>, ref: string) returns (info: PackageInfo)
    ensures info == PackageLookup(cs, ref)
  {
    for i := 0 to |cs|
      invariant forall j :: 0 <= j < i ==> cs[j].bomRef != Some(ref)
    {
      if cs[i].bomRef == Some(ref) {
        return InfoOf(cs[i]);
      }
    }
    return UnknownPackage;
  }

  // ---------------------------------------------------------------------------
  // Package-URL fallback
  // ---------------------------------------------------------------------------

  /**
   * When the name is still "Unknown" and the ref looks like a package URL, the name is
   * the last `/` segment up to `@` and the version what follows `@` up to `?`. The type
   * and purl fields are untouched.
   */
  function PurlFallback(info: PackageInfo, ref: string): (r: PackageInfo)
    ensures r.kind == info.kind && r.purl == info.purl
    ensures !(info.name == "Unknown" && ref != "" && Contains(ref, "pkg:")) ==> r == info
  {
    if info.name == "Unknown" && ref != "" && Contains(ref, "pkg:") then
      var parts := Split(ref, "/");
      if |parts| >= 2 then
        var nameVersion := Split(parts[|parts| - 1], "@");
        info.(name := nameVersion[0],
              version := if |nameVersion| > 1 then Split(nameVersion[1], "?")[0] else info.version)
      else info
    else info
  }

  /** The last segment `name@version?query` of a package URL splits into its name and version. */
  lemma NameVersionParts(name: string, version: string, query: string)
    requires '@' !in name && '@' !in version && '?' !in version && '@' !in query
    requires query == "" || query[0] == '?'
    ensures var nv := Split(name + "@" + version + query, "@");
      |nv| == 2 && nv[0] == name && Split(nv[1], "?")[0] == version
  {
    var rest := version + query;
    assert name + "@" + version + query == name + "@" + rest;
    SplitCons(name, "@", rest);
    NotContainsChar(rest, '@');
    SplitNoSep(rest, "@");
    if query == "" {
      assert rest == version;
      NotContainsChar(version, '?');
      SplitNoSep(version, "?");
    } else {
      assert rest == version + "?" + query[1..];
      SplitCons(version, "?", query[1..]);
    }
  }

  /**
   * A package URL `head/name@version` with optional `?qualifiers` yields that name and
   * version, as long as the name and version hold none of the delimiters.
   */
  lemma PurlFallbackParses(head: string, name: string, version: string, query: string)
    requires Contains(head, "pkg:")
    requires '/' !in name && '@' !in name
    requires '/' !in version && '@' !in version && '?' !in version
    requires '/' !in query && '@' !in query
    requires query == "" || query[0] == '?'
    ensures PurlFallback(UnknownPackage, head + "/" + name + "@" + version + query)
      == PackageInfo(name, version, "Unknown", "")
  {
    var tail := name + "@" + version + query;
    var ref := head + "/" + tail;
    assert head + "/" + name + "@" + version + query == ref;
    PurlMarkerKept(head, tail);
    assert '/' !in tail;
    SplitLastPart(head, "/", tail);
    NameVersionParts(name, version, query);
    PurlFallbackWith(ref, tail, name, version);
  }

  /** The fallback takes the name and version from the last segment of a "pkg:" reference. */
  lemma PurlFallbackWith(ref: string, tail: string, name: string, version: string)
    requires Contains(ref, "pkg:")
    requires |Split(ref, "/")| >= 2 && Split(ref, "/")[|Split(ref, "/")| - 1] == tail
    requires |Split(tail, "@")| == 2 && Split(tail, "@")[0] == name && Split(Split(tail, "@")[1], "?")[0] == version
    ensures PurlFallback(UnknownPackage, ref) == PackageInfo(name, version, "Unknown", "")
  {
    assert ref != [] by { assert |"pkg:"| <= |ref|; }
  }

  /** The "pkg:" marker of the head stays in the whole reference. */
  lemma PurlMarkerKept(head: string, tail: string)
    requires Contains(head, "pkg:")
    ensures Contains(head + "/" + tail, "pkg:")
  {
    var ref := head + "/" + tail;
    var j := IndexOf(head, "pkg:").value;
    assert ref[..|head|] == head;
    OccursInPrefix(ref, "pkg:", |head|, j);
    ContainsAt(ref, "pkg:", j);
  }

  /** The case `pkg:pypi/foo@1.0` with no declared component gives foo / 1.0 / Unknown. */
  lemma PurlFallbackExample()
    ensures PurlFallback(UnknownPackage, "pkg:pypi/foo@1.0") == PackageInfo("foo", "1.0", "Unknown", "")
  {
    assert OccursAt("pkg:pypi", "pkg:", 0);
    ContainsAt("pkg:pypi", "pkg:", 0);
    assert "pkg:pypi" + "/" + "foo" + "@" + "1.0" + "" == "pkg:pypi/foo@1.0";
    PurlFallbackParses("pkg:pypi", "foo", "1.0", "");
  }

  // ---------------------------------------------------------------------------
  // Fixed versions
  // ---------------------------------------------------------------------------

  /** `"fixed" in status.lower()` or `"patched" in status.lower()`. */
  predicate MarksFix(status: string) {
    Contains(ToLower(status), "fixed") || Contains(ToLower(status), "patched")
  }

  predicate IsDigitOrDot(c: char) { IsDigit(c) || c == '.' }

  /** Text the pattern `\d+\.[\d\.]+` matches in full: digits, a dot, then digits and dots. */
  predicate VersionShaped(v: string) {
    exists k :: 1 <= k && k + 1 < |v| && AllDigits(v[..k]) && v[k] == '.' &&
      forall i :: k < i < |v| ==> IsDigitOrDot(v[i])
  }

  /**
   * The match of `\d+\.[\d\.]+` that starts at `p`, if any: both repetitions are greedy,
   * and giving back digits never helps, so the match is the maximal one.
   */
  function VersionMatchAt(s: string, p: nat): (m: Option<string>)
    requires p <= |s|
  {
    if p < |s| && IsDigit(s[p]) then
      var q := RunEnd(s, p, IsDigit);
      if q + 1 < |s| && s[q] == '.' && IsDigitOrDot(s[q + 1]) then Some(s[p..RunEnd(s, q + 1, IsDigitOrDot)])
      else None
    else None
  }

  /** A match found at `p` is version-shaped, occurs at `p`, and cannot be extended to the right. */
  lemma VersionMatchSound(s: string, p: nat)
    requires p <= |s| && VersionMatchAt(s, p).Some?
    ensures VersionShaped(VersionMatchAt(s, p).value)
    ensures OccursAt(s, VersionMatchAt(s, p).value, p)
    ensures p + |VersionMatchAt(s, p).value| == |s| || !IsDigitOrDot(s[p + |VersionMatchAt(s, p).value|])
  {
    var q := RunEnd(s, p, IsDigit);
    var e := RunEnd(s, q + 1, IsDigitOrDot);
    var v := s[p..e];
    assert VersionMatchAt(s, p).value == v;
    var k := q - p;
    assert 1 <= k && k + 1 < |v|;
    assert forall i :: 0 <= i < |v| ==> v[i] == s[p + i];
    assert AllDigits(v[..k]) by {
      forall i | 0 <= i < k ensures IsDigit(v[..k][i]) {
        assert v[..k][i] == s[p + i];
      }
    }
    assert v[k] == '.';
    assert forall i :: k < i < |v| ==> IsDigitOrDot(v[i]);
    assert s[p..p + |v|] == v;
  }

  /** Wherever version-shaped text occurs, the pattern matches at that position. */
  lemma VersionMatchComplete(s: string, p: nat, v: string)
    requires OccursAt(s, v, p) && VersionShaped(v)
    ensures VersionMatchAt(s, p).Some?
  {
    var k :| 1 <= k && k + 1 < |v| && AllDigits(v[..k]) && v[k] == '.' &&
      forall i :: k < i < |v| ==> IsDigitOrDot(v[i]);
    VersionDigitsAt(s, p, v, k);
    RunEndIs(s, p, IsDigit, p + k);
    assert s[p + k + 1] == v[k + 1];
  }

  /** The digits before the first dot of an occurrence of `v` sit at `p`, and the dot after them. */
  lemma VersionDigitsAt(s: string, p: nat, v: string, k: nat)
    requires OccursAt(s, v, p) && 1 <= k && k + 1 < |v| && AllDigits(v[..k]) && v[k] == '.'
    ensures p + k + 1 < |s| && s[p + k] == '.' && s[p + k + 1] == v[k + 1]
    ensures forall i :: p <= i < p + k ==> IsDigit(s[i])
    ensures !IsDigit(s[p + k])
  {
    assert forall i :: 0 <= i < |v| ==> s[p + i] == v[i];
    assert forall i :: 0 <= i < k ==> v[..k][i] == v[i];
  }

  /** `re.search(r'(\d+\.[\d\.]+)', s).group(1)` from position `from`: the leftmost match. */
  function SearchVersion(s: string, from: nat): (m: Option<string>)
    requires from <= |s|
    ensures m.Some? ==> exists p :: (from <= p <= |s| && VersionMatchAt(s, p) == m &&
      forall q :: from <= q < p ==> VersionMatchAt(s, q).None?)
    ensures m.None? ==> forall p :: from <= p <= |s| ==> VersionMatchAt(s, p).None?
    decreases |s| - from
  {
    if VersionMatchAt(s, from).Some? then VersionMatchAt(s, from)
    else if from == |s| then None
    else SearchVersion(s, from + 1)
  }

  /** The version a fix advisory's URL names, if the URL mentions "fixed" and holds one. */
  function AdvisoryVersion(adv: Advisory): (m: Option<string>)
    ensures m.Some? ==> Contains(ToLower(adv.url.GetOr("")), "fixed")
    ensures adv.url.None? ==> m.None?
  {
    var url := adv.url.GetOr("");
    if Contains(ToLower(url), "fixed") then SearchVersion(url, 0) else None
  }

  /** The versions a list of `versions[]` entries marks as fixed or patched. */
  function VersionFixes(vs: seq<VersionInfo>): set<string> {
    if vs == [] then {}
    else
      var last := vs[|vs| - 1];
      VersionFixes(vs[..|vs| - 1]) + (if MarksFix(last.status.GetOr("")) then {last.version.GetOr("")} else {})
  }

  /** The fixed versions of one `affects[]` entry. */
  function AffectSet(a: Affect): set<string> { VersionFixes(a.versions) }

  /** The fixed versions named by the `affects[]` entries. */
  function AffectFixes(affects: seq<Affect>): set<string> {
    UnionOf(affects, AffectSet)
  }

  /** The version one advisory's URL names, as a set of at most one. */
  function AdvisorySet(adv: Advisory): set<string> {
    var m := AdvisoryVersion(adv);
    if m.Some? then {m.value} else {}
  }

  /** The versions mined from the advisory URLs. */
  function AdvisoryFixes(advs: seq<Advisory>): set<string> {
    UnionOf(advs, AdvisorySet)
  }

  lemma {:induction false} VersionFixesMembers(vs: seq<VersionInfo>, x: string)
    ensures x in VersionFixes(vs) <==>
      exists i :: 0 <= i < |vs| && MarksFix(vs[i].status.GetOr("")) && vs[i].version.GetOr("") == x
    decreases |vs|
  {
    if vs != [] {
      var init := vs[..|vs| - 1];
      VersionFixesMembers(init, x);
      assert forall i :: 0 <= i < |init| ==> init[i] == vs[i];
    }
  }

  /**
   * The fixed versions of a finding are exactly the versions whose status mentions a fix,
   * together with the version each fix advisory's URL holds.
   */
  lemma AffectFixesMembers(affects: seq<Affect>, x: string)
    ensures x in AffectFixes(affects) <==>
      exists i :: 0 <= i < |affects| && x in VersionFixes(affects[i].versions)
  {
    UnionOfMembers(affects, AffectSet, x);
  }

  lemma AdvisoryFixesMembers(advs: seq<Advisory>, x: string)
    ensures x in AdvisoryFixes(advs) <==>
      exists i :: 0 <= i < |advs| && AdvisoryVersion(advs[i]) == Some(x)
  {
    UnionOfMembers(advs, AdvisorySet, x);
    forall i | 0 <= i < |advs| ensures x in AdvisorySet(advs[i]) <==> AdvisoryVersion(advs[i]) == Some(x) {
    }
  }

  /** Every version mined from an advisory URL is text the version pattern matches in full. */
  lemma AdvisoryFixesShaped(advs: seq<Advisory>, x: string)
    requires x in AdvisoryFixes(advs)
    ensures VersionShaped(x)
  {
    AdvisoryFixesMembers(advs, x);
    var i :| 0 <= i < |advs| && AdvisoryVersion(advs[i]) == Some(x);
    var url := advs[i].url.GetOr("");
    var p :| 0 <= p <= |url| && VersionMatchAt(url, p) == Some(x);
    VersionMatchSound(url, p);
  }

  function FixedVersions(v: Vulnerability): set<string> {
    AffectFixes(v.affects) + AdvisoryFixes(v.advisories)
  }

  /** The inner loop of `extract_fixed_version`: adds the versions whose status mentions a fix. */
  method AddStatusFixes(before: set<string>, versions: seq<VersionInfo>) returns (fixed: set<string>)
    ensures fixed == before + VersionFixes(versions)
  {
    fixed := before;
    for j := 0 to |versions|
      invariant fixed == before + VersionFixes(versions[..j])
    {
      var info := versions[j];
      PrefixOfPrefix(versions, j);
      var status := ToLower(info.status.GetOr(""));
      if Contains(status, "fixed") {
        fixed := fixed + {info.version.GetOr("")};
      } else if Contains(status, "patched") {
        fixed := fixed + {info.version.GetOr("")};
      }
    }
    PrefixAll(versions);
  }

  /** The advisory loop of `extract_fixed_version`: adds the version each fix advisory's URL holds. */
  method AddAdvisoryFixes(before: set<string>, advs: seq<Advisory>) returns (fixed: set<string>)
    ensures fixed == before + AdvisoryFixes(advs)
  {
    fixed := before;
    for i := 0 to |advs|
      invariant fixed == before + AdvisoryFixes(advs[..i])
    {
      UnionOfStep(advs, AdvisorySet, i);
      var url := advs[i].url.GetOr("");
      if Contains(ToLower(url), "fixed") {
        var m := SearchVersion(url, 0);
        if m.Some? {
          fixed := fixed + {m.value};
        }
      }
    }
    PrefixAll(advs);
  }

  /** `extract_fixed_version`: collects the fix hints of one finding into a set, then renders it. */
  method ExtractFixedVersion(v: Vulnerability) returns (r: string)
    ensures r == FixedVersionText(FixedVersions(v))
  {
    var fixed: set<string> := {};
    for i := 0 to |v.affects|
      invariant fixed == AffectFixes(v.affects[..i])
    {
      UnionOfStep(v.affects, AffectSet, i);
      fixed := AddStatusFixes(fixed, v.affects[i].versions);
    }
    PrefixAll(v.affects);
    fixed := AddAdvisoryFixes(fixed, v.advisories);
    if fixed != {} {
      var sorted := SortSet(fixed);
      r := Join(sorted, ", ");
    } else {
      r := "Check Manually";
    }
  }

  // ---------------------------------------------------------------------------
  // Severity and score
  // ---------------------------------------------------------------------------

  /** `rating.get("severity")` is truthy. */
  predicate HasSeverity(r: Rating) { r.severity.Some? && r.severity.value != "" }

  /** `rating.get("score")` is truthy. */
  predicate HasScore(r: Rating) { r.score.Some? && r.score.value.Truthy() }

  /** The position of the first rating with a score, or `|rs|` when there is none. */
  function FirstScored(rs: seq<Rating>): (k: nat)
    ensures k <= |rs|
    ensures forall j :: 0 <= j < k ==> !HasScore(rs[j])
    ensures k < |rs| ==> HasScore(rs[k])
  {
    if rs == [] then 0 else if HasScore(rs[0]) then 0 else 1 + FirstScored(rs[1..])
  }

  /** The title-cased severity of the last rating before position `n` that has one. */
  function LastSeverity(rs: seq<Rating>, n: nat): (r: Option<string>)
    requires n <= |rs|
    ensures r.Some? ==> exists i :: (0 <= i < n && HasSeverity(rs[i]) && r.value == Title(rs[i].severity.value) &&
      forall j :: i < j < n ==> !HasSeverity(rs[j]))
    ensures r.None? ==> forall j :: 0 <= j < n ==> !HasSeverity(rs[j])
  {
    if n == 0 then None
    else if HasSeverity(rs[n - 1]) then Some(Title(rs[n - 1].severity.value))
    else LastSeverity(rs, n - 1)
  }

  /** Severity: the last one seen up to and including the first scored rating, else "Unknown". */
  function SeverityOf(rs: seq<Rating>): string {
    var k := FirstScored(rs);
    LastSeverity(rs, if k < |rs| then k + 1 else |rs|).GetOr("Unknown")
  }

  /** Score: the text of the first truthy score, else "Unknown". */
  function ScoreOf(rs: seq<Rating>): string {
    var k := FirstScored(rs);
    if k < |rs| then rs[k].score.value.text else "Unknown"
  }

  /** The ratings loop: severity and score, stopping at the first rating with a score. */
  method SelectRating(rs: seq<Rating>) returns (severity: string, score: string)
    ensures severity == SeverityOf(rs) && score == ScoreOf(rs)
  {
    severity, score := "Unknown", "Unknown";
    var i := 0;
    while i < |rs|
      invariant Scanned(rs, i, severity)
    {
      ghost var seen := severity;
      if HasSeverity(rs[i]) {
        severity := Title(rs[i].severity.value);
      }
      if HasScore(rs[i]) {
        ScannedScore(rs, i, seen);
        score := rs[i].score.value.text;
        return;
      }
      ScannedStep(rs, i, seen);
      i := i + 1;
    }
    ScannedEnd(rs, severity);
  }

  /** The loop has passed `i` ratings without a score, and `severity` is the last one seen. */
  ghost predicate Scanned(rs: seq<Rating>, i: nat, severity: string) {
    && i <= |rs|
    && (forall j :: 0 <= j < i ==> !HasScore(rs[j]))
    && severity == LastSeverity(rs, i).GetOr("Unknown")
  }

  lemma ScannedStep(rs: seq<Rating>, i: nat, severity: string)
    requires Scanned(rs, i, severity) && i < |rs| && !HasScore(rs[i])
    ensures Scanned(rs, i + 1, if HasSeverity(rs[i]) then Title(rs[i].severity.value) else severity)
  {
    LastSeverityStep(rs, i);
  }

  lemma ScannedScore(rs: seq<Rating>, i: nat, severity: string)
    requires Scanned(rs, i, severity) && i < |rs| && HasScore(rs[i])
    ensures (if HasSeverity(rs[i]) then Title(rs[i].severity.value) else severity) == SeverityOf(rs)
    ensures rs[i].score.value.text == ScoreOf(rs)
  {
    FirstScoredIs(rs, i);
    assert SeverityOf(rs) == LastSeverity(rs, i + 1).GetOr("Unknown");
    LastSeverityStep(rs, i);
  }

  lemma ScannedEnd(rs: seq<Rating>, severity: string)
    requires Scanned(rs, |rs|, severity)
    ensures severity == SeverityOf(rs) && "Unknown" == ScoreOf(rs)
  {
    FirstScoredIs(rs, |rs|);
  }

  /** A position with no scored rating before it, and a scored one at it or the end, is the first scored one. */
  lemma FirstScoredIs(rs: seq<Rating>, i: nat)
    requires i <= |rs| && (forall j :: 0 <= j < i ==> !HasScore(rs[j])) && (i < |rs| ==> HasScore(rs[i]))
    ensures FirstScored(rs) == i
  {
  }

  lemma LastSeverityStep(rs: seq<Rating>, i: nat)
    requires i < |rs|
    ensures LastSeverity(rs, i + 1) == if HasSeverity(rs[i]) then Some(Title(rs[i].severity.value)) else LastSeverity(rs, i)
  {
  }

  // ---------------------------------------------------------------------------
  // Description
  // ---------------------------------------------------------------------------

  /** Stripped, every whitespace run made one blank, then cut to 200 characters plus "...". */
  function CleanDescription(raw: string): (d: string)
    ensures |d| <= 203
  {
    Truncate(Collapse(Strip(raw)))
  }

  /**
   * A cleaned description holds no whitespace but single blanks. When it was not cut, it
   * has the same visible text as the raw one and does not begin or end with a blank.
   */
  lemma CleanDescriptionShape(raw: string)
    ensures Collapsed(CleanDescription(raw))
    ensures |Collapse(Strip(raw))| <= 200 ==> Visible(CleanDescription(raw)) == Visible(raw)
    ensures |Collapse(Strip(raw))| <= 200 && |CleanDescription(raw)| > 0 ==>
      !IsSpace(CleanDescription(raw)[0]) && !IsSpace(CleanDescription(raw)[|CleanDescription(raw)| - 1])
  {
    var t := Strip(raw);
    var c := Collapse(t);
    CollapseCollapsed(t);
    CollapseVisible(t);
    StripVisible(raw);
    CollapseEnds(t);
    var d := CleanDescription(raw);
    if |c| > 200 {
      assert d == c[..200] + "...";
      TruncatedCollapsed(c);
    }
  }

  /** Cutting a collapsed text to 200 characters and adding "..." keeps it collapsed. */
  lemma TruncatedCollapsed(c: string)
    requires Collapsed(c) && |c| > 200
    ensures Collapsed(c[..200] + "...")
  {
    var d := c[..200] + "...";
    forall i | 0 <= i < |d| - 1 ensures !(d[i] == ' ' && d[i + 1] == ' ') {
      if i < 199 { assert d[i] == c[i] && d[i + 1] == c[i + 1]; }
    }
    forall i | 0 <= i < |d| && IsSpace(d[i]) ensures d[i] == ' ' {
      if i < 200 { assert d[i] == c[i]; }
    }
  }

  // ---------------------------------------------------------------------------
  // Rows
  // ---------------------------------------------------------------------------

  /** A finding's id; findings without one all share "Unknown". */
  function IdOf(v: Vulnerability): string { v.id.GetOr("Unknown") }

  function Ids(vs: seq<Vulnerability>): set<string> {
    set v | v in vs :: IdOf(v)
  }

  /** The findings that are processed: the first of each id, in input order. */
  function FirstOccurrences(vs: seq<Vulnerability>): (r: seq<Vulnerability>)
    ensures Ids(r) == Ids(vs)
    ensures forall v :: v in r ==> v in vs
  {
    if vs == [] then []
    else
      var init := vs[..|vs| - 1];
      var last := vs[|vs| - 1];
      assert vs == init + [last];
      var r := FirstOccurrences(init);
      assert Ids(vs) == Ids(init) + {IdOf(last)};
      if IdOf(last) in Ids(init) then r
      else
        assert Ids(r + [last]) == Ids(r) + {IdOf(last)};
        r + [last]
  }

  /** Each id is processed once, by the first finding that carries it. */
  lemma {:induction false} FirstOccurrencesDistinct(vs: seq<Vulnerability>)
    ensures forall i, j :: 0 <= i < j < |FirstOccurrences(vs)| ==>
      IdOf(FirstOccurrences(vs)[i]) != IdOf(FirstOccurrences(vs)[j])
    ensures forall i :: 0 <= i < |FirstOccurrences(vs)| ==> FirstOfItsId(vs, FirstOccurrences(vs)[i])
    decreases |vs|
  {
    if vs != [] {
      var init := vs[..|vs| - 1];
      var last := vs[|vs| - 1];
      FirstOccurrencesDistinct(init);
      var r := FirstOccurrences(init);
      var r' := FirstOccurrences(vs);
      forall i | 0 <= i < |r| ensures FirstOfItsId(vs, r[i]) {
        var k :| 0 <= k < |init| && init[k] == r[i] && forall m :: 0 <= m < k ==> IdOf(init[m]) != IdOf(init[k]);
        assert vs[k] == init[k];
        assert forall m :: 0 <= m < k ==> vs[m] == init[m];
      }
      if IdOf(last) !in Ids(init) {
        assert r' == r + [last];
        forall i | 0 <= i < |r| ensures IdOf(r[i]) != IdOf(last) {
          assert r[i] in r;
          assert IdOf(r[i]) in Ids(r);
        }
        forall m | 0 <= m < |vs| - 1 ensures IdOf(vs[m]) != IdOf(last) {
          assert vs[m] in init;
        }
        assert FirstOfItsId(vs, last) by {
          assert vs[|vs| - 1] == last;
        }
      }
    }
  }

  /** `v` occurs in `vs` at a position where no earlier finding has its id. */
  ghost predicate FirstOfItsId(vs: seq<Vulnerability>, v: Vulnerability) {
    exists k :: 0 <= k < |vs| && vs[k] == v && forall m :: 0 <= m < k ==> IdOf(vs[m]) != IdOf(vs[k])
  }

  /** Ids-less findings share the id "Unknown": only the first of them is kept. */
  lemma IdlessDuplicatesDropped(a: Vulnerability, b: Vulnerability)
    requires a.id.None? && b.id.None?
    ensures FirstOccurrences([a, b]) == [a]
  {
    assert [a, b][..1] == [a];
    assert [a][..0] == [];
    assert Ids([]) == {};
    assert FirstOccurrences([a]) == [a];
    assert Ids([a]) == {"Unknown"} by { assert a in [a]; }
  }

  /** The fixed-version text of a finding. */
  ghost function FixedVersionField(v: Vulnerability): string {
    FixedVersionText(FixedVersions(v))
  }

  /** The row for one `affects[]` entry of a finding. */
  ghost function AffectRow(image: string, cs: seq<Component>, v: Vulnerability, a: Affect): (r: TrackingRow)
    ensures var found := PackageLookup(cs, a.ref.GetOr(""));
      && r.packageType == found.kind
      && (found.name != "Unknown" ==> r.packageName == found.name && r.currentVersion == found.version)
    ensures |r.description| <= 203
    ensures r.status == "Pending" && r.notes == "" && r.assignedTo == "" && r.targetDate == "" && r.completedDate == ""
  {
    var ref := a.ref.GetOr("");
    var info := PurlFallback(PackageLookup(cs, ref), ref);
    TrackingRow(image, IdOf(v), info.name, info.version, info.kind,
      SeverityOf(v.ratings), ScoreOf(v.ratings), FixedVersionField(v),
      CleanDescription(v.description.GetOr("")), "Pending", "", "", "", "")
  }

  /** The rows of a finding, one per affected package, in `affects[]` order. */
  ghost function FindingRows(image: string, cs: seq<Component>, v: Vulnerability): (rows: seq<TrackingRow>)
    ensures |rows| == |v.affects|
  {
    seq(|v.affects|, j requires 0 <= j < |v.affects| => AffectRow(image, cs, v, v.affects[j]))
  }

  /** The number of `affects[]` entries of a finding. */
  function AffectCount(v: Vulnerability): nat { |v.affects| }

  /** The rows of a list of findings, concatenated. */
  ghost function RowsOf(image: string, cs: seq<Component>, vs: seq<Vulnerability>): (rows: seq<TrackingRow>)
    ensures |rows| == SumBy(vs, AffectCount)
  {
    if vs == [] then [] else RowsOf(image, cs, vs[..|vs| - 1]) + FindingRows(image, cs, vs[|vs| - 1])
  }

  /** The sort key order: severity rank, then score descending; numeric-looking scores only. */
  predicate RowLe(a: TrackingRow, b: TrackingRow) {
    var ra, rb := SeverityRank(a.severity), SeverityRank(b.severity);
    ra < rb || (ra == rb && ScoreKey(a.cvssScore) <= ScoreKey(b.cvssScore))
  }

  lemma RowLeTotalPreorder()
    ensures TotalPreorder(RowLe)
  {
  }

  /** The rows of the tracking CSV for an SBOM, in output order. */
  ghost function RemediationRows(bom: Bom): seq<TrackingRow> {
    SortBy(RowsOf(ImageName(bom), bom.components, FirstOccurrences(bom.vulnerabilities)), RowLe)
  }

  /** The rows of one finding: severity, score and description once, then one row per affected package. */
  method ProcessFinding(image: string, components: seq<Component>, v: Vulnerability) returns (rows: seq<TrackingRow>)
    ensures rows == FindingRows(image, components, v)
  {
    var severity, score := SelectRating(v.ratings);
    var description := CleanDescription(v.description.GetOr(""));
    ghost var expected := FindingRows(image, components, v);
    rows := [];
    for j := 0 to |v.affects|
      invariant rows == expected[..j]
    {
      var packageRef := v.affects[j].ref.GetOr("");
      var info := GetPackageInfo(components, packageRef);
      info := PurlFallback(info, packageRef);
      var fixedVersion := ExtractFixedVersion(v);
      var row := TrackingRow(image, IdOf(v), info.name, info.version, info.kind,
        severity, score, fixedVersion, description, "Pending", "", "", "", "");
      assert row == expected[j];
      PrefixSnoc(expected, j);
      rows := rows + [row];
    }
    PrefixAll(expected);
  }

  lemma FirstOccurrencesStep(vs: seq<Vulnerability>, i: nat)
    requires i < |vs|
    ensures Ids(vs[..i + 1]) == Ids(vs[..i]) + {IdOf(vs[i])}
    ensures FirstOccurrences(vs[..i + 1]) ==
      if IdOf(vs[i]) in Ids(vs[..i]) then FirstOccurrences(vs[..i]) else FirstOccurrences(vs[..i]) + [vs[i]]
  {
    PrefixSnoc(vs, i);
    PrefixOfPrefix(vs, i);
  }

  lemma RowsOfSnoc(image: string, cs: seq<Component>, ks: seq<Vulnerability>, v: Vulnerability)
    ensures RowsOf(image, cs, ks + [v]) == RowsOf(image, cs, ks) + FindingRows(image, cs, v)
  {
    assert (ks + [v])[..|ks|] == ks;
  }

  /** The per-finding loop of `generate_remediation_csv`, followed by the in-place sort. */
  method GenerateRemediationRows(bom: Bom) returns (rows: seq<TrackingRow>)
    ensures rows == RemediationRows(bom)
  {
    var image := ImageName(bom);
    var components := bom.components;
    var vulns := bom.vulnerabilities;
    var data: seq<TrackingRow> := [];
    var processed: set<string> := {};
    for i := 0 to |vulns|
      invariant processed == Ids(vulns[..i])
      invariant data == RowsOf(image, components, FirstOccurrences(vulns[..i]))
    {
      var v := vulns[i];
      FirstOccurrencesStep(vulns, i);
      var vulnId := IdOf(v);
      if vulnId in processed {
        continue;
      }
      processed := processed + {vulnId};
      var found := ProcessFinding(image, components, v);
      RowsOfSnoc(image, components, FirstOccurrences(vulns[..i]), v);
      data := data + found;
    }
    PrefixAll(vulns);
    rows := SortBy(data, RowLe);
  }

  /**
   * The output is ordered by severity rank and then by score, holds exactly the rows the
   * distinct findings produce, and rows with equal keys keep their production order.
   */
  lemma RemediationRowsOrdered(bom: Bom)
    ensures SortedBy(RemediationRows(bom), RowLe)
    ensures multiset(RemediationRows(bom))
      == multiset(RowsOf(ImageName(bom), bom.components, FirstOccurrences(bom.vulnerabilities)))
    ensures forall y :: (Ties(RemediationRows(bom), y, RowLe)
      == Ties(RowsOf(ImageName(bom), bom.components, FirstOccurrences(bom.vulnerabilities)), y, RowLe))
  {
    RowLeTotalPreorder();
    SortByCorrect(RowsOf(ImageName(bom), bom.components, FirstOccurrences(bom.vulnerabilities)), RowLe);
  }

  /** A finding's rows are "Pending", carry its id and the image, and a description of at most 203 characters. */
  lemma FindingRowPending(image: string, cs: seq<Component>, v: Vulnerability, j: nat)
    requires j < |v.affects|
    ensures FindingRows(image, cs, v)[j].status == "Pending"
    ensures |FindingRows(image, cs, v)[j].description| <= 203
    ensures FindingRows(image, cs, v)[j].image == image
    ensures FindingRows(image, cs, v)[j].vulnerabilityId == IdOf(v)
    ensures FindingRows(image, cs, v)[j].severity == SeverityOf(v.ratings)
    ensures FindingRows(image, cs, v)[j].cvssScore == ScoreOf(v.ratings)
    ensures FindingRows(image, cs, v)[j].fixedVersion == FixedVersionField(v)
    ensures FindingRows(image, cs, v)[j].description == CleanDescription(v.description.GetOr(""))
  {
    assert FindingRows(image, cs, v)[j] == AffectRow(image, cs, v, v.affects[j]);
  }

  /** Every row of every finding is "Pending" and carries a description of at most 203 characters. */
  lemma {:induction false} RowsPending(image: string, cs: seq<Component>, vs: seq<Vulnerability>, k: nat)
    requires k < |RowsOf(image, cs, vs)|
    ensures RowsOf(image, cs, vs)[k].status == "Pending"
    ensures |RowsOf(image, cs, vs)[k].description| <= 203
    ensures RowsOf(image, cs, vs)[k].image == image
    ensures RowsOf(image, cs, vs)[k].vulnerabilityId in Ids(vs)
    decreases |vs|
  {
    var init := vs[..|vs| - 1];
    var last := vs[|vs| - 1];
    var front := RowsOf(image, cs, init);
    assert Ids(vs) == Ids(init) + {IdOf(last)} by { assert vs == init + [last]; }
    assert RowsOf(image, cs, vs) == front + FindingRows(image, cs, last);
    if k < |front| {
      RowsPending(image, cs, init, k);
    } else {
      FindingRowPending(image, cs, last, k - |front|);
    }
  }

  /** What running the stage on a file gives. */
  datatype Outcome = FileMissing | BadJson | NoFindings | Written(rows: seq<TrackingRow>)

  /** `generate_remediation_csv`: exits on a bad input file, writes nothing when no row results. */
  method GenerateRemediationCsv(file: BomFile) returns (out: Outcome)
    ensures file.NotFound? ==> out == FileMissing
    ensures file.InvalidJson? ==> out == BadJson
    ensures file.Parsed? && RemediationRows(file.bom) == [] ==> out == NoFindings
    ensures file.Parsed? && RemediationRows(file.bom) != [] ==> out == Written(RemediationRows(file.bom))
  {
    match file
    case NotFound => out := FileMissing;
    case InvalidJson => out := BadJson;
    case Parsed(bom) =>
      var rows := GenerateRemediationRows(bom);
      out := if rows == [] then NoFindings else Written(rows);
  }

  /** A single rating "high" with score 7.5 gives severity High and score 7.5. */
  lemma SingleRatingExample()
    ensures SeverityOf([Rating(Some("high"), Some(Number("7.5")))]) == "High"
    ensures ScoreOf([Rating(Some("high"), Some(Number("7.5")))]) == "7.5"
  {
    var rs := [Rating(Some("high"), Some(Number("7.5")))];
    assert Number("7.5").Truthy() by { assert '1' <= "7.5"[0] <= '9'; }
    assert FirstScored(rs) == 0;
    var t := Title("high");
    assert t[0] == 'H' && t[1] == 'i' && t[2] == 'g' && t[3] == 'h';
    assert t == "High";
  }

  /** A finding with no version entries and no advisories has no fix hints. */
  lemma NoHintsExample(a: Affect, v: Vulnerability)
    requires a.versions == [] && v.affects == [a] && v.advisories == []
    ensures FixedVersionField(v) == "Check Manually"
  {
    assert [a][..0] == [];
    assert AffectSet(a) == {};
    assert AffectFixes(v.affects) == UnionOf([a][..0], AffectSet) + AffectSet(a);
  }

  /** The one row of that finding, before sorting. */
  lemma SingleFindingRow(image: string, a: Affect, v: Vulnerability)
    requires a == Affect(Some("pkg:pypi/foo@1.0"), [])
    requires v == Vulnerability(Some("CVE-1"), [Rating(Some("high"), Some(Number("7.5")))], None, [a], [])
    ensures AffectRow(image, [], v, a) == TrackingRow(image, "CVE-1", "foo", "1.0", "Unknown", "High", "7.5",
      "Check Manually", "", "Pending", "", "", "", "")
  {
    PurlFallbackExample();
    SingleRatingExample();
    NoHintsExample(a, v);
    assert CleanDescription("") == "";
  }

  /** An SBOM with a single finding that affects a single package gives that package's row. */
  lemma SingleAffectRows(bom: Bom, v: Vulnerability, a: Affect)
    requires bom.vulnerabilities == [v] && v.affects == [a]
    ensures RemediationRows(bom) == [AffectRow(ImageName(bom), bom.components, v, a)]
  {
    assert FirstOccurrences([v]) == [v] by {
      assert [v][..0] == [];
    }
    var row := AffectRow(ImageName(bom), bom.components, v, a);
    assert RowsOf(ImageName(bom), bom.components, [v]) == [row] by {
      assert [v][..0] == [];
      assert FindingRows(ImageName(bom), bom.components, v) == [row];
    }
    SortBySingle(row, RowLe);
  }

  /**
   * One finding (id CVE-1, severity "high", score 7.5) that affects the undeclared ref
   * `pkg:pypi/foo@1.0` and has no fix hints yields one row: foo, 1.0, High, 7.5,
   * "Check Manually".
   */
  lemma SingleFindingExample(image: string)
    ensures var v := Vulnerability(Some("CVE-1"), [Rating(Some("high"), Some(Number("7.5")))], None,
                       [Affect(Some("pkg:pypi/foo@1.0"), [])], []);
      var bom := Bom(Some(Metadata(Some(MetaComponent(Some(image))))), [], [v]);
      RemediationRows(bom) == [TrackingRow(image, "CVE-1", "foo", "1.0", "Unknown", "High", "7.5",
        "Check Manually", "", "Pending", "", "", "", "")]
  {
    var a := Affect(Some("pkg:pypi/foo@1.0"), []);
    var v := Vulnerability(Some("CVE-1"), [Rating(Some("high"), Some(Number("7.5")))], None, [a], []);
    var bom := Bom(Some(Metadata(Some(MetaComponent(Some(image))))), [], [v]);
    SingleAffectRows(bom, v, a);
    SingleFindingRow(image, a, v);
  }
}
